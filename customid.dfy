/** Decoding of interaction custom ids. The handlers read their argument with
    `customId.split('_')[2]` (index.js:1317, 1471, 1597, 1669, 1692); which piece that is
    depends on how many underscores the prefix and the argument contain. */
module CustomId {
  import opened Wrappers
  import opened Text
  import opened JsNumbers

  /** `customId.split('_')[2]`, absent when there are fewer than three pieces. */
  function ThirdSegment(customId: string): (r: Option<string>)
    ensures r.Some? ==> '_' !in r.value
    ensures r.Some? <==> |Split(customId, '_')| >= 3
  {
    var parts := Split(customId, '_');
    if |parts| >= 3 then Some(parts[2]) else None
  }

  /** After two underscore-free words, the third piece is the argument up to its
      own first underscore. */
  lemma {:induction false} ThirdSegmentAfterTwoWords(w1: string, w2: string, arg: string)
    requires '_' !in w1 && '_' !in w2
    ensures ThirdSegment(w1 + "_" + w2 + "_" + arg) == Some(Split(arg, '_')[0])
  {
    SplitAfterPiece(w2, '_', arg);
    assert w1 + "_" + w2 + "_" + arg == w1 + ['_'] + (w2 + ['_'] + arg);
    SplitAfterPiece(w1, '_', w2 + ['_'] + arg);
  }

  /** `confirm_delivery_<n>`, `apply_coupon_<n>` and `coupon_modal_<n>` decode to n. */
  lemma RecordIdButtonsDecode(n: nat)
    ensures ThirdSegment("confirm_delivery_" + NatToString(n)) == Some(NatToString(n))
    ensures ThirdSegment("apply_coupon_" + NatToString(n)) == Some(NatToString(n))
    ensures ThirdSegment("coupon_modal_" + NatToString(n)) == Some(NatToString(n))
    ensures ParseInt(NatToString(n)) == Some(n)
  {
    var d := NatToString(n);
    assert '_' !in d by { assert forall i :: 0 <= i < |d| ==> IsDigit(d[i]); }
    SplitWhole(d, '_');
    assert "confirm_delivery_" + d == "confirm" + "_" + "delivery" + "_" + d;
    ThirdSegmentAfterTwoWords("confirm", "delivery", d);
    assert "apply_coupon_" + d == "apply" + "_" + "coupon" + "_" + d;
    ThirdSegmentAfterTwoWords("apply", "coupon", d);
    assert "coupon_modal_" + d == "coupon" + "_" + "modal" + "_" + d;
    ThirdSegmentAfterTwoWords("coupon", "modal", d);
    ParseIntOfNat(n);
  }

  /** `admin_confirm_delivery_<n>` decodes to the word `delivery`, which `parseInt`
      reads as NaN: the admin's "delivery done" button never finds its record. */
  lemma AdminConfirmDecodesWord(n: nat)
    ensures ThirdSegment("admin_confirm_delivery_" + NatToString(n)) == Some("delivery")
    ensures ParseInt("delivery") == None
  {
    var d := NatToString(n);
    var arg := "delivery_" + d;
    assert "admin_confirm_delivery_" + d == "admin" + "_" + "confirm" + "_" + arg;
    ThirdSegmentAfterTwoWords("admin", "confirm", arg);
    assert arg == "delivery" + ['_'] + d;
    assert '_' !in "delivery";
    SplitAfterPiece("delivery", '_', d);
    WordIsNaN("delivery");
  }

  /** A word that starts with a letter reads as NaN. */
  lemma WordIsNaN(w: string)
    requires w != [] && ('a' <= w[0] <= 'z' || 'A' <= w[0] <= 'Z')
    ensures ParseInt(w) == None
  {
    assert !IsSpace(w[0]);
    assert TrimStart(w) == w;
  }

  /** An item id with an underscore, such as `MR_CARROT`, loses everything from its
      first underscore on: `quantity_modal_MR_CARROT` decodes to `MR`. */
  lemma ItemIdTruncated(head: string, tail: string)
    requires '_' !in head
    ensures ThirdSegment("quantity_modal_" + (head + "_" + tail)) == Some(head)
    ensures head != head + "_" + tail
  {
    var arg := head + "_" + tail;
    assert "quantity_modal_" + arg == "quantity" + "_" + "modal" + "_" + arg;
    ThirdSegmentAfterTwoWords("quantity", "modal", arg);
    SplitAfterPiece(head, '_', tail);
    assert |head + "_" + tail| > |head|;
  }

  lemma MrCarrotExample()
    ensures ThirdSegment("quantity_modal_MR_CARROT") == Some("MR")
  {
    assert "quantity_modal_MR_CARROT" == "quantity_modal_" + ("MR" + "_" + "CARROT");
    ItemIdTruncated("MR", "CARROT");
  }

  /** Corrected decoding: everything after the handler's own known prefix. */
  function AfterPrefix(prefix: string, customId: string): (r: Option<string>)
    ensures r.Some? <==> prefix <= customId
    ensures r.Some? ==> prefix + r.value == customId
  {
    if prefix <= customId then Some(customId[|prefix|..]) else None
  }

  /** The corrected decoder returns any argument whole, underscores included. */
  lemma AfterPrefixRoundTrip(prefix: string, arg: string)
    ensures AfterPrefix(prefix, prefix + arg) == Some(arg)
  {
    assert (prefix + arg)[|prefix|..] == arg;
  }

  /** With the corrected decoder the admin button decodes to its record id. */
  lemma AdminConfirmCorrected(n: nat)
    ensures AfterPrefix("admin_confirm_delivery_", "admin_confirm_delivery_" + NatToString(n))
         == Some(NatToString(n))
    ensures ParseInt(NatToString(n)) == Some(n)
  {
    AfterPrefixRoundTrip("admin_confirm_delivery_", NatToString(n));
    ParseIntOfNat(n);
  }
}
