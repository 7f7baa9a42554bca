/** The Pix transaction identifier that ties a payment notification to a delivery
    record: built by the purchase handler as `TICKET` + record id + `Date.now()`
    (index.js:1383) and read back by the webhook with `/^TICKET(\d+)/` and
    `parseInt` (index.js:807-810). */
module Txid {
  import opened Wrappers
  import opened Text

  const Prefix: string := "TICKET"

  /** `TICKET${deliveryRecord.id}${Date.now()}`: no separator between the two numbers. */
  function BuildTxid(recordId: nat, timestamp: nat): (t: string)
    ensures Prefix <= t && |t| >= |Prefix| + 2
    ensures AllDigits(t[|Prefix|..])
  {
    var a, b := NatToString(recordId), NatToString(timestamp);
    DigitsValueAppend(a, b);
    assert (Prefix + a + b)[|Prefix|..] == a + b;
    Prefix + a + b
  }

  /** The webhook's reading: the greedy run of digits right after `TICKET`, as a number;
      `None` when the text does not match. */
  function ParseTxid(txid: string): (r: Option<nat>)
    ensures r.Some? <==> |txid| > |Prefix| && Prefix <= txid && IsDigit(txid[|Prefix|])
  {
    if Prefix <= txid then
      var digits := LeadingDigits(txid[|Prefix|..]);
      if digits == [] then None else Some(DigitsValue(digits))
    else None
  }

  /** What the webhook actually decodes from a built identifier: the record id's digits
      followed by the timestamp's digits, read as one number. */
  lemma {:induction false} DecodedIsConcatenation(recordId: nat, timestamp: nat)
    ensures ParseTxid(BuildTxid(recordId, timestamp))
         == Some(recordId * Pow10(|NatToString(timestamp)|) + timestamp)
  {
    var a, b := NatToString(recordId), NatToString(timestamp);
    var t := BuildTxid(recordId, timestamp);
    assert t[|Prefix|..] == a + b;
    DigitsValueAppend(a, b);
    LeadingDigitsAppend(a + b, []);
    assert a + b + [] == a + b;
    NatToStringRoundTrip(recordId);
    NatToStringRoundTrip(timestamp);
  }

  /** In particular the decoded number is at least the timestamp. */
  lemma DecodedAtLeastTimestamp(recordId: nat, timestamp: nat)
    ensures ParseTxid(BuildTxid(recordId, timestamp)).Some?
    ensures ParseTxid(BuildTxid(recordId, timestamp)).value >= timestamp
  {
    DecodedIsConcatenation(recordId, timestamp);
    NonNegativeProduct(recordId, Pow10(|NatToString(timestamp)|));
  }

  lemma NonNegativeProduct(x: nat, y: nat)
    ensures x * y >= 0
  {
  }

  /** The decoder returns the record id exactly when no digit follows the id's digits
      (record ids start at 1, so the id has no leading zero to absorb). */
  lemma {:induction false} DecodesIdIff(recordId: nat, rest: string)
    requires recordId >= 1
    ensures ParseTxid(Prefix + NatToString(recordId) + rest) == Some(recordId)
        <==> (rest == [] || !IsDigit(rest[0]))
  {
    var a := NatToString(recordId);
    var t := Prefix + a + rest;
    assert t[|Prefix|..] == a + rest;
    LeadingDigitsAppend(a, rest);
    var l := LeadingDigits(rest);
    NatToStringRoundTrip(recordId);
    assert ParseTxid(t) == Some(DigitsValue(a + l));
    if rest == [] || !IsDigit(rest[0]) {
      assert l == [];
      assert a + l == a;
    } else {
      assert l != [] by { assert IsDigit(rest[0]); }
      DigitsValueAppend(a, l);
      ShiftedExceeds(recordId, |l|, DigitsValue(l));
    }
  }

  /** Shifting a positive number left by at least one decimal place makes it larger. */
  lemma ShiftedExceeds(x: nat, k: nat, y: nat)
    requires x >= 1 && k >= 1
    ensures x * Pow10(k) + y > x
  {
    assert Pow10(k) == 10 * Pow10(k - 1);
    assert x * Pow10(k) == x * 10 * Pow10(k - 1);
    assert x * 10 * Pow10(k - 1) >= x * 10;
  }

  /** Hence the identifier the purchase handler builds never decodes to its own record. */
  lemma NeverDecodesToOwnRecord(recordId: nat, timestamp: nat)
    requires recordId >= 1
    ensures ParseTxid(BuildTxid(recordId, timestamp)) != Some(recordId)
  {
    var b := NatToString(timestamp);
    assert BuildTxid(recordId, timestamp) == Prefix + NatToString(recordId) + b;
    DecodesIdIff(recordId, b);
  }

  /** Corrected construction: a letter between the record id and the timestamp ends the
      digit run, and the identifier stays alphanumeric. */
  function BuildTxidSeparated(recordId: nat, timestamp: nat): (t: string)
    ensures Prefix <= t
  {
    Prefix + NatToString(recordId) + "T" + NatToString(timestamp)
  }

  lemma SeparatedRoundTrip(recordId: nat, timestamp: nat)
    requires recordId >= 1
    ensures ParseTxid(BuildTxidSeparated(recordId, timestamp)) == Some(recordId)
  {
    var rest := "T" + NatToString(timestamp);
    assert BuildTxidSeparated(recordId, timestamp) == Prefix + NatToString(recordId) + rest;
    DecodesIdIff(recordId, rest);
  }
}
