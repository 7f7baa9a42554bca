/** The price table message: `generateMainEmbed` renders one field per stock item
    (index.js:979-983) and `fetchSelectedMessage` reads the quantities back from such a
    message at start-up (index.js:1072-1092). */
module StockEmbed {
  import opened Wrappers
  import opened Text
  import opened JsNumbers
  import opened Schema

  datatype Field = Field(name: string, value: string)

  // ------------------------------------------------------------ render

  function TwoDigits(n: nat): (s: string)
    requires n < 100
    ensures |s| == 2 && AllDigits(s) && DigitsValue(s) == n
  {
    var s := [DigitChar(n / 10), DigitChar(n % 10)];
    assert s[..1] == [s[0]] && s[..1][..0] == [];
    assert DigitsValue(s[..1]) == DigitValue(s[0]);
    s
  }

  /** A price in cents as `toFixed(2)` shows the amount in reais. */
  function FormatCents(c: int): (s: string)
    ensures forall i :: 0 <= i < |s| ==> IsDigit(s[i]) || s[i] == '.' || s[i] == '-'
    decreases if c < 0 then 1 else 0
  {
    if c < 0 then "-" + FormatCents(-c)
    else NatToString(c / 100) + "." + TwoDigits(c % 100)
  }

  /** The shown amount reads back as the price: whole reais, a point, two digits of
      cents. */
  lemma FormatCentsDigits(c: nat)
    ensures var s := FormatCents(c); var d := NatToString(c / 100);
      && s == d + "." + TwoDigits(c % 100)
      && DigitsValue(d) * 100 + DigitsValue(TwoDigits(c % 100)) == c
  {
    NatToStringRoundTrip(c / 100);
  }

  /** The quantity, or `ESGOTADO` (sold out) when it is not positive. */
  function StockText(q: int): (s: string)
    ensures q > 0 ==> s == NatToString(q)
    ensures q <= 0 ==> s == "ESGOTADO"
  {
    if q > 0 then NatToString(q) else "ESGOTADO"
  }

  const PriceLabel: string := "Pre\U{E7}o:"
  const StockLabel: string := "Estoque:"

  /** `**Preço:** R$<price>` and a line break, then `**Estoque:** <stock>`. */
  function RenderValue(priceCents: int, quantity: int): (v: string)
    ensures "**" + PriceLabel + "**" <= v
  {
    var priceText := " R$" + FormatCents(priceCents) + "\n";
    var stockText := " " + StockText(quantity);
    "**" + (PriceLabel + ("**" + (priceText + ("**" + (StockLabel + ("**" + stockText))))))
  }

  /** The field `generateMainEmbed` shows for one item. */
  function RenderField(it: Item): (f: Field)
    ensures |it.name| < |f.name| && f.name[|f.name| - |it.name|..] == it.name
  {
    Field(it.emoji + " " + it.name, RenderValue(it.priceCents, it.quantity))
  }

  /** A field's name contains its item's name, so `includes` matching always finds an
      item for a rendered field. */
  lemma RenderedNameContainsName(it: Item)
    ensures Contains(RenderField(it).name, it.name)
  {
    ContainsSuffix(it.emoji + " ", it.name);
    assert it.emoji + " " + it.name == (it.emoji + " ") + it.name;
  }

  // ------------------------------------------------------------ parse

  /** Removing every pair of asterisks (a global replace of `**`), scanned left to right. */
  function StripBold(s: string): (r: string)
    ensures |r| <= |s|
    ensures s != [] && s[0] != '*' ==> r != [] && r[0] == s[0]
    ensures forall i :: 0 <= i < |r| - 1 ==> !(r[i] == '*' && r[i + 1] == '*')
  {
    if |s| >= 2 && s[0] == '*' && s[1] == '*' then StripBold(s[2..])
    else if s == [] then []
    else
      var rest := StripBold(s[1..]);
      assert s[0] == '*' ==> rest == [] || rest[0] != '*';
      [s[0]] + rest
  }

  lemma {:induction false} StripBoldPlain(a: string, b: string)
    requires '*' !in a
    ensures StripBold(a + b) == a + StripBold(b)
  {
    if a != [] {
      assert (a + b)[1..] == a[1..] + b;
      StripBoldPlain(a[1..], b);
      assert a + StripBold(b) == [a[0]] + (a[1..] + StripBold(b));
    } else {
      assert a + b == b;
    }
  }

  lemma StripBoldMarker(b: string)
    ensures StripBold("**" + b) == StripBold(b)
  {
    assert ("**" + b)[2..] == b;
  }

  /** `Estoque:\s*([0-9]+|ESGOTADO)` (case-insensitive) tried at the start of `s`, with
      the quantity the code derives from the captured text. */
  function MatchAt(s: string): (q: Option<int>)
    ensures q.Some? ==> q.value >= 0
  {
    if |s| >= 8 && EqualsIgnoreCase(s[..8], StockLabel) then
      var r := TrimStart(s[8..]);
      var d := LeadingDigits(r);
      if d != [] then Some(DigitsValue(d))
      else if |r| >= 8 && EqualsIgnoreCase(r[..8], "ESGOTADO") then Some(0)
      else None
    else None
  }

  /** `match` without the `g` flag: the leftmost position where the pattern matches. */
  function SearchStock(s: string): (q: Option<int>)
    ensures q.Some? ==> q.value >= 0
  {
    if s == [] then None else if MatchAt(s).Some? then MatchAt(s) else SearchStock(s[1..])
  }

  /** No match can start inside `p`: each `e` is followed, within `p`, by something
      other than an `s`. */
  predicate NoMatchStart(p: string) {
    forall i :: 0 <= i < |p| ==> SafeAt(p, i)
  }

  predicate SafeAt(p: string, i: int)
    requires 0 <= i < |p|
  {
    LowerChar(p[i]) != 'e' || (i + 1 < |p| && LowerChar(p[i + 1]) != 's')
  }

  lemma {:induction false} SkipPrefix(p: string, t: string)
    requires NoMatchStart(p)
    ensures SearchStock(p + t) == SearchStock(t)
  {
    if p == [] {
      assert p + t == t;
    } else {
      var s := p + t;
      assert LowerChar(StockLabel[0]) == 'e' && LowerChar(StockLabel[1]) == 's';
      assert MatchAt(s).None? by {
        assert SafeAt(p, 0);
        assert s[0] == p[0];
        if |p| > 1 { assert s[1] == p[1]; }
        if |s| >= 8 && EqualsIgnoreCase(s[..8], StockLabel) {
          assert false;
        }
      }
      assert s[1..] == p[1..] + t;
      assert NoMatchStart(p[1..]) by {
        forall i | 0 <= i < |p[1..]| ensures SafeAt(p[1..], i) {
          assert SafeAt(p, i + 1);
          assert p[1..][i] == p[i + 1];
          if i + 1 < |p[1..]| { assert p[1..][i + 1] == p[i + 2]; }
        }
      }
      SkipPrefix(p[1..], t);
    }
  }

  lemma NoMatchStartConcat(a: string, b: string)
    requires NoMatchStart(a) && NoMatchStart(b)
    ensures NoMatchStart(a + b)
  {
    forall i | 0 <= i < |a + b| ensures SafeAt(a + b, i) {
      if i < |a| {
        assert SafeAt(a, i);
        assert (a + b)[i] == a[i];
        if i + 1 < |a| { assert (a + b)[i + 1] == a[i + 1]; }
      } else {
        assert SafeAt(b, i - |a|);
        assert (a + b)[i] == b[i - |a|];
        if i + 1 < |a + b| { assert (a + b)[i + 1] == b[i + 1 - |a|]; }
      }
    }
  }

  /** The quantity `fetchSelectedMessage` reads from a field value, if any. */
  function ReadQuantity(value: string): Option<int> {
    SearchStock(StripBold(value))
  }

  /** Without its bold markers a rendered value is the two labelled lines. */
  lemma {:induction false} StripRendered(p: string, t: string)
    requires '*' !in p && '*' !in t
    ensures StripBold("**" + (PriceLabel + ("**" + (p + ("**" + (StockLabel + ("**" + t)))))))
         == PriceLabel + p + (StockLabel + t)
  {
    StripBoldMarker(PriceLabel + ("**" + (p + ("**" + (StockLabel + ("**" + t))))));
    StripBoldPlain(PriceLabel, "**" + (p + ("**" + (StockLabel + ("**" + t)))));
    StripBoldMarker(p + ("**" + (StockLabel + ("**" + t))));
    StripBoldPlain(p, "**" + (StockLabel + ("**" + t)));
    StripBoldMarker(StockLabel + ("**" + t));
    StripBoldPlain(StockLabel, "**" + t);
    StripBoldMarker(t);
    StripBoldPlain(t, []);
    assert t + [] == t;
    assert StripBold([]) == [];
  }

  /** The price line cannot start a match. */
  lemma PriceLineNoMatch(c: int)
    ensures NoMatchStart(PriceLabel + (" R$" + FormatCents(c) + "\n"))
  {
    var p := FormatCents(c);
    assert NoMatchStart(PriceLabel + " R$");
    assert NoMatchStart(p) by { assert forall i :: 0 <= i < |p| ==> p[i] != 'e' && p[i] != 'E'; }
    NoMatchStartConcat(PriceLabel + " R$", p);
    NoMatchStartConcat(PriceLabel + " R$" + p, "\n");
    assert PriceLabel + (" R$" + p + "\n") == PriceLabel + " R$" + p + "\n";
  }

  /** The stock line matches at its start with the shown quantity. */
  lemma StockLineMatches(q: int)
    ensures MatchAt(StockLabel + (" " + StockText(q))) == Some(if q > 0 then q else 0)
  {
    var t := StockText(q);
    var b := StockLabel + (" " + t);
    assert b[..8] == StockLabel && b[8..] == " " + t;
    assert EqualsIgnoreCase(b[..8], StockLabel);
    assert TrimStart(b[8..]) == t by {
      assert t[0] == '0' || !IsSpace(t[0]);
      TrimStartSingle(t);
    }
    if q > 0 {
      assert LeadingDigits(t) == t by {
        assert t + [] == t;
        LeadingDigitsAppend(t, []);
      }
      NatToStringRoundTrip(q);
    } else {
      assert LeadingDigits(t) == [];
      assert EqualsIgnoreCase(t[..8], "ESGOTADO");
    }
  }

  /** Reading a rendered field gives back the item's quantity, except that a negative
      quantity, shown as sold out, comes back as 0. */
  lemma {:induction false} ReadRenderedQuantity(it: Item)
    ensures ReadQuantity(RenderField(it).value) == Some(if it.quantity > 0 then it.quantity else 0)
  {
    var c := FormatCents(it.priceCents);
    var st := StockText(it.quantity);
    var p := " R$" + c + "\n";
    var t := " " + st;
    assert '*' !in p by { assert forall i :: 0 <= i < |c| ==> c[i] != '*'; }
    assert '*' !in t by {
      if it.quantity > 0 { assert forall i :: 0 <= i < |st| ==> IsDigit(st[i]); }
    }
    StripRendered(p, t);
    PriceLineNoMatch(it.priceCents);
    SkipPrefix(PriceLabel + p, StockLabel + t);
    StockLineMatches(it.quantity);
  }

  lemma TrimStartSingle(t: string)
    requires t == [] || !IsSpace(t[0])
    ensures TrimStart(" " + t) == t
  {
    assert (" " + t)[1..] == t;
  }

  // ------------------------------------------------------------ sync

  /** `currentStock.find(item => field.name.includes(item.name))` over the stock in the
      order the query returned it. */
  function FindByName(order: seq<string>, items: map<string, Item>, fieldName: string)
    : (k: Option<string>)
    ensures k.Some? ==> k.value in items && k.value in order && Contains(fieldName, items[k.value].name)
  {
    if order == [] then None
    else if order[0] in items && Contains(fieldName, items[order[0]].name) then Some(order[0])
    else FindByName(order[1..], items, fieldName)
  }

  /** `find` gives `undefined` exactly when no listed item's name is contained in the
      field's name. */
  lemma {:induction false} FindByNameNone(order: seq<string>, items: map<string, Item>, fieldName: string)
    ensures FindByName(order, items, fieldName).None? <==>
      forall i :: 0 <= i < |order| && order[i] in items ==> !Contains(fieldName, items[order[i]].name)
  {
    if order != [] {
      FindByNameNone(order[1..], items, fieldName);
      if !(order[0] in items && Contains(fieldName, items[order[0]].name)) {
        forall i | 1 <= i < |order| ensures order[i] == order[1..][i - 1] { }
      }
    }
  }

  /** `find` returns the first listed item whose name the field's name contains. */
  lemma {:induction false} FindByNameFirst(order: seq<string>, items: map<string, Item>,
                                           fieldName: string, i: nat)
    requires i < |order| && order[i] in items && Contains(fieldName, items[order[i]].name)
    requires forall j :: 0 <= j < i && order[j] in items ==> !Contains(fieldName, items[order[j]].name)
    ensures FindByName(order, items, fieldName) == Some(order[i])
  {
    if i > 0 {
      assert !(order[0] in items && Contains(fieldName, items[order[0]].name));
      FindByNameFirst(order[1..], items, fieldName, i - 1);
    }
  }

  /** How a field is matched to an item: as written, by the first item whose name the
      field's name contains; corrected, by the item whose rendered name it is. */
  datatype Matching = Includes | Exact

  function MatchField(m: Matching, order: seq<string>, items: map<string, Item>, fieldName: string)
    : (k: Option<string>)
    ensures k.Some? ==> k.value in items
  {
    match m
    case Includes => FindByName(order, items, fieldName)
    case Exact => FindByField(order, items, fieldName)
  }

  /** The update one field causes: the quantity of the item it is matched to, when a
      quantity is found and fits the 32-bit column. The price is not read back. */
  function SyncField(m: Matching, items: map<string, Item>, order: seq<string>, f: Field)
    : (r: map<string, Item>)
    ensures r.Keys == items.Keys
    ensures forall k :: k in r ==> r[k] == items[k].(quantity := r[k].quantity)
  {
    var k := MatchField(m, order, items, f.name);
    var q := ReadQuantity(f.value);
    if k.Some? && q.Some? && IsInt32(q.value) then items[k.value := items[k.value].(quantity := q.value)]
    else items
  }

  /** The updates for all fields, applied in field order. */
  function Sync(m: Matching, items: map<string, Item>, order: seq<string>, fields: seq<Field>)
    : (r: map<string, Item>)
    ensures r.Keys == items.Keys
    ensures forall k :: k in r ==> r[k] == items[k].(quantity := r[k].quantity)
    decreases |fields|
  {
    if fields == [] then items
    else Sync(m, SyncField(m, items, order, fields[0]), order, fields[1..])
  }

  /** A field's update keeps the tables valid: it only writes a quantity the column
      accepts to an existing item. */
  lemma SyncFieldValid(db: Db, m: Matching, order: seq<string>, f: Field)
    requires Valid(db)
    ensures Valid(db.(items := SyncField(m, db.items, order, f)))
  {
  }

  /** Re-reading the field of the item that is matched first restores its quantity
      (clamped at 0) and changes nothing else. */
  lemma ReadBackOwnField(items: map<string, Item>, order: seq<string>, k: string)
    requires k in items && IsInt32(items[k].quantity)
    requires FindByName(order, items, RenderField(items[k]).name) == Some(k)
    ensures SyncField(Includes, items, order, RenderField(items[k]))
         == items[k := items[k].(quantity := if items[k].quantity > 0 then items[k].quantity else 0)]
  {
    ReadRenderedQuantity(items[k]);
  }

  /** An item's name is found inside a longer name, so `MANGO` precedes and takes the
      quantity shown for `MANGO ROSA`. */
  lemma PrefixNameTakesField()
    ensures var items := map["MANGO" := Item("MANGO", "", 70, 5, 10),
                             "MANGO_ROSA" := Item("MANGO ROSA", "", 90, 7, 10)];
      && FindByName(["MANGO", "MANGO_ROSA"], items, RenderField(items["MANGO_ROSA"]).name) == Some("MANGO")
      && SyncField(Includes, items, ["MANGO", "MANGO_ROSA"], RenderField(items["MANGO_ROSA"]))["MANGO"].quantity == 7
  {
    var items := map["MANGO" := Item("MANGO", "", 70, 5, 10),
                     "MANGO_ROSA" := Item("MANGO ROSA", "", 90, 7, 10)];
    var name := RenderField(items["MANGO_ROSA"]).name;
    assert name == " " + "MANGO ROSA";
    assert Contains(name, "MANGO") by {
      assert name[1..] == "MANGO ROSA";
      assert "MANGO" <= name[1..];
    }
    ReadRenderedQuantity(items["MANGO_ROSA"]);
  }

  /** Corrected matching: the item whose rendered field name is exactly the field's. */
  function FindByField(order: seq<string>, items: map<string, Item>, fieldName: string)
    : (k: Option<string>)
    ensures k.Some? ==> k.value in items && RenderField(items[k.value]).name == fieldName
    ensures k.None? ==> forall i :: 0 <= i < |order| && order[i] in items ==>
                          RenderField(items[order[i]]).name != fieldName
  {
    if order == [] then None
    else if order[0] in items && RenderField(items[order[0]]).name == fieldName then Some(order[0])
    else FindByField(order[1..], items, fieldName)
  }

  /** With exact matching and distinct field names, each field finds its own item. */
  lemma {:induction false} FindByFieldOwn(order: seq<string>, items: map<string, Item>, k: string)
    requires k in items && k in order
    requires forall j :: j in items && j != k ==> RenderField(items[j]).name != RenderField(items[k]).name
    ensures FindByField(order, items, RenderField(items[k]).name) == Some(k)
  {
    if order[0] != k {
      assert k in order[1..];
      FindByFieldOwn(order[1..], items, k);
    }
  }

  /** The fields rendered for the items `ks`, in that order. */
  function RenderFields(items: map<string, Item>, ks: seq<string>): (fs: seq<Field>)
    requires forall i :: 0 <= i < |ks| ==> ks[i] in items
    ensures |fs| == |ks|
    ensures forall i :: 0 <= i < |ks| ==> fs[i] == RenderField(items[ks[i]])
  {
    seq(|ks|, i requires 0 <= i < |ks| => RenderField(items[ks[i]]))
  }

  /** No two items show the same field name. */
  predicate DistinctFieldNames(items: map<string, Item>) {
    forall a, b :: a in items && b in items && a != b ==>
      RenderField(items[a]).name != RenderField(items[b]).name
  }

  /** A quantity as the table shows it and reads it back. */
  function Clamp(q: int): int { if q > 0 then q else 0 }

  /** Stocks with the same names per key render fields with the same names. */
  lemma SameNamesDistinct(c: map<string, Item>, b: map<string, Item>)
    requires c.Keys == b.Keys
    requires forall k :: k in c ==> c[k].name == b[k].name && c[k].emoji == b[k].emoji
    requires DistinctFieldNames(b)
    ensures DistinctFieldNames(c)
  {
    forall a, a' | a in c && a' in c && a != a'
      ensures RenderField(c[a]).name != RenderField(c[a']).name
    {
      assert RenderField(c[a]).name == RenderField(b[a]).name;
      assert RenderField(c[a']).name == RenderField(b[a']).name;
    }
  }

  /** With exact matching, the field `b` renders for `k` sets `k`'s quantity in a stock
      `c` with the same names. */
  lemma SyncOwnRenderedField(c: map<string, Item>, b: map<string, Item>, order: seq<string>, k: string)
    requires c.Keys == b.Keys
    requires forall k :: k in c ==> c[k].name == b[k].name && c[k].emoji == b[k].emoji
    requires DistinctFieldNames(b)
    requires k in b && k in order && IsInt32(b[k].quantity)
    ensures SyncField(Exact, c, order, RenderField(b[k])) == c[k := c[k].(quantity := Clamp(b[k].quantity))]
  {
    assert RenderField(c[k]).name == RenderField(b[k]).name;
    SameNamesDistinct(c, b);
    FindByFieldOwn(order, c, k);
    ReadRenderedQuantity(b[k]);
  }

  /** With exact matching, syncing fields rendered from the stock `b` into a stock `c`
      with the same names sets each rendered item's quantity to what `b` showed and
      leaves everything else alone. */
  lemma {:induction false} SyncRenderedExact(c: map<string, Item>, b: map<string, Item>,
                                             order: seq<string>, ks: seq<string>)
    requires c.Keys == b.Keys
    requires forall k :: k in c ==> c[k].name == b[k].name && c[k].emoji == b[k].emoji
    requires DistinctFieldNames(b)
    requires forall k :: k in b ==> IsInt32(b[k].quantity)
    requires forall i :: 0 <= i < |ks| ==> ks[i] in b && ks[i] in order
    ensures var r := Sync(Exact, c, order, RenderFields(b, ks));
      forall k :: k in c ==>
        r[k] == if k in ks then c[k].(quantity := Clamp(b[k].quantity)) else c[k]
    decreases |ks|
  {
    var fs := RenderFields(b, ks);
    if ks != [] {
      var k0 := ks[0];
      assert fs[1..] == RenderFields(b, ks[1..]);
      var c1 := c[k0 := c[k0].(quantity := Clamp(b[k0].quantity))];
      SyncOwnRenderedField(c, b, order, k0);
      SyncRenderedExact(c1, b, order, ks[1..]);
      forall k | k in c
        ensures Sync(Exact, c, order, fs)[k]
             == if k in ks then c[k].(quantity := Clamp(b[k].quantity)) else c[k]
      {
        assert k in ks <==> k == k0 || k in ks[1..];
      }
    }
  }

  /** Hence, with exact matching, rendering the stock and reading the table back
      restores every quantity (clamped at 0) and changes nothing else. */
  lemma SyncRoundTrip(items: map<string, Item>, order: seq<string>)
    requires DistinctFieldNames(items)
    requires forall k :: k in items ==> IsInt32(items[k].quantity)
    requires forall i :: 0 <= i < |order| ==> order[i] in items
    ensures var r := Sync(Exact, items, order, RenderFields(items, order));
      forall k :: k in items ==>
        r[k] == if k in order then items[k].(quantity := Clamp(items[k].quantity)) else items[k]
  {
    SyncRenderedExact(items, items, order, order);
  }
}
