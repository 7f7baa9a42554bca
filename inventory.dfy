/** The stock table as the management panel changes it: `/add-fruit` (index.js:252-273),
    `/delete-item` (index.js:276-295), `/update-stock` (index.js:308-334) and the
    first-run seeding (index.js:123-140). */
module Inventory {
  import opened Wrappers
  import opened Text
  import opened JsNumbers
  import opened Schema

  // ------------------------------------------------------------ id normalisation

  /** `replace(/\s+/g, '_')`: every maximal run of whitespace becomes one underscore. */
  function CollapseSpace(s: string): (r: string)
    ensures forall i :: 0 <= i < |r| ==> !IsSpace(r[i])
    ensures NoLower(s) ==> NoLower(r)
    decreases |s|
  {
    if s == [] then []
    else if IsSpace(s[0]) then
      var t := TrimStart(s);
      assert t != s;
      "_" + CollapseSpace(t)
    else [s[0]] + CollapseSpace(s[1..])
  }

  /** `String(id).toUpperCase().replace(/\s+/g, '_')`. */
  function NormaliseId(id: string): (k: string)
    ensures IsNormalId(k)
  {
    CollapseSpace(Upper(id))
  }

  lemma {:induction false} CollapseWithoutSpace(s: string)
    requires forall i :: 0 <= i < |s| ==> !IsSpace(s[i])
    ensures CollapseSpace(s) == s
    decreases |s|
  {
    if s != [] {
      CollapseWithoutSpace(s[1..]);
    }
  }

  /** Leading whitespace followed by a non-space is skipped in one step. */
  lemma {:induction false} TrimStartRun(w: string, b: string)
    requires forall i :: 0 <= i < |w| ==> IsSpace(w[i])
    requires b == [] || !IsSpace(b[0])
    ensures TrimStart(w + b) == b
    decreases |w|
  {
    if w == [] {
      assert w + b == b;
    } else {
      assert (w + b)[1..] == w[1..] + b;
      TrimStartRun(w[1..], b);
    }
  }

  /** Text without whitespace is kept as it is in front of whatever follows. */
  lemma {:induction false} CollapseKeepsPrefix(a: string, t: string)
    requires forall i :: 0 <= i < |a| ==> !IsSpace(a[i])
    ensures CollapseSpace(a + t) == a + CollapseSpace(t)
    decreases |a|
  {
    if a == [] {
      assert a + t == t;
    } else {
      var s := a + t;
      assert s[0] == a[0];
      assert s[1..] == a[1..] + t;
      CollapseKeepsPrefix(a[1..], t);
      assert a + CollapseSpace(t) == [a[0]] + (a[1..] + CollapseSpace(t));
    }
  }

  /** A word, then a run of whitespace, then the rest: the run becomes exactly one
      underscore and the word is kept as it is. */
  lemma CollapseRun(a: string, w: string, b: string)
    requires forall i :: 0 <= i < |a| ==> !IsSpace(a[i])
    requires w != [] && forall i :: 0 <= i < |w| ==> IsSpace(w[i])
    requires b == [] || !IsSpace(b[0])
    ensures CollapseSpace(a + w + b) == a + "_" + CollapseSpace(b)
  {
    var t := w + b;
    var rest := CollapseSpace(b);
    assert a + ("_" + rest) == a + "_" + rest;
    assert CollapseSpace(a + w + b) == a + CollapseSpace(t) by {
      assert a + w + b == a + t;
      CollapseKeepsPrefix(a, t);
    }
    assert CollapseSpace(t) == "_" + rest by {
      assert t[0] == w[0];
      TrimStartRun(w, b);
    }
  }

  /** A normal id is its own normal form, so normalising twice changes nothing. */
  lemma NormaliseIdempotent(id: string)
    ensures IsNormalId(id) ==> NormaliseId(id) == id
    ensures NormaliseId(NormaliseId(id)) == NormaliseId(id)
  {
    forall s | IsNormalId(s) ensures NormaliseId(s) == s {
      UpperOfUpper(s);
      CollapseWithoutSpace(s);
    }
  }

  // ------------------------------------------------------------ add

  datatype AddReply = Added(id: string) | MissingField | DuplicateId | WriteFailed

  /** The item `/add-fruit` writes: `max` falls back to the quantity and then to 100. */
  function NewItem(name: string, emoji: string, price: Option<int>, quantity: Option<int>,
                   max: Option<int>): Item
  {
    Item(Upper(name), emoji, OrDefault(price, 0), OrDefault(quantity, 0),
         OrDefault(max, OrDefault(quantity, 100)))
  }

  /** `/add-fruit`. Missing text fields are the empty string; `price`, `quantity` and
      `max` are the results of `Number(...)`, `None` for NaN. A quantity or maximum
      outside the 32-bit integer column makes the database write fail. */
  function AddItem(db: Db, id: string, name: string, emoji: string, price: Option<int>,
                   quantity: Option<int>, max: Option<int>): (o: Outcome<AddReply>)
    ensures o.db == db.(items := o.db.items)
    ensures o.db.items.Keys <= db.items.Keys + {NormaliseId(id)}
    ensures o.reply.Added? <==>
      id != [] && name != [] && NormaliseId(id) !in db.items
      && IsInt32(NewItem(name, emoji, price, quantity, max).quantity)
      && IsInt32(NewItem(name, emoji, price, quantity, max).max)
    ensures o.reply.Added? ==>
      o.db.items == db.items[NormaliseId(id) := NewItem(name, emoji, price, quantity, max)]
  {
    if id == [] || name == [] then Outcome(db, MissingField)
    else
      var k := NormaliseId(id);
      if k in db.items then Outcome(db, DuplicateId)
      else
        var it := NewItem(name, emoji, price, quantity, max);
        if !IsInt32(it.quantity) || !IsInt32(it.max) then Outcome(db, WriteFailed)
        else Outcome(db.(items := db.items[k := it]), Added(k))
  }

  /** The rules of `/add-fruit`: which requests add, what they add, and that a refused
      request changes nothing. */
  lemma AddItemRules(db: Db, id: string, name: string, emoji: string, price: Option<int>,
                     quantity: Option<int>, max: Option<int>)
    ensures var o := AddItem(db, id, name, emoji, price, quantity, max);
      && (id == [] || name == [] ==> o.reply == MissingField)
      && (id != [] && name != [] && NormaliseId(id) in db.items ==> o.reply == DuplicateId)
      && (o.reply.WriteFailed? <==>
            id != [] && name != [] && NormaliseId(id) !in db.items
            && !(IsInt32(NewItem(name, emoji, price, quantity, max).quantity)
                 && IsInt32(NewItem(name, emoji, price, quantity, max).max)))
      && (o.reply.Added? ==>
            o.db.items[NormaliseId(id)] == NewItem(name, emoji, price, quantity, max))
      && (o.reply.Added? ==>
            o.reply.id == NormaliseId(id) && NormaliseId(id) !in db.items
            && o.db == db.(items := db.items[NormaliseId(id) := o.db.items[NormaliseId(id)]])
            && o.db.items[NormaliseId(id)].name == Upper(name)
            && NoLower(o.db.items[NormaliseId(id)].name))
      && (!o.reply.Added? ==> o.db == db)
  {
  }

  /** The fallbacks of `Number(x) || d`: a missing or zero maximum takes the quantity,
      and 100 when the quantity is missing or zero too. */
  lemma MaxFallback(price: Option<int>, quantity: Option<int>, max: Option<int>)
    ensures max.Some? && max.value != 0 ==> NewItem("", "", price, quantity, max).max == max.value
    ensures (max.None? || max == Some(0)) && quantity.Some? && quantity.value != 0
            ==> NewItem("", "", price, quantity, max).max == quantity.value
    ensures (max.None? || max == Some(0)) && (quantity.None? || quantity == Some(0))
            ==> NewItem("", "", price, quantity, max).max == 100
                && NewItem("", "", price, quantity, max).quantity == 0
  {
  }

  lemma AddItemValid(db: Db, id: string, name: string, emoji: string, price: Option<int>,
                     quantity: Option<int>, max: Option<int>)
    requires Valid(db)
    ensures Valid(AddItem(db, id, name, emoji, price, quantity, max).db)
  {
  }

  /** Ids that differ only in case and in their whitespace name the same item. */
  lemma {:induction false} SpacedIdIsDuplicate(db: Db, word1: string, gap: string, word2: string,
                                               name: string)
    requires Valid(db) && name != []
    requires word1 != [] && forall i :: 0 <= i < |word1| ==> !IsSpace(word1[i])
    requires forall i :: 0 <= i < |word2| ==> !IsSpace(word2[i])
    requires gap != [] && forall i :: 0 <= i < |gap| ==> IsSpace(gap[i])
    requires Upper(word1) + "_" + Upper(word2) in db.items
    ensures AddItem(db, word1 + gap + word2, name, "", None, None, None).reply == DuplicateId
  {
    var s := word1 + gap + word2;
    var u := Upper(s);
    assert u == Upper(word1) + gap + Upper(word2) by {
      assert forall i :: 0 <= i < |gap| ==> !('a' <= gap[i] <= 'z');
    }
    assert Upper(word2) == [] || !IsSpace(Upper(word2)[0]);
    CollapseRun(Upper(word1), gap, Upper(word2));
    CollapseWithoutSpace(Upper(word2));
  }

  // ------------------------------------------------------------ delete

  datatype DeleteReply = Deleted | MissingId | Referenced | DeleteFailed

  /** Whether any delivery record or gift code points at the item. */
  predicate IsReferenced(db: Db, id: string) {
    (exists r :: r in db.records && db.records[r].itemId == id)
    || (exists g :: g in db.gifts && db.gifts[g].itemId == id)
  }

  /** `/delete-item`: refused while any record or gift refers to the item; deleting an
      id that is not there is a database error. */
  function DeleteItem(db: Db, id: string): (o: Outcome<DeleteReply>)
    ensures o.db == db || o.db == db.(items := db.items - {id})
  {
    if id == [] then Outcome(db, MissingId)
    else if IsReferenced(db, id) then Outcome(db, Referenced)
    else if id !in db.items then Outcome(db, DeleteFailed)
    else Outcome(db.(items := db.items - {id}), Deleted)
  }

  /** A referenced item is never removed, and a removal keeps every reference to an
      item valid: the guard is what keeps the foreign keys intact. */
  lemma DeleteItemRules(db: Db, id: string)
    ensures IsReferenced(db, id) ==> DeleteItem(db, id).db == db
    ensures DeleteItem(db, id).reply == Deleted <==> id != [] && !IsReferenced(db, id) && id in db.items
    ensures DeleteItem(db, id).reply == Deleted ==> DeleteItem(db, id).db == db.(items := db.items - {id})
    ensures DeleteItem(db, id).reply == Deleted ==> DeleteItem(db, id).db.items.Keys == db.items.Keys - {id}
    ensures DeleteItem(db, id).reply != Deleted ==> DeleteItem(db, id).db == db
    ensures Valid(db) ==> Valid(DeleteItem(db, id).db)
  {
  }

  // ------------------------------------------------------------ patch

  /** One item read from the `/update-stock` body: `<ID>_quantity` through
      `parseInt(..., 10)`, `<ID>_price` through the price reading `priceOf` (`None`
      for NaN). `None` when a value is one the database refuses. */
  function PatchedItem(id: string, it: Item, body: map<string, string>,
                       priceOf: string -> Option<int>): Option<Item>
  {
    var qk := id + "_quantity";
    var pk := id + "_price";
    var q := if qk in body then ParseInt(body[qk]) else Some(it.quantity);
    var p := if pk in body then priceOf(body[pk]) else Some(it.priceCents);
    if q.None? || p.None? || (qk in body && !IsInt32(q.value)) then None
    else Some(it.(quantity := q.value, priceCents := p.value))
  }

  predicate PatchAccepted(items: map<string, Item>, body: map<string, string>,
                          priceOf: string -> Option<int>)
  {
    forall k :: k in items ==> PatchedItem(k, items[k], body, priceOf).Some?
  }

  function PatchItems(items: map<string, Item>, body: map<string, string>,
                      priceOf: string -> Option<int>): map<string, Item>
    requires PatchAccepted(items, body, priceOf)
  {
    map k | k in items :: PatchedItem(k, items[k], body, priceOf).value
  }

  /** `/update-stock`: the updates for the existing items run in one transaction, so
      a single rejected value leaves every item as it was. */
  function StockPatch(db: Db, body: map<string, string>, priceOf: string -> Option<int>)
    : (o: Outcome<bool>)
    ensures !o.reply ==> o.db == db
  {
    if PatchAccepted(db.items, body, priceOf) then
      Outcome(db.(items := PatchItems(db.items, body, priceOf)), true)
    else Outcome(db, false)
  }

  /** Only existing items change and none is added or removed; an item without keys in
      the body keeps its values; a quantity key sets the parsed quantity; a rejected
      value aborts everything. */
  lemma StockPatchRules(db: Db, body: map<string, string>, priceOf: string -> Option<int>, k: string)
    ensures var o := StockPatch(db, body, priceOf);
      && o.db.items.Keys == db.items.Keys
      && o.db == db.(items := o.db.items)
      && (!o.reply ==> o.db == db)
      && (k in db.items && k + "_quantity" !in body && k + "_price" !in body ==>
            o.db.items[k] == db.items[k])
      && (o.reply && k in db.items && k + "_quantity" in body ==>
            Some(o.db.items[k].quantity) == ParseInt(body[k + "_quantity"]))
      && (k in db.items && k + "_quantity" in body && ParseInt(body[k + "_quantity"]).None? ==>
            !o.reply && o.db == db)
      && (o.reply <==>
            forall j :: j in db.items ==>
              (j + "_quantity" in body ==>
                 ParseInt(body[j + "_quantity"]).Some? && IsInt32(ParseInt(body[j + "_quantity"]).value))
              && (j + "_price" in body ==> priceOf(body[j + "_price"]).Some?))
      && (o.reply && k in db.items && k + "_price" in body ==>
            Some(o.db.items[k].priceCents) == priceOf(body[k + "_price"]))
      && (k in db.items && k + "_quantity" !in body ==> o.db.items[k].quantity == db.items[k].quantity)
      && (k in db.items && k + "_price" !in body ==> o.db.items[k].priceCents == db.items[k].priceCents)
      && (k in db.items ==>
            o.db.items[k].name == db.items[k].name && o.db.items[k].emoji == db.items[k].emoji
            && o.db.items[k].max == db.items[k].max)
  {
    var o := StockPatch(db, body, priceOf);
    if k in db.items && k + "_quantity" in body && ParseInt(body[k + "_quantity"]).None? {
      assert PatchedItem(k, db.items[k], body, priceOf).None?;
    }
  }

  /** Sending the same form twice leaves the stock as sending it once. */
  lemma {:induction false} StockPatchIdempotent(db: Db, body: map<string, string>,
                                                priceOf: string -> Option<int>)
    ensures StockPatch(StockPatch(db, body, priceOf).db, body, priceOf).db
         == StockPatch(db, body, priceOf).db
  {
    var o := StockPatch(db, body, priceOf);
    if o.reply {
      var items := o.db.items;
      forall k | k in items
        ensures PatchedItem(k, items[k], body, priceOf) == Some(items[k])
      {
        assert PatchedItem(k, db.items[k], body, priceOf).Some?;
      }
      assert PatchAccepted(items, body, priceOf);
      assert PatchItems(items, body, priceOf) == items;
    }
  }

  lemma StockPatchValid(db: Db, body: map<string, string>, priceOf: string -> Option<int>)
    requires Valid(db)
    ensures Valid(StockPatch(db, body, priceOf).db)
  {
    var o := StockPatch(db, body, priceOf);
    if o.reply {
      forall k | k in o.db.items ensures IsInt32(o.db.items[k].quantity) {
        assert PatchedItem(k, db.items[k], body, priceOf).Some?;
      }
    }
  }

  // ------------------------------------------------------------ seed

  /** The default stock, with the prices in cents. */
  const DefaultStock: map<string, Item> := map[
    "TOMATRIO" := Item("TOMATRIO", "\U{1F345}", 50, 202, 300),
    "MANGO" := Item("MANGO", "\U{1F96D}", 70, 260, 300),
    "MR_CARROT" := Item("MR CARROT", "\U{1F955}", 40, 74, 150),
    "PLANTA" := Item("PLANTA (100k ~ 500k DPS)", "\U{1F331}", 750, 12, 20)]

  /** `seedDatabase`: the defaults go in only when the stock table is empty. */
  function SeedDefaults(db: Db): (db': Db)
    ensures |db.items| == 0 ==> db'.items == DefaultStock
    ensures |db.items| != 0 ==> db' == db
    ensures db' == db.(items := db'.items)
  {
    if |db.items| == 0 then db.(items := DefaultStock) else db
  }

  /** A string of capital letters and underscores is a normal id. */
  lemma CapitalsAreNormal(s: string)
    requires forall i :: 0 <= i < |s| ==> 'A' <= s[i] <= 'Z' || s[i] == '_'
    ensures IsNormalId(s)
  {
  }

  /** Two normal words joined by a space normalise to the words joined by `_`. */
  lemma NormaliseTwoWords(a: string, b: string)
    requires IsNormalId(a) && IsNormalId(b)
    ensures NormaliseId(a + " " + b) == a + "_" + b
  {
    var s := a + " " + b;
    assert NoLower(s);
    UpperOfUpper(s);
    assert b == [] || !IsSpace(b[0]);
    CollapseRun(a, " ", b);
    CollapseWithoutSpace(b);
  }

  /** `MR_CARROT` is the normal form of its display name. */
  lemma MrCarrotIsNormalName()
    ensures NormaliseId("MR CARROT") == "MR_CARROT"
  {
    CapitalsAreNormal("MR");
    CapitalsAreNormal("CARROT");
    NormaliseTwoWords("MR", "CARROT");
    assert "MR" + " " + "CARROT" == "MR CARROT";
    assert "MR" + "_" + "CARROT" == "MR_CARROT";
  }

  /** The default ids are already in normal form, so a seeded database keeps the
      tables valid. */
  lemma SeedDefaultsValid(db: Db)
    requires Valid(db)
    ensures Valid(SeedDefaults(db))
  {
    if |db.items| == 0 {
      CapitalsAreNormal("TOMATRIO");
      CapitalsAreNormal("MANGO");
      CapitalsAreNormal("MR_CARROT");
      CapitalsAreNormal("PLANTA");
      assert forall k :: k in DefaultStock ==>
        IsNormalId(k) && IsInt32(DefaultStock[k].quantity) && IsInt32(DefaultStock[k].max);
      assert db.records == map[] && db.gifts == map[] && db.reviews == map[];
    }
  }
}
