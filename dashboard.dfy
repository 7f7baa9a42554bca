/** The owner dashboard's integer statistics (index.js:172-200): over the finished
    delivery records whose item still exists, the number of units sold, the number of
    sales and the units sold per item name. Revenue is left out (floating point). */
module Dashboard {
  import opened Wrappers
  import opened Schema
  import opened Text
  import opened JsNumbers
  import opened CustomId
  import opened Orders

  /** A record the dashboard's loop counts: its message was sent and its item exists. */
  predicate Counted(r: DeliveryRecord, items: map<string, Item>) {
    r.messageSent && r.itemId in items
  }

  /** `totalItemsSold`. */
  function Sold(ds: seq<DeliveryRecord>, items: map<string, Item>): (n: int)
    ensures Sales(ds, items) == 0 ==> n == 0
    decreases |ds|
  {
    if ds == [] then 0
    else
      var last := ds[|ds| - 1];
      Sold(ds[..|ds| - 1], items) + (if Counted(last, items) then last.quantity else 0)
  }

  /** `totalSales`: the records with an item, among those with `messageSent`. */
  function Sales(ds: seq<DeliveryRecord>, items: map<string, Item>): (n: nat)
    ensures n <= |ds|
    decreases |ds|
  {
    if ds == [] then 0
    else Sales(ds[..|ds| - 1], items) + (if Counted(ds[|ds| - 1], items) then 1 else 0)
  }

  /** `productsSold`: units per item name, a name appearing once it has a counted record. */
  function ByName(ds: seq<DeliveryRecord>, items: map<string, Item>): (m: map<string, int>)
    ensures Sales(ds, items) == 0 ==> m == map[]
    decreases |ds|
  {
    if ds == [] then map[]
    else
      var m := ByName(ds[..|ds| - 1], items);
      var last := ds[|ds| - 1];
      if Counted(last, items) then
        m[last.itemName := (if last.itemName in m then m[last.itemName] else 0) + last.quantity]
      else m
  }

  /** The units sold of one name, counted directly. */
  function SoldNamed(ds: seq<DeliveryRecord>, items: map<string, Item>, name: string): int
    decreases |ds|
  {
    if ds == [] then 0
    else
      var last := ds[|ds| - 1];
      SoldNamed(ds[..|ds| - 1], items, name)
        + (if Counted(last, items) && last.itemName == name then last.quantity else 0)
  }

  /** The per-name table holds, for every name, that name's units; its names are
      exactly those of the counted records. */
  lemma {:induction false} ByNameIsPerName(ds: seq<DeliveryRecord>, items: map<string, Item>, name: string)
    ensures (if name in ByName(ds, items) then ByName(ds, items)[name] else 0) == SoldNamed(ds, items, name)
    ensures name in ByName(ds, items) <==>
      exists i :: 0 <= i < |ds| && Counted(ds[i], items) && ds[i].itemName == name
    decreases |ds|
  {
    if ds != [] {
      var init := ds[..|ds| - 1];
      ByNameIsPerName(init, items, name);
      if name in ByName(init, items) {
        var i :| 0 <= i < |init| && Counted(init[i], items) && init[i].itemName == name;
        assert ds[i] == init[i];
      }
      if exists i :: 0 <= i < |ds| && Counted(ds[i], items) && ds[i].itemName == name {
        var i :| 0 <= i < |ds| && Counted(ds[i], items) && ds[i].itemName == name;
        if i < |init| { assert init[i] == ds[i]; }
      }
    }
  }

  /** The statistics of two runs of records add up. */
  lemma {:induction false} StatsAppend(a: seq<DeliveryRecord>, b: seq<DeliveryRecord>, items: map<string, Item>)
    ensures Sold(a + b, items) == Sold(a, items) + Sold(b, items)
    ensures Sales(a + b, items) == Sales(a, items) + Sales(b, items)
    decreases |b|
  {
    if b != [] {
      var b' := b[..|b| - 1];
      assert (a + b)[..|a + b| - 1] == a + b';
      assert (a + b)[|a + b| - 1] == b[|b| - 1];
      StatsAppend(a, b', items);
    } else {
      assert a + b == a;
    }
  }

  /** A record that is not counted changes no statistic; a counted one adds its
      quantity and one sale. */
  lemma StatsOfOneMore(ds: seq<DeliveryRecord>, r: DeliveryRecord, items: map<string, Item>)
    ensures Sold(ds + [r], items) == Sold(ds, items) + (if Counted(r, items) then r.quantity else 0)
    ensures Sales(ds + [r], items) == Sales(ds, items) + (if Counted(r, items) then 1 else 0)
    ensures !Counted(r, items) ==> ByName(ds + [r], items) == ByName(ds, items)
    ensures Counted(r, items) ==>
      var m := ByName(ds, items);
      ByName(ds + [r], items) == m[r.itemName := (if r.itemName in m then m[r.itemName] else 0) + r.quantity]
  {
    assert (ds + [r])[..|ds|] == ds;
  }

  /** The records of ids `lo` to `hi - 1`, in id order, as `findMany` returns them. */
  function RecordsFrom(records: map<nat, DeliveryRecord>, lo: nat, hi: nat): seq<DeliveryRecord>
    decreases hi - lo
  {
    if hi <= lo then []
    else RecordsFrom(records, lo, hi - 1) + (if hi - 1 in records then [records[hi - 1]] else [])
  }

  /** The statistics over the whole table. */
  function TableRecords(db: Db): seq<DeliveryRecord> {
    RecordsFrom(db.records, 1, db.nextRecordId)
  }

  /** The listing only depends on the records in its range. */
  lemma {:induction false} RecordsFromOutside(records: map<nat, DeliveryRecord>, lo: nat, hi: nat, k: nat, r: DeliveryRecord)
    requires k >= hi
    ensures RecordsFrom(records[k := r], lo, hi) == RecordsFrom(records, lo, hi)
    decreases hi - lo
  {
    if hi > lo {
      RecordsFromOutside(records, lo, hi - 1, k, r);
    }
  }

  /** A new record is listed last. */
  lemma InsertListedLast(db: Db, r: DeliveryRecord)
    requires Valid(db)
    ensures TableRecords(Insert(db, r)) == TableRecords(db) + [r]
  {
    RecordsFromOutside(db.records, 1, db.nextRecordId, db.nextRecordId, r);
  }

  /** A purchase opens a pending record, which the dashboard does not count: every
      statistic stays as it was. */
  lemma PurchaseKeepsStats(db: Db, customId: string, quantityText: string, buyer: string,
                           channelCreated: bool)
    requires Valid(db)
    ensures var o := Purchase(db, customId, quantityText, buyer, channelCreated);
      && Sold(TableRecords(o.db), o.db.items) == Sold(TableRecords(db), db.items)
      && Sales(TableRecords(o.db), o.db.items) == Sales(TableRecords(db), db.items)
      && ByName(TableRecords(o.db), o.db.items) == ByName(TableRecords(db), db.items)
  {
    var o := Purchase(db, customId, quantityText, buyer, channelCreated);
    PurchaseRefusals(db, customId, quantityText, buyer, channelCreated);
    if o.reply.TicketOpened? {
      var itemId := ThirdSegment(customId).value;
      var db1 := db.(channels := db.channels + [TicketChannel(buyer)]);
      var r := PendingRecord(buyer, itemId, db.items[itemId].name,
                             ParseInt(quantityText).value, |db.channels|);
      assert o.db == Insert(db1, r);
      AddChannelValid(db, TicketChannel(buyer));
      InsertListedLast(db1, r);
      StatsOfOneMore(TableRecords(db), r, db.items);
    }
  }
}
