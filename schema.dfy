/** The database tables the bot works on (the Prisma models `StockItem`, `DeliveryRecord`,
    `Review`, `Coupon`, `GiftCode`) and the chat channels it creates, as one value. Every
    handler of the model is a function from one `Db` to the next. */
module Schema {
  import opened Wrappers
  import opened Text
  import opened JsNumbers

  /** A stock item; the price is kept in whole cents. */
  datatype Item = Item(name: string, emoji: string, priceCents: int, quantity: int, max: int)

  /** A delivery record. There is no status field: `messageSent` and `messageStatus`
      (102 while pending, 200 once finished, 500 for a panel delivery whose message
      failed) together with the presence of a review encode the whole lifecycle.
      Channel ids are positions in `Db.channels`. */
  datatype DeliveryRecord = DeliveryRecord(
    mention: Option<string>,
    itemId: string,
    itemName: string,
    quantity: int,
    messageSent: bool,
    messageStatus: int,
    ticketChannelId: Option<nat>,
    deliveryChannelId: Option<nat>)

  const StatusPending: int := 102
  const StatusDone: int := 200
  const StatusFailed: int := 500

  datatype Review = Review(rating: int, text: string)

  /** A coupon, keyed by its code in `Db.coupons`. */
  datatype Coupon = Coupon(discountPercentage: real, usesLeft: int, isActive: bool)

  /** A gift code, keyed by its code in `Db.gifts`. */
  datatype Gift = Gift(itemId: string, isRedeemed: bool, redeemedBy: Option<string>)

  /** A row of the warnings table. */
  datatype Warning = Warning(userId: string, moderatorId: string, reason: string)

  /** A channel the bot created: a buyer's ticket or a record's delivery channel. */
  datatype Channel = TicketChannel(buyer: string) | DeliveryChannel(recordId: nat)

  /** All tables. Records are keyed by their auto-incremented id, reviews by the id of
      the record they belong to (one review per record). */
  datatype Db = Db(
    items: map<string, Item>,
    records: map<nat, DeliveryRecord>,
    nextRecordId: nat,
    reviews: map<nat, Review>,
    coupons: map<string, Coupon>,
    gifts: map<string, Gift>,
    channels: seq<Channel>,
    warnings: seq<Warning>)

  /** The state after a handler together with what it answered. */
  datatype Outcome<R> = Outcome(db: Db, reply: R)

  const EmptyDb := Db(map[], map[], 1, map[], map[], map[], [], [])

  predicate ChannelRef(c: Option<nat>, channels: seq<Channel>) {
    c.Some? ==> c.value < |channels|
  }

  /** A stock id in the form `/add-fruit` gives it: upper case, no whitespace. */
  predicate IsNormalId(id: string) {
    NoLower(id) && forall i :: 0 <= i < |id| ==> !IsSpace(id[i])
  }

  /** What the schema and the handlers keep true of the tables. */
  predicate Valid(db: Db) {
    db.nextRecordId >= 1
    && (forall id :: id in db.records ==> 1 <= id < db.nextRecordId)
    && (forall id :: id in db.records ==> db.records[id].itemId in db.items)
    && (forall id :: id in db.records ==>
          ChannelRef(db.records[id].ticketChannelId, db.channels)
          && ChannelRef(db.records[id].deliveryChannelId, db.channels))
    && (forall id :: id in db.reviews ==>
          id in db.records && db.records[id].messageSent
          && db.records[id].messageStatus == StatusDone)
    && (forall k :: k in db.items ==>
          IsNormalId(k) && IsInt32(db.items[k].quantity) && IsInt32(db.items[k].max))
    && (forall c :: c in db.coupons ==> NoLower(c))
    && (forall g :: g in db.gifts ==>
          db.gifts[g].itemId in db.items
          && (db.gifts[g].isRedeemed <==> db.gifts[g].redeemedBy.Some?))
  }

  lemma EmptyDbValid()
    ensures Valid(EmptyDb)
  {
  }

  /** The id `findUnique` is given, from a `parseInt` result: NaN or a value outside the
      32-bit column makes the database refuse the query (`None`). */
  function LookupId(parsed: Option<int>): (id: Option<int>)
    ensures id.Some? <==> parsed.Some? && IsInt32(parsed.value)
    ensures id.Some? ==> id == parsed
  {
    if parsed.Some? && IsInt32(parsed.value) then parsed else None
  }

  /** Adds a record under the next id; the auto-increment moves past it. */
  function Insert(db: Db, r: DeliveryRecord): (db': Db)
    ensures db'.records == db.records[db.nextRecordId := r]
    ensures db'.nextRecordId == db.nextRecordId + 1
    ensures db'.items == db.items && db'.reviews == db.reviews && db'.coupons == db.coupons
    ensures db'.gifts == db.gifts && db'.channels == db.channels && db'.warnings == db.warnings
  {
    db.(records := db.records[db.nextRecordId := r], nextRecordId := db.nextRecordId + 1)
  }

  /** A new record keeps the tables valid when its item exists and its channels do. */
  lemma InsertValid(db: Db, r: DeliveryRecord)
    requires Valid(db)
    requires r.itemId in db.items
    requires ChannelRef(r.ticketChannelId, db.channels) && ChannelRef(r.deliveryChannelId, db.channels)
    ensures Valid(Insert(db, r))
    ensures db.nextRecordId !in db.records
  {
    var db' := Insert(db, r);
    assert forall id :: id in db'.reviews ==> id in db.records && id != db.nextRecordId;
  }

  /** A new channel keeps the tables valid. */
  lemma AddChannelValid(db: Db, c: Channel)
    requires Valid(db)
    ensures Valid(db.(channels := db.channels + [c]))
  {
  }
}
