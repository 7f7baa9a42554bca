/** The delivery-record lifecycle: the handlers that create records (purchase, gift
    redemption, manual fallback, panel delivery), the review that finishes one, the
    buttons that look one up, and the guards the pages and timers run. Chat actions
    appear only as an appended `Channel` and as a flag saying whether creating the
    channel succeeded. */
module Orders {
  import opened Wrappers
  import opened Text
  import opened JsNumbers
  import opened Schema
  import opened CustomId
  import opened GiftCodes
  import opened Display

  // ------------------------------------------------------------ purchase

  datatype PurchaseReply =
    | TicketOpened(recordId: nat, channel: nat)
    | ItemNotFound
    | InvalidQuantity
    | ExceedsStock(available: int)
    | ChannelFailed
    | RecordFailed

  /** The pending record a purchase or a redemption writes. */
  function PendingRecord(buyer: string, itemId: string, itemName: string, quantity: int,
                         channel: nat): DeliveryRecord
  {
    DeliveryRecord(Some(buyer), itemId, itemName, quantity, false, StatusPending, Some(channel), None)
  }

  /** The quantity modal (index.js:1314-1369). The item id is the third `_` piece of
      the modal's custom id and the quantity `parseInt` of the typed text. After the
      checks the ticket channel is created, then the record; a quantity the 32-bit
      column refuses leaves the channel without a record. */
  function Purchase(db: Db, customId: string, quantityText: string, buyer: string,
                    channelCreated: bool): (o: Outcome<PurchaseReply>)
    ensures o.db.items == db.items && o.db.coupons == db.coupons && o.db.gifts == db.gifts
  {
    var itemId := ThirdSegment(customId);
    var quantity := ParseInt(quantityText);
    if itemId.None? || itemId.value !in db.items then Outcome(db, ItemNotFound)
    else
      var item := db.items[itemId.value];
      if quantity.None? || quantity.value <= 0 then Outcome(db, InvalidQuantity)
      else if quantity.value > item.quantity then Outcome(db, ExceedsStock(item.quantity))
      else if !channelCreated then Outcome(db, ChannelFailed)
      else
        var ch := |db.channels|;
        var db1 := db.(channels := db.channels + [TicketChannel(buyer)]);
        if !IsInt32(quantity.value) then Outcome(db1, RecordFailed)
        else
          Outcome(Insert(db1, PendingRecord(buyer, itemId.value, item.name, quantity.value, ch)),
                  TicketOpened(db.nextRecordId, ch))
  }

  /** Which purchases are refused, and that a refusal changes nothing. Against valid
      tables the record write never fails: an accepted quantity is at most the stock,
      which fits the column. */
  lemma PurchaseRefusals(db: Db, customId: string, quantityText: string, buyer: string,
                         channelCreated: bool)
    ensures var o := Purchase(db, customId, quantityText, buyer, channelCreated);
      var itemId := ThirdSegment(customId);
      var q := ParseInt(quantityText);
      && (o.reply.ItemNotFound? <==> itemId.None? || itemId.value !in db.items)
      && (o.reply.InvalidQuantity? <==>
            itemId.Some? && itemId.value in db.items && (q.None? || q.value <= 0))
      && (o.reply.ExceedsStock? <==>
            itemId.Some? && itemId.value in db.items && q.Some? && q.value > 0
            && q.value > db.items[itemId.value].quantity)
      && (o.reply.ChannelFailed? <==>
            itemId.Some? && itemId.value in db.items && q.Some?
            && 0 < q.value <= db.items[itemId.value].quantity && !channelCreated)
      && (Valid(db) ==> !o.reply.RecordFailed?)
      && (!o.reply.TicketOpened? && !o.reply.RecordFailed? ==> o.db == db)
      && (!o.reply.TicketOpened? ==> o.db.records == db.records)
  {
    var o := Purchase(db, customId, quantityText, buyer, channelCreated);
    var itemId := ThirdSegment(customId);
    var q := ParseInt(quantityText);
    if itemId.None? || itemId.value !in db.items {
      assert o == Outcome(db, ItemNotFound);
    } else if q.None? || q.value <= 0 {
      assert o == Outcome(db, InvalidQuantity);
    } else if q.value > db.items[itemId.value].quantity {
      assert o.reply.ExceedsStock? && o.db == db;
    } else if !channelCreated {
      assert o == Outcome(db, ChannelFailed);
    } else {
      assert o.reply.TicketOpened? || o.reply.RecordFailed?;
      if Valid(db) {
        assert IsInt32(db.items[itemId.value].quantity);
        assert o.reply.TicketOpened?;
      }
    }
  }

  /** A success adds exactly one pending record with the asked quantity and the item's
      name, opens one ticket channel, leaves the stock untouched and keeps the tables
      valid. */
  lemma PurchaseRules(db: Db, customId: string, quantityText: string, buyer: string,
                      channelCreated: bool)
    requires Valid(db)
    ensures var o := Purchase(db, customId, quantityText, buyer, channelCreated);
      var itemId := ThirdSegment(customId);
      var q := ParseInt(quantityText);
      && (!o.reply.TicketOpened? ==> o.db == db)
      && (o.reply.TicketOpened? ==>
            var id := o.reply.recordId;
            && id == db.nextRecordId && id !in db.records
            && o.db.records == db.records[id := o.db.records[id]]
            && |o.db.records| == |db.records| + 1
            && o.db.records[id] == PendingRecord(buyer, itemId.value, db.items[itemId.value].name,
                                                 q.value, |db.channels|)
            && 0 < q.value <= db.items[itemId.value].quantity
            && o.db.items == db.items && o.db.coupons == db.coupons && o.db.gifts == db.gifts
            && o.db.reviews == db.reviews
            && o.db.channels == db.channels + [TicketChannel(buyer)])
      && Valid(o.db)
  {
    PurchaseRefusals(db, customId, quantityText, buyer, channelCreated);
    var o := Purchase(db, customId, quantityText, buyer, channelCreated);
    if o.reply.TicketOpened? {
      var db1 := db.(channels := db.channels + [TicketChannel(buyer)]);
      var r := PendingRecord(buyer, ThirdSegment(customId).value,
                             db.items[ThirdSegment(customId).value].name,
                             ParseInt(quantityText).value, |db.channels|);
      AddChannelValid(db, TicketChannel(buyer));
      InsertValid(db1, r);
      assert o.db == Insert(db1, r);
    }
  }

  /** A purchase keeps the tables valid. */
  lemma PurchaseValid(db: Db, customId: string, quantityText: string, buyer: string,
                      channelCreated: bool)
    requires Valid(db)
    ensures Valid(Purchase(db, customId, quantityText, buyer, channelCreated).db)
  {
    PurchaseRules(db, customId, quantityText, buyer, channelCreated);
  }

  // ------------------------------------------------------------ gifts

  datatype RedeemReply = Redeemed(recordId: nat, channel: nat) | InvalidGift | RedeemChannelFailed | RedeemFailed

  /** The redemption modal (index.js:1862-1913): the typed code is upper-cased; a
      missing or spent code is refused; otherwise the code is marked as redeemed by the
      user first, and only then are the ticket channel and a one-unit pending record
      created. */
  function RedeemGift(db: Db, typed: string, user: string, channelCreated: bool): (o: Outcome<RedeemReply>)
    ensures o.db == db.(records := o.db.records, nextRecordId := o.db.nextRecordId,
                        channels := o.db.channels, gifts := o.db.gifts)
    ensures !o.reply.InvalidGift? ==>
      Upper(typed) in o.db.gifts && o.db.gifts[Upper(typed)].redeemedBy == Some(user)
  {
    var code := Upper(typed);
    if code !in db.gifts || db.gifts[code].isRedeemed then Outcome(db, InvalidGift)
    else
      var gift := db.gifts[code];
      var db1 := db.(gifts := db.gifts[code := gift.(isRedeemed := true, redeemedBy := Some(user))]);
      if gift.itemId !in db.items then Outcome(db1, RedeemFailed)
      else if !channelCreated then Outcome(db1, RedeemChannelFailed)
      else
        var ch := |db.channels|;
        var db2 := db1.(channels := db.channels + [TicketChannel(user)]);
        Outcome(Insert(db2, PendingRecord(user, gift.itemId, db.items[gift.itemId].name, 1, ch)),
                Redeemed(db.nextRecordId, ch))
  }

  /** A missing or spent code changes nothing; any other code is spent by this user,
      and a success adds exactly one pending record for one unit of the gift's item. */
  lemma RedeemGiftRules(db: Db, typed: string, user: string, channelCreated: bool)
    requires Valid(db)
    ensures var o := RedeemGift(db, typed, user, channelCreated);
      var code := Upper(typed);
      && (o.reply.InvalidGift? <==> code !in db.gifts || db.gifts[code].isRedeemed)
      && (o.reply.InvalidGift? ==> o.db == db)
      && !o.reply.RedeemFailed?
      && (o.reply.Redeemed? <==> !o.reply.InvalidGift? && channelCreated)
      && (o.reply.RedeemChannelFailed? <==> !o.reply.InvalidGift? && !channelCreated)
      && (!o.reply.InvalidGift? ==>
            o.db.gifts == db.gifts[code := Gift(db.gifts[code].itemId, true, Some(user))]
            && o.db.coupons == db.coupons && o.db.items == db.items)
      && (o.reply.RedeemChannelFailed? ==> o.db.records == db.records)
      && (o.reply.Redeemed? ==>
            var id := o.reply.recordId;
            && id == db.nextRecordId && id !in db.records
            && o.db.records == db.records[id := o.db.records[id]]
            && o.db.records[id] == PendingRecord(user, db.gifts[code].itemId,
                                                 db.items[db.gifts[code].itemId].name, 1, |db.channels|))
      && Valid(o.db)
  {
    var o := RedeemGift(db, typed, user, channelCreated);
    if o.reply.Redeemed? {
      var code := Upper(typed);
      var gift := db.gifts[code];
      var db1 := db.(gifts := db.gifts[code := gift.(isRedeemed := true, redeemedBy := Some(user))]);
      var db2 := db1.(channels := db.channels + [TicketChannel(user)]);
      assert Valid(db2);
      InsertValid(db2, PendingRecord(user, gift.itemId, db.items[gift.itemId].name, 1, |db.channels|));
    }
  }

  /** A code can be redeemed once: whatever the first attempt's outcome past the check,
      any later attempt with the same code in any letter case is refused and changes
      nothing. */
  lemma RedeemOnce(db: Db, typed: string, again: string, user: string, other: string,
                   c1: bool, c2: bool)
    requires EqualsIgnoreCase(typed, again)
    requires !RedeemGift(db, typed, user, c1).reply.InvalidGift?
    ensures var db1 := RedeemGift(db, typed, user, c1).db;
      RedeemGift(db1, again, other, c2) == Outcome(db1, InvalidGift)
  {
    UpperIgnoresCase(typed, again);
  }

  datatype GiftReply = GiftCreated(code: string) | GiftFailed

  /** The gift item menu (index.js:1846-1853): a new unredeemed code for the chosen item;
      the draw of four random bytes is the parameter `bytes`. An unknown item or a code that exists
      already makes the database write fail. */
  function CreateGift(db: Db, itemId: string, bytes: seq<Byte>): (o: Outcome<GiftReply>)
    requires |bytes| == 4
    ensures o.reply.GiftCreated? <==> itemId in db.items && GiftCode(bytes) !in db.gifts
    ensures o.reply.GiftCreated? ==> o.reply.code == GiftCode(bytes)
    ensures o.reply.GiftCreated? ==>
      && |o.reply.code| == 17 && CodePrefix <= o.reply.code && NoLower(o.reply.code)
      && o.reply.code !in db.gifts && itemId in db.items
      && o.db == db.(gifts := db.gifts[o.reply.code := Gift(itemId, false, None)])
    ensures o.reply.GiftFailed? ==> o.db == db
  {
    var code := GiftCode(bytes);
    if itemId !in db.items || code in db.gifts then Outcome(db, GiftFailed)
    else Outcome(db.(gifts := db.gifts[code := Gift(itemId, false, None)]), GiftCreated(code))
  }

  /** A created code is unredeemed and is found by a redemption however its letters are
      typed; creation keeps the tables valid. */
  lemma CreateThenRedeem(db: Db, itemId: string, bytes: seq<Byte>, typed: string, user: string,
                         channelCreated: bool)
    requires Valid(db) && |bytes| == 4
    requires CreateGift(db, itemId, bytes).reply.GiftCreated?
    requires EqualsIgnoreCase(typed, GiftCode(bytes))
    ensures var o := CreateGift(db, itemId, bytes);
      && Valid(o.db)
      && o.db.gifts == db.gifts[GiftCode(bytes) := Gift(itemId, false, None)]
      && RedeemGift(o.db, typed, user, channelCreated).reply.Redeemed? == channelCreated
  {
    TypedInAnyCase(typed, GiftCode(bytes));
    var o := CreateGift(db, itemId, bytes);
    assert Valid(o.db);
    RedeemGiftRules(o.db, typed, user, channelCreated);
  }

  // ------------------------------------------------------------ manual records

  datatype ManualReply = ManualCreated(recordId: nat) | ManualFailed

  /** The manual-delivery menu (index.js:1543-1561): the buyer is the third `_` piece
      of the menu's custom id; the record has quantity 1 and no ticket channel. An
      unknown item fails when its name is read. */
  function ManualFallback(db: Db, customId: string, itemId: string): (o: Outcome<ManualReply>)
    ensures o.db == db.(records := o.db.records, nextRecordId := o.db.nextRecordId)
    ensures o.reply.ManualCreated? ==>
      o.reply.recordId in o.db.records && o.db.records[o.reply.recordId].quantity == 1
      && !o.db.records[o.reply.recordId].messageSent
  {
    if itemId !in db.items then Outcome(db, ManualFailed)
    else
      var r := DeliveryRecord(ThirdSegment(customId), itemId, db.items[itemId].name, 1,
                              false, StatusPending, None, None);
      Outcome(Insert(db, r), ManualCreated(db.nextRecordId))
  }

  lemma ManualFallbackRules(db: Db, buyer: string, itemId: string)
    requires Valid(db) && IsUserId(buyer)
    ensures var o := ManualFallback(db, "manual_delivery_" + buyer, itemId);
      && (o.reply.ManualFailed? <==> itemId !in db.items)
      && (o.reply.ManualFailed? ==> o.db == db)
      && (o.reply.ManualCreated? ==>
            o.reply.recordId !in db.records
            && o.db.records == db.records[o.reply.recordId := DeliveryRecord(Some(buyer), itemId,
                 db.items[itemId].name, 1, false, StatusPending, None, None)])
      && Valid(o.db)
  {
    assert '_' !in buyer by { assert forall i :: 0 <= i < |buyer| ==> IsDigit(buyer[i]); }
    SplitWhole(buyer, '_');
    assert "manual_delivery_" + buyer == "manual" + "_" + "delivery" + "_" + buyer;
    ThirdSegmentAfterTwoWords("manual", "delivery", buyer);
    if itemId in db.items {
      InsertValid(db, DeliveryRecord(Some(buyer), itemId, db.items[itemId].name, 1,
                                     false, StatusPending, None, None));
    }
  }

  datatype DeliverReply = Delivered(recordId: nat, content: string)
    | NotConfigured | MissingItem | UnknownItem | DeliverFailed

  /** The panel's `/deliver` (index.js:359-420): the quantity is `Number(quantity) || 1`,
      the message goes out with the mention formatted by `MentionContent`, and the
      record is written finished (200) when the message was sent, failed (500) when not.
      `mention` is the form text, the empty string when absent. */
  function RecordDelivery(db: Db, channelConfigured: bool, mention: string, itemId: string,
                          quantity: Option<int>, sent: bool): (o: Outcome<DeliverReply>)
    ensures o.db == db.(records := o.db.records, nextRecordId := o.db.nextRecordId)
    ensures o.reply.Delivered? <==>
      channelConfigured && itemId != [] && itemId in db.items && IsInt32(OrDefault(quantity, 1))
    ensures o.reply.Delivered? ==>
      o.reply.recordId in o.db.records && o.db.records[o.reply.recordId].messageSent == sent
  {
    if !channelConfigured then Outcome(db, NotConfigured)
    else if itemId == [] then Outcome(db, MissingItem)
    else if itemId !in db.items then Outcome(db, UnknownItem)
    else
      var qty := OrDefault(quantity, 1);
      var m := if mention == [] then None else Some(mention);
      if !IsInt32(qty) then Outcome(db, DeliverFailed)
      else
        var r := DeliveryRecord(m, itemId, db.items[itemId].name, qty, sent,
                                if sent then StatusDone else StatusFailed, None, None);
        Outcome(Insert(db, r), Delivered(db.nextRecordId, MentionContent(m)))
  }

  /** A panel delivery never leaves a pending record: it is finished or failed at once,
      and a bare user id is sent as a mention. */
  lemma RecordDeliveryRules(db: Db, channelConfigured: bool, mention: string, itemId: string,
                            quantity: Option<int>, sent: bool)
    requires Valid(db)
    ensures var o := RecordDelivery(db, channelConfigured, mention, itemId, quantity, sent);
      && (o.reply.NotConfigured? <==> !channelConfigured)
      && (o.reply.MissingItem? <==> channelConfigured && itemId == [])
      && (o.reply.UnknownItem? <==> channelConfigured && itemId != [] && itemId !in db.items)
      && (!o.reply.Delivered? ==> o.db == db)
      && (o.reply.Delivered? ==>
            var r := o.db.records[o.reply.recordId];
            && o.reply.recordId == db.nextRecordId && o.reply.recordId !in db.records
            && o.db.records == db.records[o.reply.recordId :=
                 DeliveryRecord(if mention == [] then None else Some(mention), itemId,
                                db.items[itemId].name, OrDefault(quantity, 1), sent,
                                if sent then StatusDone else StatusFailed, None, None)]
            && o.reply.content == MentionContent(if mention == [] then None else Some(mention))
            && r.messageSent == sent && r.messageStatus != StatusPending
            && (sent <==> r.messageStatus == StatusDone)
            && r.quantity == (if quantity.None? || quantity == Some(0) then 1 else quantity.value)
            && (IsUserId(mention) ==> o.reply.content == "<@" + mention + ">"))
      && Valid(o.db)
  {
    var o := RecordDelivery(db, channelConfigured, mention, itemId, quantity, sent);
    if o.reply.Delivered? {
      var m := if mention == [] then None else Some(mention);
      InsertValid(db, DeliveryRecord(m, itemId, db.items[itemId].name, OrDefault(quantity, 1), sent,
                                     if sent then StatusDone else StatusFailed, None, None));
    }
  }

  // ------------------------------------------------------------ lookups by button

  datatype ConfirmReply = NotOwner | LookupFailed | RecordMissing | RecordFound(recordId: nat)

  /** A button that reads a record id from its custom id: the owner's "order delivered"
      button (index.js:1465-1474), where a missing record starts the manual fallback, and
      the delivery channel's "delivery done" button (index.js:1590-1600). */
  function ConfirmButton(db: Db, customId: string, isOwner: bool): (r: ConfirmReply)
    ensures r.NotOwner? <==> !isOwner
    ensures r.RecordFound? ==> r.recordId in db.records
  {
    if !isOwner then NotOwner
    else
      var seg := ThirdSegment(customId);
      var id := if seg.None? then None else LookupId(ParseInt(seg.value));
      if id.None? then LookupFailed
      else if id.value < 0 || id.value !in db.records then RecordMissing
      else RecordFound(id.value)
  }

  /** The ticket's button finds its record. */
  lemma ConfirmDeliveryFinds(db: Db, n: nat)
    requires n in db.records && IsInt32(n)
    ensures ConfirmButton(db, "confirm_delivery_" + NatToString(n), true) == RecordFound(n)
  {
    RecordIdButtonsDecode(n);
  }

  /** The delivery channel's button reads the word `delivery` as its id, so the lookup
      always fails and no review is ever requested from it. */
  lemma AdminConfirmNeverFinds(db: Db, n: nat)
    ensures ConfirmButton(db, "admin_confirm_delivery_" + NatToString(n), true) == LookupFailed
  {
    AdminConfirmDecodesWord(n);
  }

  /** The corrected button reads everything after its own prefix. */
  function AdminConfirmButtonCorrected(db: Db, customId: string, isOwner: bool): (r: ConfirmReply)
    ensures r.RecordFound? ==> r.recordId in db.records
  {
    if !isOwner then NotOwner
    else
      var arg := AfterPrefix("admin_confirm_delivery_", customId);
      var id := if arg.None? then None else LookupId(ParseInt(arg.value));
      if id.None? then LookupFailed
      else if id.value < 0 || id.value !in db.records then RecordMissing
      else RecordFound(id.value)
  }

  lemma AdminConfirmButtonCorrectedFinds(db: Db, n: nat)
    requires n in db.records && IsInt32(n)
    ensures AdminConfirmButtonCorrected(db, "admin_confirm_delivery_" + NatToString(n), true) == RecordFound(n)
  {
    CustomId.AdminConfirmCorrected(n);
  }

  // ------------------------------------------------------------ review

  datatype ReviewReply = ReviewSaved(stars: Option<string>) | ReviewLookupFailed | ReviewRefused
    | ReviewWriteFailed

  /** `/submit-review/:id` (index.js:468-509). Refused when the record is missing or
      already reviewed. Otherwise the record is marked finished first and the review
      written second, so a rating the column refuses leaves a finished record without a
      review. The star bar of the announcement is what `Stars` gives for the rating. */
  function SubmitReview(db: Db, idText: string, ratingText: string, text: string): (o: Outcome<ReviewReply>)
    ensures o.db == db.(records := o.db.records, reviews := o.db.reviews)
    ensures o.db.records.Keys == db.records.Keys && db.reviews.Keys <= o.db.reviews.Keys
    ensures ReviewPageAllowed(db, idText) ==>
      (o.reply.ReviewSaved? <==> LookupId(ParseInt(ratingText)).Some?)
      && (o.reply.ReviewWriteFailed? <==> LookupId(ParseInt(ratingText)).None?)
  {
    var id := LookupId(ParseInt(idText));
    if id.None? then Outcome(db, ReviewLookupFailed)
    else if id.value < 0 || id.value !in db.records || id.value in db.reviews then Outcome(db, ReviewRefused)
    else
      var k: nat := id.value;
      var r := db.records[k];
      var db1 := db.(records := db.records[k := r.(messageSent := true, messageStatus := StatusDone)]);
      var rating := LookupId(ParseInt(ratingText));
      if rating.None? then Outcome(db1, ReviewWriteFailed)
      else Outcome(db1.(reviews := db.reviews[k := Review(rating.value, text)]),
                   ReviewSaved(Stars(rating.value)))
  }

  /** The review page (index.js:456): shown only for an existing record without a
      review. */
  predicate ReviewPageAllowed(db: Db, idText: string)
    ensures ReviewPageAllowed(db, idText) ==>
      ParseInt(idText).Some? && 0 <= ParseInt(idText).value && IsInt32(ParseInt(idText).value)
  {
    var id := LookupId(ParseInt(idText));
    id.Some? && id.value >= 0 && id.value in db.records && id.value !in db.reviews
  }

  /** Finishing a record keeps the tables valid. */
  lemma FinishValid(db: Db, k: nat)
    requires Valid(db) && k in db.records
    ensures Valid(db.(records := db.records[k := db.records[k].(messageSent := true, messageStatus := StatusDone)]))
  {
  }

  /** A review for a finished record keeps the tables valid. */
  lemma AddReviewValid(db: Db, k: nat, rv: Review)
    requires Valid(db) && k in db.records && db.records[k].messageSent
    requires db.records[k].messageStatus == StatusDone
    ensures Valid(db.(reviews := db.reviews[k := rv]))
  {
  }

  /** The review page and the submission refuse the same requests, and refusals change
      nothing; a request the page accepts is saved exactly when the rating fits the
      column, and otherwise fails at the review write. */
  lemma SubmitReviewRefusals(db: Db, idText: string, ratingText: string, text: string)
    ensures var o := SubmitReview(db, idText, ratingText, text);
      && ((o.reply.ReviewRefused? || o.reply.ReviewLookupFailed?) <==> !ReviewPageAllowed(db, idText))
      && ((o.reply.ReviewRefused? || o.reply.ReviewLookupFailed?) ==> o.db == db)
      && (o.reply.ReviewSaved? <==>
            ReviewPageAllowed(db, idText) && LookupId(ParseInt(ratingText)).Some?)
      && (o.reply.ReviewWriteFailed? <==>
            ReviewPageAllowed(db, idText) && LookupId(ParseInt(ratingText)).None?)
  {
  }

  /** A saved review finishes the record, attaches exactly one review and changes no
      other record; a rating the column refuses still finishes the record but adds no
      review. Either way the tables stay valid. */
  lemma SubmitReviewRules(db: Db, idText: string, ratingText: string, text: string)
    requires Valid(db)
    ensures var o := SubmitReview(db, idText, ratingText, text);
      && (o.reply.ReviewSaved? ==>
            var k := ParseInt(idText).value;
            && k >= 0 && k in db.records && k !in db.reviews
            && o.db.records == db.records[k := db.records[k].(messageSent := true, messageStatus := StatusDone)]
            && o.db.reviews == db.reviews[k := Review(ParseInt(ratingText).value, text)]
            && |o.db.reviews| == |db.reviews| + 1
            && o.db.items == db.items && o.db.coupons == db.coupons && o.db.gifts == db.gifts
            && o.db.channels == db.channels
            && (o.reply.stars.Some? <==> 0 <= ParseInt(ratingText).value <= 5))
      && (o.reply.ReviewWriteFailed? ==>
            var k := ParseInt(idText).value;
            k >= 0 && k in db.records && o.db.reviews == db.reviews
            && o.db.records[k].messageSent)
      && Valid(o.db)
  {
    SubmitReviewValid(db, idText, ratingText, text);
    ReviewSavedRules(db, idText, ratingText, text);
    ReviewFailedRules(db, idText, ratingText, text);
  }

  /** The failed-write case of `SubmitReviewRules`: the record is already marked sent. */
  lemma ReviewFailedRules(db: Db, idText: string, ratingText: string, text: string)
    ensures var o := SubmitReview(db, idText, ratingText, text);
      o.reply.ReviewWriteFailed? ==>
        var k := ParseInt(idText).value;
        k >= 0 && k in db.records && o.db.reviews == db.reviews
        && o.db.records[k].messageSent
  {
    var id := LookupId(ParseInt(idText));
    var o := SubmitReview(db, idText, ratingText, text);
    if o.reply.ReviewWriteFailed? {
      var k: nat := id.value;
      var r := db.records[k];
      assert o.db == db.(records := db.records[k := r.(messageSent := true, messageStatus := StatusDone)]);
    }
  }

  /** The saved case of `SubmitReviewRules`. */
  lemma ReviewSavedRules(db: Db, idText: string, ratingText: string, text: string)
    ensures var o := SubmitReview(db, idText, ratingText, text);
      o.reply.ReviewSaved? ==>
        var k := ParseInt(idText).value;
        && k >= 0 && k in db.records && k !in db.reviews
        && o.db.records == db.records[k := db.records[k].(messageSent := true, messageStatus := StatusDone)]
        && o.db.reviews == db.reviews[k := Review(ParseInt(ratingText).value, text)]
        && |o.db.reviews| == |db.reviews| + 1
        && o.db.items == db.items && o.db.coupons == db.coupons && o.db.gifts == db.gifts
        && o.db.channels == db.channels
        && (o.reply.stars.Some? <==> 0 <= ParseInt(ratingText).value <= 5)
  {
    var id := LookupId(ParseInt(idText));
    var rating := LookupId(ParseInt(ratingText));
    if id.Some? && id.value >= 0 && id.value in db.records && id.value !in db.reviews && rating.Some? {
      var k: nat := id.value;
      var r := db.records[k];
      var db1 := db.(records := db.records[k := r.(messageSent := true, messageStatus := StatusDone)]);
      assert SubmitReview(db, idText, ratingText, text)
          == Outcome(db1.(reviews := db.reviews[k := Review(rating.value, text)]),
                     ReviewSaved(Stars(rating.value)));
    }
  }

  /** A submission keeps the tables valid. */
  lemma SubmitReviewValid(db: Db, idText: string, ratingText: string, text: string)
    requires Valid(db)
    ensures Valid(SubmitReview(db, idText, ratingText, text).db)
  {
    var id := LookupId(ParseInt(idText));
    if id.Some? && id.value >= 0 && id.value in db.records && id.value !in db.reviews {
      var k: nat := id.value;
      var db1 := db.(records := db.records[k := db.records[k].(messageSent := true, messageStatus := StatusDone)]);
      FinishValid(db, k);
      var rating := LookupId(ParseInt(ratingText));
      if rating.Some? {
        AddReviewValid(db1, k, Review(rating.value, text));
      }
    }
  }

  /** A second submission for a reviewed record is refused and the first review stays
      as it was. */
  lemma SecondReviewRefused(db: Db, idText: string, r1: string, t1: string, r2: string, t2: string)
    requires SubmitReview(db, idText, r1, t1).reply.ReviewSaved?
    ensures var db1 := SubmitReview(db, idText, r1, t1).db;
      SubmitReview(db1, idText, r2, t2) == Outcome(db1, ReviewRefused)
      && !ReviewPageAllowed(db1, idText)
  {
  }

  // ------------------------------------------------------------ proof page and timers

  /** The proof-upload page (index.js:529): shown only while the record exists and has
      not been finished. Its id is read by `parseInt` without a radix. */
  predicate ProofPageAllowed(db: Db, idText: string)
    ensures ProofPageAllowed(db, idText) ==>
      ParseIntAutoRadix(idText).Some? && 0 <= ParseIntAutoRadix(idText).value
      && PaymentTimeoutFires(db, ParseIntAutoRadix(idText).value)
  {
    var id := LookupId(ParseIntAutoRadix(idText));
    id.Some? && id.value >= 0 && id.value in db.records && !db.records[id.value].messageSent
  }

  /** The guard the payment timer runs when it fires (index.js:1407-1416). */
  predicate PaymentTimeoutFires(db: Db, recordId: nat)
    ensures PaymentTimeoutFires(db, recordId) ==> recordId in db.records
  {
    recordId in db.records && !db.records[recordId].messageSent
  }

  /** The guard the review timer runs when it fires (index.js:1627-1640); the timer is
      set without a delay. */
  predicate ReviewTimeoutFires(db: Db, recordId: nat)
    ensures ReviewTimeoutFires(db, recordId) <==> PaymentTimeoutFires(db, recordId)
  {
    recordId in db.records && !db.records[recordId].messageSent
  }

  /** A finished record closes the proof page and disarms both timers. */
  lemma ReviewDisarmsGuards(db: Db, idText: string, ratingText: string, text: string)
    requires Valid(db)
    requires SubmitReview(db, idText, ratingText, text).reply.ReviewSaved?
    ensures var o := SubmitReview(db, idText, ratingText, text);
      var k := ParseInt(idText).value;
      && k >= 0
      && !PaymentTimeoutFires(o.db, k) && !ReviewTimeoutFires(o.db, k)
      && !ProofPageAllowed(o.db, NatToString(k))
  {
    SubmitReviewRules(db, idText, ratingText, text);
    var k: nat := ParseInt(idText).value;
    AutoRadixOfNat(k);
  }

  /** A fresh purchase arms both timers: its record is pending. */
  lemma PurchaseArmsGuards(db: Db, customId: string, quantityText: string, buyer: string)
    requires Valid(db)
    requires Purchase(db, customId, quantityText, buyer, true).reply.TicketOpened?
    ensures var p := Purchase(db, customId, quantityText, buyer, true);
      PaymentTimeoutFires(p.db, p.reply.recordId) && ReviewTimeoutFires(p.db, p.reply.recordId)
  {
    PurchaseRules(db, customId, quantityText, buyer, true);
  }

  /** The two pages read ids differently: `0x1A` opens the proof page of record 26
      while the review page reads it as record 0. */
  lemma PagesReadIdsDifferently(db: Db)
    ensures ProofPageAllowed(db, "0x1A") <==> 26 in db.records && !db.records[26].messageSent
    ensures ReviewPageAllowed(db, "0x1A") <==> 0 in db.records && 0 !in db.reviews
  {
    RadixReadingsDiffer();
    assert LookupId(ParseIntAutoRadix("0x1A")) == Some(26);
    assert LookupId(ParseInt("0x1A")) == Some(0);
  }
}
