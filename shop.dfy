/** The tables as the running bot holds them: one object whose fields are the Prisma
    tables, with one method per handler. Each method does the handler's reads and
    writes in the handler's order and is proved to leave the tables as the
    corresponding transition function says, so every lemma about those functions holds
    of the object. */
module Shop {
  import opened Wrappers
  import opened Text
  import opened JsNumbers
  import opened Schema
  import opened CustomId
  import opened GiftCodes
  import opened Display
  import Inventory
  import StockEmbed
  import Orders
  import Payments
  import Coupons
  import Dashboard
  import Moderation

  class Store {
    var items: map<string, Item>
    var records: map<nat, DeliveryRecord>
    var nextRecordId: nat
    var reviews: map<nat, Review>
    var coupons: map<string, Coupon>
    var gifts: map<string, Gift>
    var channels: seq<Channel>
    var warnings: seq<Warning>

    function Tables(): Db
      reads this
    {
      Db(items, records, nextRecordId, reviews, coupons, gifts, channels, warnings)
    }

    predicate Valid()
      reads this
    {
      Schema.Valid(Tables())
    }

    /** An empty database. */
    constructor ()
      ensures Tables() == EmptyDb && Valid()
    {
      items, records, nextRecordId := map[], map[], 1;
      reviews, coupons, gifts := map[], map[], map[];
      channels, warnings := [], [];
    }

    /** `seedDatabase` at start-up. */
    method SeedDatabase()
      modifies this
      ensures Tables() == Inventory.SeedDefaults(old(Tables()))
      ensures old(Valid()) ==> Valid()
    {
      if Valid() {
        Inventory.SeedDefaultsValid(Tables());
      }
      if |items| == 0 {
        items := Inventory.DefaultStock;
      }
    }

    // -------------------------------------------------------------- inventory

    method AddFruit(id: string, name: string, emoji: string, price: Option<int>,
                    quantity: Option<int>, max: Option<int>)
      returns (reply: Inventory.AddReply)
      modifies this
      ensures var o := Inventory.AddItem(old(Tables()), id, name, emoji, price, quantity, max);
        Tables() == o.db && reply == o.reply
      ensures old(Valid()) ==> Valid()
    {
      if Valid() {
        Inventory.AddItemValid(Tables(), id, name, emoji, price, quantity, max);
      }
      if id == [] || name == [] {
        return Inventory.MissingField;
      }
      var k := Inventory.NormaliseId(id);
      if k in items {
        return Inventory.DuplicateId;
      }
      var it := Inventory.NewItem(name, emoji, price, quantity, max);
      if !IsInt32(it.quantity) || !IsInt32(it.max) {
        return Inventory.WriteFailed;
      }
      items := items[k := it];
      reply := Inventory.Added(k);
    }

    method DeleteItem(id: string) returns (reply: Inventory.DeleteReply)
      modifies this
      ensures var o := Inventory.DeleteItem(old(Tables()), id);
        Tables() == o.db && reply == o.reply
      ensures old(Valid()) ==> Valid()
    {
      Inventory.DeleteItemRules(Tables(), id);
      if id == [] {
        return Inventory.MissingId;
      }
      if Inventory.IsReferenced(Tables(), id) {
        return Inventory.Referenced;
      }
      if id !in items {
        return Inventory.DeleteFailed;
      }
      items := items - {id};
      reply := Inventory.Deleted;
    }

    /** `/update-stock`: the updates are collected item by item and committed together,
        or not at all when one of them is refused. */
    method UpdateStock(body: map<string, string>, priceOf: string -> Option<int>)
      returns (ok: bool)
      modifies this
      ensures var o := Inventory.StockPatch(old(Tables()), body, priceOf);
        Tables() == o.db && ok == o.reply
      ensures old(Valid()) ==> Valid()
    {
      if Valid() {
        Inventory.StockPatchValid(Tables(), body, priceOf);
      }
      var current := items;
      var todo := current.Keys;
      var patched: map<string, Item> := map[];
      while todo != {}
        invariant todo <= current.Keys
        invariant patched.Keys == current.Keys - todo
        invariant forall k :: k in patched ==>
          Inventory.PatchedItem(k, current[k], body, priceOf) == Some(patched[k])
        decreases |todo|
      {
        var k :| k in todo;
        var p := Inventory.PatchedItem(k, current[k], body, priceOf);
        if p.None? {
          assert !Inventory.PatchAccepted(current, body, priceOf);
          return false;
        }
        patched := patched[k := p.value];
        todo := todo - {k};
      }
      assert Inventory.PatchAccepted(current, body, priceOf);
      assert patched == Inventory.PatchItems(current, body, priceOf);
      items := patched;
      ok := true;
    }

    /** `fetchSelectedMessage`: one stock update per field of the price table, in
        field order, with the field matching `m`. `order` is the order the stock query
        returned the items in. */
    method SyncFromTable(m: StockEmbed.Matching, order: seq<string>, fields: seq<StockEmbed.Field>)
      modifies this
      ensures items == StockEmbed.Sync(m, old(items), order, fields)
      ensures Tables() == old(Tables()).(items := items)
      ensures old(Valid()) ==> Valid()
    {
      var i := 0;
      while i < |fields|
        invariant 0 <= i <= |fields|
        invariant StockEmbed.Sync(m, items, order, fields[i..])
               == StockEmbed.Sync(m, old(items), order, fields)
        invariant Tables() == old(Tables()).(items := items)
        invariant items.Keys == old(items).Keys
        invariant old(Valid()) ==> Valid()
      {
        assert fields[i..][1..] == fields[i + 1..];
        if Valid() {
          StockEmbed.SyncFieldValid(Tables(), m, order, fields[i]);
        }
        items := StockEmbed.SyncField(m, items, order, fields[i]);
        i := i + 1;
      }
    }

    // -------------------------------------------------------------- orders

    /** The quantity modal: checks, then the ticket channel, then the record. */
    method Purchase(customId: string, quantityText: string, buyer: string, channelCreated: bool)
      returns (reply: Orders.PurchaseReply)
      modifies this
      ensures var o := Orders.Purchase(old(Tables()), customId, quantityText, buyer, channelCreated);
        Tables() == o.db && reply == o.reply
      ensures old(Valid()) ==> Valid()
    {
      ghost var o := Orders.Purchase(Tables(), customId, quantityText, buyer, channelCreated);
      var itemId := ThirdSegment(customId);
      var quantity := ParseInt(quantityText);
      if itemId.None? || itemId.value !in items {
        reply := Orders.ItemNotFound;
      } else {
        var item := items[itemId.value];
        if quantity.None? || quantity.value <= 0 {
          reply := Orders.InvalidQuantity;
        } else if quantity.value > item.quantity {
          reply := Orders.ExceedsStock(item.quantity);
        } else if !channelCreated {
          reply := Orders.ChannelFailed;
        } else {
          reply := OpenTicket(buyer, itemId.value, item.name, quantity.value);
        }
      }
      assert Tables() == o.db;
      if old(Valid()) {
        Orders.PurchaseValid(old(Tables()), customId, quantityText, buyer, channelCreated);
      }
    }

    /** The tail of the quantity modal: the ticket channel, then the record, which the
        32-bit quantity column may refuse. */
    method OpenTicket(buyer: string, itemId: string, name: string, quantity: int)
      returns (reply: Orders.PurchaseReply)
      modifies this
      ensures var db1 := old(Tables()).(channels := old(channels) + [TicketChannel(buyer)]);
        var ch := |old(channels)|;
        if IsInt32(quantity) then
          Tables() == Insert(db1, Orders.PendingRecord(buyer, itemId, name, quantity, ch))
          && reply == Orders.TicketOpened(old(nextRecordId), ch)
        else Tables() == db1 && reply == Orders.RecordFailed
    {
      var ch := |channels|;
      channels := channels + [TicketChannel(buyer)];
      if !IsInt32(quantity) {
        reply := Orders.RecordFailed;
      } else {
        var id := nextRecordId;
        records := records[id := Orders.PendingRecord(buyer, itemId, name, quantity, ch)];
        nextRecordId := nextRecordId + 1;
        reply := Orders.TicketOpened(id, ch);
      }
    }

    /** The redemption modal: the code is spent first, then the channel and the record
        are created. */
    method RedeemGift(typed: string, user: string, channelCreated: bool)
      returns (reply: Orders.RedeemReply)
      modifies this
      ensures var o := Orders.RedeemGift(old(Tables()), typed, user, channelCreated);
        Tables() == o.db && reply == o.reply
      ensures old(Valid()) ==> Valid()
    {
      ghost var o := Orders.RedeemGift(Tables(), typed, user, channelCreated);
      var code := Upper(typed);
      if code !in gifts || gifts[code].isRedeemed {
        reply := Orders.InvalidGift;
      } else {
        var gift := gifts[code];
        gifts := gifts[code := gift.(isRedeemed := true, redeemedBy := Some(user))];
        if gift.itemId !in items {
          reply := Orders.RedeemFailed;
        } else if !channelCreated {
          reply := Orders.RedeemChannelFailed;
        } else {
          var ch := |channels|;
          channels := channels + [TicketChannel(user)];
          var id := nextRecordId;
          records := records[id := Orders.PendingRecord(user, gift.itemId, items[gift.itemId].name, 1, ch)];
          nextRecordId := nextRecordId + 1;
          reply := Orders.Redeemed(id, ch);
        }
      }
      assert Tables() == o.db;
      if old(Valid()) {
        Orders.RedeemGiftRules(old(Tables()), typed, user, channelCreated);
      }
    }

    method CreateGift(itemId: string, bytes: seq<Byte>) returns (reply: Orders.GiftReply)
      requires |bytes| == 4
      modifies this
      ensures var o := Orders.CreateGift(old(Tables()), itemId, bytes);
        Tables() == o.db && reply == o.reply
      ensures old(Valid()) ==> Valid()
    {
      var code := GiftCode(bytes);
      if itemId !in items || code in gifts {
        return Orders.GiftFailed;
      }
      gifts := gifts[code := Gift(itemId, false, None)];
      reply := Orders.GiftCreated(code);
    }

    method ManualFallback(customId: string, itemId: string) returns (reply: Orders.ManualReply)
      modifies this
      ensures var o := Orders.ManualFallback(old(Tables()), customId, itemId);
        Tables() == o.db && reply == o.reply
      ensures old(Valid()) ==> Valid()
    {
      if itemId !in items {
        return Orders.ManualFailed;
      }
      if Valid() {
        InsertValid(Tables(), DeliveryRecord(ThirdSegment(customId), itemId, items[itemId].name, 1,
                                             false, StatusPending, None, None));
      }
      var id := nextRecordId;
      records := records[id := DeliveryRecord(ThirdSegment(customId), itemId, items[itemId].name, 1,
                                              false, StatusPending, None, None)];
      nextRecordId := nextRecordId + 1;
      reply := Orders.ManualCreated(id);
    }

    method Deliver(channelConfigured: bool, mention: string, itemId: string,
                   quantity: Option<int>, sent: bool)
      returns (reply: Orders.DeliverReply)
      modifies this
      ensures var o := Orders.RecordDelivery(old(Tables()), channelConfigured, mention, itemId, quantity, sent);
        Tables() == o.db && reply == o.reply
      ensures old(Valid()) ==> Valid()
    {
      ghost var o := Orders.RecordDelivery(Tables(), channelConfigured, mention, itemId, quantity, sent);
      var qty := OrDefault(quantity, 1);
      var m := if mention == [] then None else Some(mention);
      if !channelConfigured {
        reply := Orders.NotConfigured;
      } else if itemId == [] {
        reply := Orders.MissingItem;
      } else if itemId !in items {
        reply := Orders.UnknownItem;
      } else if !IsInt32(qty) {
        reply := Orders.DeliverFailed;
      } else {
        var id := nextRecordId;
        records := records[id := DeliveryRecord(m, itemId, items[itemId].name, qty, sent,
                                                if sent then StatusDone else StatusFailed, None, None)];
        nextRecordId := nextRecordId + 1;
        reply := Orders.Delivered(id, MentionContent(m));
      }
      assert Tables() == o.db;
      if old(Valid()) {
        Orders.RecordDeliveryRules(old(Tables()), channelConfigured, mention, itemId, quantity, sent);
      }
    }

    /** `/submit-review`: the record is finished first, the review written second. */
    method SubmitReview(idText: string, ratingText: string, text: string)
      returns (reply: Orders.ReviewReply)
      modifies this
      ensures var o := Orders.SubmitReview(old(Tables()), idText, ratingText, text);
        Tables() == o.db && reply == o.reply
      ensures old(Valid()) ==> Valid()
    {
      ghost var o := Orders.SubmitReview(Tables(), idText, ratingText, text);
      var id := LookupId(ParseInt(idText));
      if id.None? {
        reply := Orders.ReviewLookupFailed;
      } else if id.value < 0 || id.value !in records || id.value in reviews {
        reply := Orders.ReviewRefused;
      } else {
        var k: nat := id.value;
        records := records[k := records[k].(messageSent := true, messageStatus := StatusDone)];
        var rating := LookupId(ParseInt(ratingText));
        if rating.None? {
          reply := Orders.ReviewWriteFailed;
        } else {
          reviews := reviews[k := Review(rating.value, text)];
          reply := Orders.ReviewSaved(Stars(rating.value));
        }
      }
      assert Tables() == o.db;
      if old(Valid()) {
        Orders.SubmitReviewValid(old(Tables()), idText, ratingText, text);
      }
    }

    // -------------------------------------------------------------- payments

    /** `handlePaidOrder`'s write: the new delivery channel's id on the record. */
    method HandlePaidOrder(k: nat, c: Payments.Chat) returns (reply: Payments.PaidReply)
      modifies this
      ensures var o := Payments.HandlePaidOrder(old(Tables()), k, c);
        Tables() == o.db && reply == o.reply
      ensures old(Valid()) ==> Valid()
    {
      ghost var o := Payments.HandlePaidOrder(Tables(), k, c);
      if k !in records || records[k].itemId !in items {
        reply := Payments.NotFound;
      } else if c == Payments.Unresolved {
        reply := Payments.Quiet;
      } else if c == Payments.FailsBeforeWrite {
        reply := Payments.ChatFailed;
      } else {
        var ch := |channels|;
        channels := channels + [DeliveryChannel(k)];
        records := records[k := records[k].(deliveryChannelId := Some(ch))];
        reply := Payments.Paid(ch, c == Payments.FailsAfterWrite);
      }
      assert Tables() == o.db;
      if old(Valid()) {
        Payments.HandlePaidOrderValid(old(Tables()), k, c);
      }
    }

    /** One pass of the webhook's loop: the entry read back, the guard, and
        `handlePaidOrder`; `abort` is an exception that ends the loop. */
    method PayEntry(g: Payments.Guard, e: Payments.PixEntry, c: Payments.Chat) returns (abort: bool)
      modifies this
      ensures var s := Payments.Step(g, old(Tables()), e, c);
        Tables() == s.db && abort == s.reply.Abort?
      ensures old(Valid()) ==> Valid()
    {
      if Valid() {
        Payments.StepValid(g, Tables(), e, c);
      }
      var read := Payments.ReadEntry(e);
      if read.Throws? {
        return true;
      }
      abort := false;
      if read.ForRecord? && read.id in records && Payments.Admits(g, records[read.id]) {
        var paid := HandlePaidOrder(read.id, c);
        abort := paid.ChatFailed? || (paid.Paid? && paid.thrown);
      }
    }

    /** `/efi-webhook` under the guard `g`: the entries one by one, the i-th with the
        chat outcome `chat[i]`, stopping at the first exception. */
    method Webhook(g: Payments.Guard, n: Payments.Notification, chat: seq<Payments.Chat>)
      returns (reply: Payments.WebhookReply)
      modifies this
      ensures var o := Payments.Webhook(g, old(Tables()), n, chat);
        Tables() == o.db && reply == o.reply
      ensures old(Valid()) ==> Valid()
    {
      if n.evento == "teste_webhook" || n.pix.None? {
        return Payments.Acknowledged;
      }
      var es := n.pix.value;
      ghost var valid0 := Valid();
      var cs := chat;
      var i := 0;
      while i < |es|
        invariant 0 <= i <= |es|
        invariant Payments.Notify(g, Tables(), es[i..], cs)
               == Payments.Notify(g, old(Tables()), es, chat)
        invariant valid0 ==> Valid()
      {
        assert es[i..][0] == es[i] && es[i..][1..] == es[i + 1..];
        var abort := PayEntry(g, es[i], Payments.First(cs));
        if abort {
          return Payments.Aborted;
        }
        cs := Payments.Rest(cs);
        i := i + 1;
      }
      reply := Payments.Acknowledged;
    }

    // -------------------------------------------------------------- coupons

    method CreateCoupon(isOwner: bool, codeText: string, discount: real, uses: int)
      returns (reply: Coupons.CreateReply)
      modifies this
      ensures var o := Coupons.CreateCoupon(old(Tables()), isOwner, codeText, discount, uses);
        Tables() == o.db && reply == o.reply
      ensures old(Valid()) ==> Valid()
    {
      if !isOwner {
        return Coupons.CreateNotOwner;
      }
      var code := Upper(codeText);
      if code in coupons {
        return Coupons.DuplicateCode;
      }
      if !IsInt32(uses) {
        return Coupons.CreateFailed;
      }
      coupons := coupons[code := Coupon(discount, uses, true)];
      reply := Coupons.CouponCreated(code);
    }

    method DeleteCoupon(isOwner: bool, codeText: string) returns (reply: Coupons.DeleteReply)
      modifies this
      ensures var o := Coupons.DeleteCoupon(old(Tables()), isOwner, codeText);
        Tables() == o.db && reply == o.reply
      ensures old(Valid()) ==> Valid()
    {
      if !isOwner {
        return Coupons.DeleteNotOwner;
      }
      var code := Upper(codeText);
      if code !in coupons {
        return Coupons.CouponNotFound;
      }
      coupons := coupons - {code};
      reply := Coupons.CouponDeleted(code);
    }

    /** The coupon modal: the use is spent before the record is read. */
    method ApplyCoupon(customId: string, typed: string) returns (reply: Coupons.ApplyReply)
      modifies this
      ensures var o := Coupons.ApplyCoupon(old(Tables()), customId, typed);
        Tables() == o.db && reply == o.reply
      ensures old(Valid()) ==> Valid()
    {
      ghost var o := Coupons.ApplyCoupon(Tables(), customId, typed);
      var code := Upper(typed);
      if code !in coupons || !coupons[code].isActive || coupons[code].usesLeft <= 0 {
        reply := Coupons.CouponRejected;
      } else {
        var c := coupons[code];
        coupons := coupons[code := c.(usesLeft := c.usesLeft - 1)];
        var seg := ThirdSegment(customId);
        var id := if seg.None? then None else LookupId(ParseInt(seg.value));
        if id.None? || id.value < 0 || id.value !in records || records[id.value].itemId !in items {
          reply := Coupons.ApplyFailed;
        } else {
          var r := records[id.value];
          var original := (items[r.itemId].priceCents * r.quantity) as real;
          reply := Coupons.Applied(code, c.discountPercentage, original,
                                   Coupons.Discounted(original, c.discountPercentage));
        }
      }
      assert Tables() == o.db;
      if old(Valid()) {
        Coupons.ApplyCouponRules(old(Tables()), customId, typed);
      }
    }

    // -------------------------------------------------------------- dashboard and warnings

    /** The dashboard's loop over the finished records, in id order. */
    method DashboardStats() returns (sold: int, sales: nat, byName: map<string, int>)
      ensures sold == Dashboard.Sold(Dashboard.TableRecords(Tables()), items)
      ensures sales == Dashboard.Sales(Dashboard.TableRecords(Tables()), items)
      ensures byName == Dashboard.ByName(Dashboard.TableRecords(Tables()), items)
    {
      sold, sales, byName := 0, 0, map[];
      var id: nat := 1;
      ghost var seen: seq<DeliveryRecord> := [];
      while id < nextRecordId
        invariant 1 <= id <= nextRecordId || (id == 1 && nextRecordId <= 1)
        invariant seen == Dashboard.RecordsFrom(records, 1, id)
        invariant sold == Dashboard.Sold(seen, items)
        invariant sales == Dashboard.Sales(seen, items)
        invariant byName == Dashboard.ByName(seen, items)
        decreases nextRecordId - id
      {
        if id in records {
          var d := records[id];
          Dashboard.StatsOfOneMore(seen, d, items);
          if Dashboard.Counted(d, items) {
            sold := sold + d.quantity;
            sales := sales + 1;
            byName := byName[d.itemName := (if d.itemName in byName then byName[d.itemName] else 0) + d.quantity];
          }
          seen := seen + [d];
        } else {
          assert Dashboard.RecordsFrom(records, 1, id + 1) == seen + [];
          assert seen + [] == seen;
        }
        id := id + 1;
      }
      if nextRecordId <= 1 {
        assert Dashboard.RecordsFrom(records, 1, nextRecordId) == [];
      }
    }

    method Warn(isOwner: bool, memberFound: bool, user: string, moderator: string, reason: string)
      returns (reply: Moderation.WarnReply)
      modifies this
      ensures var o := Moderation.Warn(old(Tables()), isOwner, memberFound, user, moderator, reason);
        Tables() == o.db && reply == o.reply
      ensures old(Valid()) ==> Valid()
    {
      if !isOwner {
        return Moderation.WarnNotOwner;
      }
      if !memberFound {
        return Moderation.WarnFailed;
      }
      warnings := warnings + [Warning(user, moderator, reason)];
      var n := Moderation.WarnCount(warnings, user);
      reply := Moderation.Warned(n, Moderation.PunishmentFor(n));
    }
  }
}
