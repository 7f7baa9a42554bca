/** The Pix payment webhook (index.js:789-825) and `handlePaidOrder`
    (index.js:702-786), which opens a record's delivery channel once its payment is in.
    How the chat calls of each `handlePaidOrder` go is a parameter per entry (`Chat`). */
module Payments {
  import opened Wrappers
  import opened Text
  import opened JsNumbers
  import opened Schema
  import opened Txid
  import opened Orders

  datatype PixEntry = PixEntry(status: string, txid: Option<string>)

  /** The notification body: `pix` is `None` when it is absent or not an array. */
  datatype Notification = Notification(evento: string, pix: Option<seq<PixEntry>>)

  /** `OK`, or the request dropped by an exception nobody catches. */
  datatype WebhookReply = Acknowledged | Aborted

  /** How the chat calls of one `handlePaidOrder` go: all succeed; the guild, owner or
      buyer comes back empty and the handler returns quietly; a fetch or the channel
      creation throws, before the record is written; or a message sent after the
      write throws, leaving the new channel recorded. */
  datatype Chat = ChatOk | Unresolved | FailsBeforeWrite | FailsAfterWrite

  /** The chat calls leave a new channel behind. */
  predicate Writes(c: Chat) {
    c == ChatOk || c == FailsAfterWrite
  }

  /** The chat calls throw out of `handlePaidOrder`. */
  predicate Raises(c: Chat) {
    c == FailsBeforeWrite || c == FailsAfterWrite
  }

  /** `thrown`: a send after the write rejected. */
  datatype PaidReply = NotFound | Quiet | ChatFailed | Paid(channel: nat, thrown: bool)

  /** `handlePaidOrder`: a missing record or item returns quietly; otherwise a delivery
      channel is created and its id is the only field written to the record. */
  function HandlePaidOrder(db: Db, k: nat, c: Chat): (o: Outcome<PaidReply>)
    ensures o.reply.Paid? ==> o.db.records.Keys == db.records.Keys && k in o.db.records
                              && o.db.records[k].deliveryChannelId == Some(o.reply.channel)
                              && o.reply.channel == |db.channels|
    ensures !o.reply.Paid? ==> o.db == db
  {
    if k !in db.records || db.records[k].itemId !in db.items then Outcome(db, NotFound)
    else if c == Unresolved then Outcome(db, Quiet)
    else if c == FailsBeforeWrite then Outcome(db, ChatFailed)
    else
      var ch := |db.channels|;
      Outcome(db.(records := db.records[k := db.records[k].(deliveryChannelId := Some(ch))],
                  channels := db.channels + [DeliveryChannel(k)]),
              Paid(ch, c == FailsAfterWrite))
  }

  /** Paying a record changes only that record's delivery channel, and only by pointing
      it at the one channel appended. An exception is raised exactly when the chat calls
      throw, before or after the write. */
  lemma HandlePaidOrderRules(db: Db, k: nat, c: Chat)
    requires Valid(db)
    ensures var o := HandlePaidOrder(db, k, c);
      && (o.reply.NotFound? <==> k !in db.records)
      && (o.reply.Paid? <==> k in db.records && Writes(c))
      && (o.reply.ChatFailed? || (o.reply.Paid? && o.reply.thrown) <==> k in db.records && Raises(c))
      && (o.reply.Paid? ==>
            && o.db.channels == db.channels + [DeliveryChannel(k)]
            && o.db.records == db.records[k := db.records[k].(deliveryChannelId := Some(o.reply.channel))]
            && o.db.records[k].messageSent == db.records[k].messageSent
            && o.db.items == db.items && o.db.reviews == db.reviews
            && o.db.coupons == db.coupons && o.db.gifts == db.gifts
            && o.db.nextRecordId == db.nextRecordId)
  {
  }

  /** Paying a record keeps the tables valid. */
  lemma HandlePaidOrderValid(db: Db, k: nat, c: Chat)
    requires Valid(db)
    ensures Valid(HandlePaidOrder(db, k, c).db)
  {
    if k in db.records && db.records[k].itemId in db.items && Writes(c) {
      PayValid(db, k);
    }
  }

  /** Pointing a record at a newly appended channel keeps the tables valid. */
  lemma PayValid(db: Db, k: nat)
    requires Valid(db) && k in db.records
    ensures Valid(db.(records := db.records[k := db.records[k].(deliveryChannelId := Some(|db.channels|))],
                      channels := db.channels + [DeliveryChannel(k)]))
  {
    var db' := db.(records := db.records[k := db.records[k].(deliveryChannelId := Some(|db.channels|))],
                   channels := db.channels + [DeliveryChannel(k)]);
    forall id | id in db'.records
      ensures 1 <= id < db'.nextRecordId && db'.records[id].itemId in db'.items
      ensures ChannelRef(db'.records[id].ticketChannelId, db'.channels)
      ensures ChannelRef(db'.records[id].deliveryChannelId, db'.channels)
    {
      if id != k {
        assert db'.records[id] == db.records[id];
      }
    }
    forall id | id in db'.reviews
      ensures id in db'.records && db'.records[id].messageSent
      ensures db'.records[id].messageStatus == StatusDone
    {
      if id != k {
        assert db'.records[id] == db.records[id];
      }
    }
  }

  /** How the loop reads one entry: not a completed payment, an exception (`txid`
      missing, or an id the 32-bit column refuses in `findUnique`), or a record id. A
      txid the pattern does not match is skipped. */
  datatype EntryRead = Ignored | Throws | ForRecord(id: nat)

  function ReadEntry(e: PixEntry): (r: EntryRead)
    ensures r.ForRecord? ==> e.status == "CONCLUIDA" && e.txid.Some?
                             && ParseTxid(e.txid.value) == Some(r.id) && IsInt32(r.id)
  {
    if e.status != "CONCLUIDA" then Ignored
    else if e.txid.None? then Throws
    else
      match ParseTxid(e.txid.value)
      case None => Ignored
      case Some(k) => if IsInt32(k) then ForRecord(k) else Throws
  }

  /** An entry reaches a record exactly when it is completed and its txid matches with
      an id in the column's range; it throws exactly when it is completed and its txid
      is missing or decodes out of range. */
  lemma ReadEntryRules(e: PixEntry)
    ensures ReadEntry(e).ForRecord? <==>
      e.status == "CONCLUIDA" && e.txid.Some?
      && ParseTxid(e.txid.value).Some? && IsInt32(ParseTxid(e.txid.value).value)
    ensures ReadEntry(e).Throws? <==>
      e.status == "CONCLUIDA"
      && (e.txid.None? || (ParseTxid(e.txid.value).Some? && !IsInt32(ParseTxid(e.txid.value).value)))
  {
  }

  /** The guard before `handlePaidOrder`: as written it only asks that the record's
      message was not sent; the corrected guard also asks that no delivery channel was
      opened yet. */
  datatype Guard = AsWritten | Corrected

  predicate Admits(g: Guard, r: DeliveryRecord) {
    !r.messageSent && (g == Corrected ==> r.deliveryChannelId.None?)
  }

  /** A record the guard `g` lets through and `handlePaidOrder` then pays. */
  predicate Pays(g: Guard, db: Db, k: nat) {
    k in db.records && Admits(g, db.records[k]) && db.records[k].itemId in db.items
  }

  datatype StepReply = Continue | Abort

  function Step(g: Guard, db: Db, e: PixEntry, c: Chat): Outcome<StepReply> {
    match ReadEntry(e)
    case Ignored => Outcome(db, Continue)
    case Throws => Outcome(db, Abort)
    case ForRecord(k) =>
      if k in db.records && Admits(g, db.records[k]) then
        var h := HandlePaidOrder(db, k, c);
        Outcome(h.db, if h.reply.ChatFailed? || (h.reply.Paid? && h.reply.thrown) then Abort else Continue)
      else Outcome(db, Continue)
  }

  /** The chat outcome of the first entry; entries past the end of `chat` succeed. */
  function First(chat: seq<Chat>): Chat {
    if chat == [] then ChatOk else chat[0]
  }

  function Rest(chat: seq<Chat>): (r: seq<Chat>)
    ensures |r| <= |chat|
  {
    if chat == [] then [] else chat[1..]
  }

  /** The `for` loop over the entries, the i-th with the chat outcome `chat[i]`; an
      exception ends it, keeping what the entries before it, and the one that threw,
      wrote. */
  function Notify(g: Guard, db: Db, es: seq<PixEntry>, chat: seq<Chat>): Outcome<WebhookReply>
    decreases |es|
  {
    if es == [] then Outcome(db, Acknowledged)
    else
      var s := Step(g, db, es[0], First(chat));
      if s.reply.Abort? then Outcome(s.db, Aborted)
      else Notify(g, s.db, es[1..], Rest(chat))
  }

  /** The route: the test event and a body without a `pix` array are acknowledged
      without any change. */
  function Webhook(g: Guard, db: Db, n: Notification, chat: seq<Chat>): (o: Outcome<WebhookReply>)
    ensures n.evento == "teste_webhook" ==> o == Outcome(db, Acknowledged)
    ensures n.pix.None? ==> o == Outcome(db, Acknowledged)
    ensures n.pix == Some([]) ==> o == Outcome(db, Acknowledged)
  {
    if n.evento == "teste_webhook" || n.pix.None? then Outcome(db, Acknowledged)
    else Notify(g, db, n.pix.value, chat)
  }

  /** What the webhook may change: delivery channels of existing records, and the list
      of channels, which only grows. */
  predicate PaymentsOnly(db: Db, db': Db) {
    && db'.items == db.items && db'.reviews == db.reviews && db'.coupons == db.coupons
    && db'.gifts == db.gifts && db'.nextRecordId == db.nextRecordId
    && db'.records.Keys == db.records.Keys
    && (forall k :: k in db.records ==>
          db'.records[k] == db.records[k].(deliveryChannelId := db'.records[k].deliveryChannelId))
    && db.channels <= db'.channels
  }

  lemma StepRules(g: Guard, db: Db, e: PixEntry, c: Chat)
    requires Valid(db)
    ensures var s := Step(g, db, e, c);
      && PaymentsOnly(db, s.db) && Valid(s.db)
      && (s.reply.Abort? && c != FailsAfterWrite ==> s.db == db)
  {
    match ReadEntry(e)
    case Ignored => PaymentsOnlyReflexive(db);
    case Throws => PaymentsOnlyReflexive(db);
    case ForRecord(k) =>
      if k in db.records && Admits(g, db.records[k]) {
        PaidOrderOnly(db, k, c);
      } else {
        PaymentsOnlyReflexive(db);
      }
  }

  lemma StepValid(g: Guard, db: Db, e: PixEntry, c: Chat)
    requires Valid(db)
    ensures Valid(Step(g, db, e, c).db)
  {
    StepRules(g, db, e, c);
  }

  /** When one entry changes the tables: a completed entry whose txid names a record
      the guard admits and whose item exists, with chat calls that get as far as the
      write; the change is then one new channel, recorded on that record. The loop
      stops exactly at an entry that throws while read, or whose payment throws. */
  lemma StepGate(g: Guard, db: Db, e: PixEntry, c: Chat)
    ensures var s := Step(g, db, e, c);
      && (s.db != db <==> ReadEntry(e).ForRecord? && Pays(g, db, ReadEntry(e).id) && Writes(c))
      && (s.db != db ==>
            var k := ReadEntry(e).id;
            && s.db.channels == db.channels + [DeliveryChannel(k)]
            && s.db.records[k].deliveryChannelId == Some(|db.channels|))
      && (s.reply.Abort? <==>
            ReadEntry(e).Throws? || (ReadEntry(e).ForRecord? && Pays(g, db, ReadEntry(e).id) && Raises(c)))
  {
    var s := Step(g, db, e, c);
    if ReadEntry(e).ForRecord? && Pays(g, db, ReadEntry(e).id) && Writes(c) {
      assert |s.db.channels| == |db.channels| + 1;
    }
  }

  lemma PaymentsOnlyReflexive(db: Db)
    ensures PaymentsOnly(db, db)
  {
    assert forall k :: k in db.records ==>
      db.records[k] == db.records[k].(deliveryChannelId := db.records[k].deliveryChannelId);
  }

  lemma PaidOrderOnly(db: Db, k: nat, c: Chat)
    requires Valid(db)
    ensures var h := HandlePaidOrder(db, k, c);
      PaymentsOnly(db, h.db) && Valid(h.db)
  {
    var h := HandlePaidOrder(db, k, c);
    HandlePaidOrderRules(db, k, c);
    HandlePaidOrderValid(db, k, c);
    if h.reply.Paid? {
      assert forall j :: j in db.records ==>
        h.db.records[j] == db.records[j].(deliveryChannelId := h.db.records[j].deliveryChannelId);
    }
  }

  /** Whatever the notification and however the chat calls go, the webhook changes
      only delivery channels and keeps the tables valid. */
  lemma {:induction false} NotifyRules(g: Guard, db: Db, es: seq<PixEntry>, chat: seq<Chat>)
    requires Valid(db)
    ensures var o := Notify(g, db, es, chat);
      PaymentsOnly(db, o.db) && Valid(o.db)
    decreases |es|
  {
    if es != [] {
      var s := Step(g, db, es[0], First(chat));
      StepRules(g, db, es[0], First(chat));
      if s.reply.Continue? {
        NotifyRules(g, s.db, es[1..], Rest(chat));
      }
    }
  }

  /** The identifier the purchase handler builds, paid with a timestamp of the
      millisecond clock (past 2^31 since January 1970), makes the webhook fail before it
      touches anything: the id it decodes is out of the column's range. */
  lemma BuiltTxidAborts(g: Guard, db: Db, evento: string, recordId: nat, timestamp: nat,
                        chat: seq<Chat>)
    requires evento != "teste_webhook"
    requires timestamp >= 0x8000_0000
    ensures var e := PixEntry("CONCLUIDA", Some(BuildTxid(recordId, timestamp)));
      ReadEntry(e) == Throws
      && Webhook(g, db, Notification(evento, Some([e])), chat) == Outcome(db, Aborted)
  {
    var e := PixEntry("CONCLUIDA", Some(BuildTxid(recordId, timestamp)));
    BuiltTxidThrows(recordId, timestamp);
    ThrowingEntryAborts(g, db, evento, e, chat);
  }

  /** The built identifier decodes to a number past the 32-bit column. */
  lemma BuiltTxidThrows(recordId: nat, timestamp: nat)
    requires timestamp >= 0x8000_0000
    ensures ReadEntry(PixEntry("CONCLUIDA", Some(BuildTxid(recordId, timestamp)))) == Throws
  {
    DecodedAtLeastTimestamp(recordId, timestamp);
  }

  /** A single entry that throws aborts the notification with the tables untouched. */
  lemma ThrowingEntryAborts(g: Guard, db: Db, evento: string, e: PixEntry, chat: seq<Chat>)
    requires evento != "teste_webhook"
    requires ReadEntry(e) == Throws
    ensures Webhook(g, db, Notification(evento, Some([e])), chat) == Outcome(db, Aborted)
  {
    assert Step(g, db, e, First(chat)) == Outcome(db, Abort);
  }

  /** With the corrected identifier the webhook pays the record it was built for. */
  lemma SeparatedTxidPays(db: Db, k: nat, timestamp: nat)
    requires k >= 1 && IsInt32(k) && Pays(Corrected, db, k)
    ensures var e := PixEntry("CONCLUIDA", Some(BuildTxidSeparated(k, timestamp)));
      var o := Notify(Corrected, db, [e], []);
      o.reply == Acknowledged
      && o.db.channels == db.channels + [DeliveryChannel(k)]
      && k in o.db.records && o.db.records[k].deliveryChannelId == Some(|db.channels|)
  {
    SeparatedRoundTrip(k, timestamp);
    var e := PixEntry("CONCLUIDA", Some(BuildTxidSeparated(k, timestamp)));
    assert [e][1..] == [];
  }

  /** As written, the same payment notified twice (a provider retry) opens two delivery
      channels for one record: paying does not change `messageSent`. */
  lemma ReplayOpensTwoChannels(db: Db, e: PixEntry, k: nat)
    requires ReadEntry(e) == ForRecord(k)
    requires Pays(AsWritten, db, k)
    ensures Notify(AsWritten, db, [e, e], []).db.channels
         == db.channels + [DeliveryChannel(k), DeliveryChannel(k)]
  {
    var s1 := Step(AsWritten, db, e, ChatOk);
    var s2 := Step(AsWritten, s1.db, e, ChatOk);
    assert s1.db.channels == db.channels + [DeliveryChannel(k)];
    assert s2.db.channels == s1.db.channels + [DeliveryChannel(k)];
    assert [e, e][1..] == [e];
    assert [e][1..] == [];
    assert Notify(AsWritten, db, [e, e], []) == Notify(AsWritten, s1.db, [e], []);
    assert Notify(AsWritten, s1.db, [e], []) == Notify(AsWritten, s2.db, [], []);
  }

  /** With the corrected guard a retry is a no-op. */
  lemma ReplayCorrected(db: Db, e: PixEntry, k: nat)
    requires ReadEntry(e) == ForRecord(k)
    requires Pays(Corrected, db, k)
    ensures Notify(Corrected, db, [e, e], []).db.channels == db.channels + [DeliveryChannel(k)]
  {
    var s1 := Step(Corrected, db, e, ChatOk);
    var s2 := Step(Corrected, s1.db, e, ChatOk);
    assert s1.db.channels == db.channels + [DeliveryChannel(k)];
    assert s2.db == s1.db;
    assert [e, e][1..] == [e];
    assert [e][1..] == [];
    assert Notify(Corrected, db, [e, e], []) == Notify(Corrected, s1.db, [e], []);
    assert Notify(Corrected, s1.db, [e], []) == Notify(Corrected, s2.db, [], []);
  }

  /** A send that throws after the write ends the loop with the new channel recorded:
      the provider gets no `OK`, and the entries after it are not read. */
  lemma LateFailureKeepsWrite(g: Guard, db: Db, e: PixEntry, rest: seq<PixEntry>, k: nat)
    requires ReadEntry(e) == ForRecord(k)
    requires Pays(g, db, k)
    ensures var o := Notify(g, db, [e] + rest, [FailsAfterWrite]);
      && o.reply == Aborted
      && o.db == HandlePaidOrder(db, k, ChatOk).db
  {
    assert ([e] + rest)[0] == e;
  }

  /** The replay needs a txid that reads back as a record id, which the built one never
      does; `TICKET5` is such a txid for record 5, and delivering it twice opens two
      channels. */
  lemma ShortTxidReplays(db: Db)
    requires Pays(AsWritten, db, 5)
    ensures var e := PixEntry("CONCLUIDA", Some("TICKET5"));
      Notify(AsWritten, db, [e, e], []).db.channels
        == db.channels + [DeliveryChannel(5), DeliveryChannel(5)]
  {
    var e := PixEntry("CONCLUIDA", Some("TICKET5"));
    assert "TICKET5"[|Prefix|..] == "5";
    assert LeadingDigits("5") == "5";
    assert ReadEntry(e) == ForRecord(5);
    ReplayOpensTwoChannels(db, e, 5);
  }

  lemma StepKeepsUnpayable(db: Db, e: PixEntry, c: Chat, k: nat)
    requires !Pays(Corrected, db, k)
    ensures !Pays(Corrected, Step(Corrected, db, e, c).db, k)
  {
  }

  /** A record the corrected webhook would not pay is never made payable by it. */
  lemma {:induction false} NotifyKeepsUnpayable(db: Db, es: seq<PixEntry>, chat: seq<Chat>, k: nat)
    requires !Pays(Corrected, db, k)
    ensures !Pays(Corrected, Notify(Corrected, db, es, chat).db, k)
    decreases |es|
  {
    if es != [] {
      var s := Step(Corrected, db, es[0], First(chat));
      StepKeepsUnpayable(db, es[0], First(chat), k);
      if s.reply.Continue? {
        NotifyKeepsUnpayable(s.db, es[1..], Rest(chat), k);
      }
    }
  }

  /** With the corrected guard a record that has a delivery channel is never touched
      again, whatever the notification and the chat calls: no record is paid twice. */
  lemma {:induction false} NotifyNeverRepays(db: Db, es: seq<PixEntry>, chat: seq<Chat>, k: nat)
    requires k in db.records && db.records[k].deliveryChannelId.Some?
    ensures var o := Notify(Corrected, db, es, chat).db;
      k in o.records && o.records[k] == db.records[k]
    decreases |es|
  {
    if es != [] {
      var s := Step(Corrected, db, es[0], First(chat));
      assert k in s.db.records && s.db.records[k] == db.records[k];
      if s.reply.Continue? {
        NotifyNeverRepays(s.db, es[1..], Rest(chat), k);
      }
    }
  }

  /** No chat call throws after its write. */
  predicate NoLateFailure(chat: seq<Chat>) {
    forall i :: 0 <= i < |chat| ==> chat[i] != FailsAfterWrite
  }

  /** With the corrected guard, delivering the same notification again, with the chat
      calls going the same way, changes nothing, wherever the first delivery stopped,
      unless it stopped at a send that threw after its write. */
  lemma {:induction false} NotifyCorrectedIdempotent(db: Db, es: seq<PixEntry>, chat: seq<Chat>)
    requires NoLateFailure(chat)
    ensures var db1 := Notify(Corrected, db, es, chat).db;
      Notify(Corrected, db1, es, chat).db == db1
    decreases |es|
  {
    if es != [] {
      var e := es[0];
      var s := Step(Corrected, db, e, First(chat));
      assert First(chat) != FailsAfterWrite;
      if s.reply.Continue? {
        var r := Notify(Corrected, s.db, es[1..], Rest(chat));
        if ReadEntry(e).ForRecord? {
          var k := ReadEntry(e).id;
          if !Pays(Corrected, s.db, k) {
            NotifyKeepsUnpayable(s.db, es[1..], Rest(chat), k);
          }
        }
        assert Step(Corrected, r.db, e, First(chat)) == Outcome(r.db, Continue);
        NotifyCorrectedIdempotent(s.db, es[1..], Rest(chat));
      }
    }
  }

  /** As written, the payment timer still closes the ticket of an order that has been
      paid, since paying leaves `messageSent` false. */
  lemma PaidTicketStillTimesOut(db: Db, k: nat)
    requires Pays(AsWritten, db, k)
    ensures PaymentTimeoutFires(HandlePaidOrder(db, k, ChatOk).db, k)
  {
  }

  /** The corrected timer guard: the order is still unpaid. */
  predicate PaymentTimeoutFiresCorrected(db: Db, k: nat) {
    PaymentTimeoutFires(db, k) && db.records[k].deliveryChannelId.None?
  }

  /** The corrected timer closes an unpaid ticket and spares a paid one. */
  lemma PaymentTimeoutCorrected(db: Db, k: nat, customId: string, quantityText: string, buyer: string)
    requires Valid(db)
    ensures k in db.records && db.records[k].itemId in db.items ==>
      !PaymentTimeoutFiresCorrected(HandlePaidOrder(db, k, ChatOk).db, k)
    ensures var p := Purchase(db, customId, quantityText, buyer, true);
      p.reply.TicketOpened? ==> PaymentTimeoutFiresCorrected(p.db, p.reply.recordId)
  {
    if k in db.records && db.records[k].itemId in db.items {
      var h := HandlePaidOrder(db, k, ChatOk);
      assert h.reply.Paid? && h.db.records[k].deliveryChannelId.Some?;
    }
    PurchaseRules(db, customId, quantityText, buyer, true);
    var p := Purchase(db, customId, quantityText, buyer, true);
    if p.reply.TicketOpened? {
      var r := p.db.records[p.reply.recordId];
      assert !r.messageSent && r.deliveryChannelId.None?;
    }
  }
}
