/** The coupon ledger: the owner's `/criar-cupom` and `/deletar-cupom` commands
    (index.js:1733-1789) and the coupon modal a buyer submits in a ticket
    (index.js:1689-1730). Codes are stored and looked up upper-cased. */
module Coupons {
  import opened Wrappers
  import opened Text
  import opened JsNumbers
  import opened Schema
  import opened CustomId

  datatype CreateReply = CouponCreated(code: string) | CreateNotOwner | DuplicateCode | CreateFailed

  /** A new coupon is active and has the given number of uses; an existing code is a
      unique-key violation, and a use count the 32-bit column refuses a failed write. */
  function CreateCoupon(db: Db, isOwner: bool, codeText: string, discount: real, uses: int)
    : (o: Outcome<CreateReply>)
    ensures o.db == db.(coupons := o.db.coupons)
    ensures o.reply.CouponCreated? ==> o.reply.code in o.db.coupons && o.db.coupons[o.reply.code].isActive
  {
    var code := Upper(codeText);
    if !isOwner then Outcome(db, CreateNotOwner)
    else if code in db.coupons then Outcome(db, DuplicateCode)
    else if !IsInt32(uses) then Outcome(db, CreateFailed)
    else Outcome(db.(coupons := db.coupons[code := Coupon(discount, uses, true)]), CouponCreated(code))
  }

  lemma CreateCouponRules(db: Db, isOwner: bool, codeText: string, discount: real, uses: int)
    requires Valid(db)
    ensures var o := CreateCoupon(db, isOwner, codeText, discount, uses);
      && (o.reply.CouponCreated? <==> isOwner && Upper(codeText) !in db.coupons && IsInt32(uses))
      && (o.reply.DuplicateCode? <==> isOwner && Upper(codeText) in db.coupons)
      && (!o.reply.CouponCreated? ==> o.db == db)
      && (o.reply.CouponCreated? ==>
            o.reply.code == Upper(codeText)
            && o.db == db.(coupons := db.coupons[Upper(codeText) := Coupon(discount, uses, true)]))
      && Valid(o.db)
  {
  }

  datatype DeleteReply = CouponDeleted(code: string) | DeleteNotOwner | CouponNotFound

  /** `/deletar-cupom` (index.js:1768-1789): only the owner deletes, by the upper-cased
      code; a code that is not there is Prisma's "record not found". */
  function DeleteCoupon(db: Db, isOwner: bool, codeText: string): (o: Outcome<DeleteReply>)
    ensures o.db == db.(coupons := o.db.coupons) && o.db.coupons.Keys <= db.coupons.Keys
    ensures o.reply.DeleteNotOwner? <==> !isOwner
    ensures o.reply.CouponDeleted? <==> isOwner && Upper(codeText) in db.coupons
    ensures o.reply.CouponDeleted? ==> o.reply.code !in o.db.coupons
  {
    var code := Upper(codeText);
    if !isOwner then Outcome(db, DeleteNotOwner)
    else if code !in db.coupons then Outcome(db, CouponNotFound)
    else Outcome(db.(coupons := db.coupons - {code}), CouponDeleted(code))
  }

  lemma DeleteCouponRules(db: Db, isOwner: bool, codeText: string)
    requires Valid(db)
    ensures var o := DeleteCoupon(db, isOwner, codeText);
      && (o.reply.DeleteNotOwner? <==> !isOwner)
      && (o.reply.CouponNotFound? <==> isOwner && Upper(codeText) !in db.coupons)
      && (o.reply.CouponDeleted? <==> isOwner && Upper(codeText) in db.coupons)
      && (!o.reply.CouponDeleted? ==> o.db == db)
      && (o.reply.CouponDeleted? ==>
            o.db == db.(coupons := db.coupons - {Upper(codeText)}) && Upper(codeText) in db.coupons)
      && Valid(o.db)
  {
  }

  /** Deleting a coupon just created, under the same code in any letter case, restores
      the ledger. */
  lemma CreateThenDelete(db: Db, codeText: string, again: string, discount: real, uses: int)
    requires EqualsIgnoreCase(codeText, again)
    requires CreateCoupon(db, true, codeText, discount, uses).reply.CouponCreated?
    ensures var db1 := CreateCoupon(db, true, codeText, discount, uses).db;
      DeleteCoupon(db1, true, again) == Outcome(db, CouponDeleted(Upper(codeText)))
  {
    UpperIgnoresCase(codeText, again);
    var db1 := CreateCoupon(db, true, codeText, discount, uses).db;
    assert db1.coupons - {Upper(codeText)} == db.coupons;
  }

  datatype ApplyReply =
    | CouponRejected
    | ApplyFailed
    | Applied(code: string, discountPercentage: real, originalCents: real, finalCents: real)

  /** `originalPrice - originalPrice * (discountPercentage / 100)`: the new total is
      the old one scaled by the share not discounted, and a percentage between 0 and 100
      never raises a total nor makes it negative. */
  function Discounted(original: real, pct: real): (f: real)
    ensures f == original * (1.0 - pct / 100.0)
    ensures 0.0 <= pct <= 100.0 && original >= 0.0 ==> 0.0 <= f <= original
  {
    var share := pct / 100.0;
    assert 0.0 <= pct <= 100.0 ==> 0.0 <= share <= 1.0;
    assert original >= 0.0 && share >= 0.0 ==> original * share >= 0.0;
    assert original >= 0.0 && share <= 1.0 ==> original * share <= original;
    original - original * share
  }

  /** The coupon modal. The code is checked and one use spent before the record is
      looked up, so an unreadable or missing record leaves the use spent. The prices
      are the ticket's totals in cents. */
  function ApplyCoupon(db: Db, customId: string, typed: string): (o: Outcome<ApplyReply>)
    ensures o.db == db.(coupons := o.db.coupons) && o.db.coupons.Keys == db.coupons.Keys
  {
    var code := Upper(typed);
    if code !in db.coupons || !db.coupons[code].isActive || db.coupons[code].usesLeft <= 0 then
      Outcome(db, CouponRejected)
    else
      var c := db.coupons[code];
      var db1 := db.(coupons := db.coupons[code := c.(usesLeft := c.usesLeft - 1)]);
      var seg := ThirdSegment(customId);
      var id := if seg.None? then None else LookupId(ParseInt(seg.value));
      if id.None? || id.value < 0 || id.value !in db.records then Outcome(db1, ApplyFailed)
      else
        var r := db.records[id.value];
        if r.itemId !in db.items then Outcome(db1, ApplyFailed)
        else
          var original := (db.items[r.itemId].priceCents * r.quantity) as real;
          Outcome(db1, Applied(code, c.discountPercentage, original, Discounted(original, c.discountPercentage)))
  }

  /** Whether a coupon is accepted depends only on the coupon; an accepted coupon loses
      exactly one use whatever happens next and nothing else is written; the new total
      is the old one less the percentage. */
  lemma ApplyCouponRules(db: Db, customId: string, typed: string)
    requires Valid(db)
    ensures var o := ApplyCoupon(db, customId, typed);
      var code := Upper(typed);
      && (o.reply.CouponRejected? <==>
            code !in db.coupons || !db.coupons[code].isActive || db.coupons[code].usesLeft <= 0)
      && (o.reply.CouponRejected? ==> o.db == db)
      && (!o.reply.CouponRejected? ==>
            o.db == db.(coupons := db.coupons[code := db.coupons[code].(usesLeft := db.coupons[code].usesLeft - 1)])
            && o.db.coupons[code].usesLeft >= 0)
      && (o.reply.Applied? ==>
            o.reply.finalCents == Discounted(o.reply.originalCents, o.reply.discountPercentage)
            && o.reply.discountPercentage == db.coupons[code].discountPercentage)
      && Valid(o.db)
  {
  }

  /** A ticket's "apply coupon" button leads to a modal that finds the ticket's record:
      the total is its item's price times its quantity. */
  lemma ApplyToTicket(db: Db, n: nat, typed: string)
    requires Valid(db) && n in db.records && IsInt32(n)
    requires !ApplyCoupon(db, "coupon_modal_" + NatToString(n), typed).reply.CouponRejected?
    ensures var o := ApplyCoupon(db, "coupon_modal_" + NatToString(n), typed);
      o.reply.Applied?
      && o.reply.originalCents == (db.items[db.records[n].itemId].priceCents * db.records[n].quantity) as real
  {
    RecordIdButtonsDecode(n);
  }

  /** `n` submissions of the same modal. */
  function ApplyTimes(db: Db, customId: string, typed: string, n: nat): Db
    decreases n
  {
    if n == 0 then db else ApplyTimes(ApplyCoupon(db, customId, typed).db, customId, typed, n - 1)
  }

  /** A coupon with `u` uses left is accepted exactly `u` more times: after `n`
      submissions it has `u - n` left, or none once `n` reaches `u`. */
  lemma {:induction false} UsesCountDown(db: Db, customId: string, typed: string, n: nat)
    requires Upper(typed) in db.coupons && db.coupons[Upper(typed)].isActive
    requires db.coupons[Upper(typed)].usesLeft >= 0
    ensures var db' := ApplyTimes(db, customId, typed, n);
      var u := db.coupons[Upper(typed)].usesLeft;
      Upper(typed) in db'.coupons && db'.coupons[Upper(typed)].isActive
      && db'.coupons[Upper(typed)].usesLeft == (if n <= u then u - n else 0)
      && (n >= u ==> ApplyCoupon(db', customId, typed).reply.CouponRejected?)
    decreases n
  {
    if n > 0 {
      var db1 := ApplyCoupon(db, customId, typed).db;
      UsesCountDown(db1, customId, typed, n - 1);
    }
  }
}
