/** Automatic punishment after a warning (index.js:2208-2220): the total number of
    warnings a user has decides the tier. */
module Moderation {
  import opened Schema

  const DayMs: nat := 24 * 60 * 60 * 1000

  datatype Punishment = NoPunishment | Timeout(durationMs: nat) | Ban

  /** The tier for a user's warning count: nine or more bans, six or more times out for
      seven days, three or more for one day. */
  function PunishmentFor(warnCount: int): (p: Punishment)
    ensures p == Ban <==> warnCount >= 9
    ensures p == Timeout(7 * DayMs) <==> 6 <= warnCount < 9
    ensures p == Timeout(DayMs) <==> 3 <= warnCount < 6
    ensures p == NoPunishment <==> warnCount < 3
  {
    if warnCount >= 9 then Ban
    else if warnCount >= 6 then Timeout(7 * DayMs)
    else if warnCount >= 3 then Timeout(DayMs)
    else NoPunishment
  }

  /** How harsh a punishment is, for comparing tiers. */
  function Severity(p: Punishment): nat {
    match p
    case NoPunishment => 0
    case Timeout(ms) => 1 + ms
    case Ban => 1 + 7 * DayMs + 1
  }

  /** One more warning never makes the punishment milder. */
  lemma Escalates(a: int, b: int)
    requires a <= b
    ensures Severity(PunishmentFor(a)) <= Severity(PunishmentFor(b))
  {
  }

  /** `prisma.warning.count({ where: { userId } })`. */
  function WarnCount(ws: seq<Warning>, user: string): (n: nat)
    ensures n <= |ws|
    decreases |ws|
  {
    if ws == [] then 0
    else WarnCount(ws[..|ws| - 1], user) + (if ws[|ws| - 1].userId == user then 1 else 0)
  }

  /** A new warning counts for its user only. */
  lemma WarnCountAppend(ws: seq<Warning>, w: Warning, user: string)
    ensures WarnCount(ws + [w], user) == WarnCount(ws, user) + (if w.userId == user then 1 else 0)
  {
    assert (ws + [w])[..|ws|] == ws;
  }

  /** `WarnFailed`: fetching the warned user as a member of the guild threw, so the
      command ended before anything was saved. */
  datatype WarnReply = WarnNotOwner | WarnFailed | Warned(count: nat, punishment: Punishment)

  /** `/advertir` (index.js:2181-2220): the warned user is fetched as a member of the
      guild (`memberFound` says whether that succeeds), then the warning is saved, the
      user's warnings are counted, and the count picks the punishment. */
  function Warn(db: Db, isOwner: bool, memberFound: bool, user: string, moderator: string, reason: string)
    : (o: Outcome<WarnReply>)
    ensures o.db == db.(warnings := o.db.warnings) && db.warnings <= o.db.warnings
    ensures o.reply.Warned? <==> isOwner && memberFound
  {
    if !isOwner then Outcome(db, WarnNotOwner)
    else if !memberFound then Outcome(db, WarnFailed)
    else
      var ws := db.warnings + [Warning(user, moderator, reason)];
      var n := WarnCount(ws, user);
      Outcome(db.(warnings := ws), Warned(n, PunishmentFor(n)))
  }

  /** A refused command or a failed member fetch saves nothing; otherwise the warning
      raises its user's count by one and changes no other table, and the punishment is
      that of the new count. */
  lemma WarnRules(db: Db, isOwner: bool, memberFound: bool, user: string, moderator: string, reason: string)
    ensures var o := Warn(db, isOwner, memberFound, user, moderator, reason);
      && (!isOwner ==> o == Outcome(db, WarnNotOwner))
      && (isOwner && !memberFound ==> o == Outcome(db, WarnFailed))
      && (isOwner && memberFound ==>
            && o.db == db.(warnings := db.warnings + [Warning(user, moderator, reason)])
            && o.reply.count == WarnCount(db.warnings, user) + 1
            && o.reply.punishment == PunishmentFor(WarnCount(db.warnings, user) + 1)
            && forall other :: other != user ==>
                 WarnCount(o.db.warnings, other) == WarnCount(db.warnings, other))
  {
    forall other | other != user
      ensures WarnCount(db.warnings + [Warning(user, moderator, reason)], other) == WarnCount(db.warnings, other)
    {
      WarnCountAppend(db.warnings, Warning(user, moderator, reason), other);
    }
    WarnCountAppend(db.warnings, Warning(user, moderator, reason), user);
  }

  /** A user without warnings is not punished for the first two and is timed out for a
      day at the third. */
  lemma ThirdWarningTimesOut(db: Db, user: string, m: string, r1: string, r2: string, r3: string)
    requires WarnCount(db.warnings, user) == 0
    ensures var o1 := Warn(db, true, true, user, m, r1);
      var o2 := Warn(o1.db, true, true, user, m, r2);
      var o3 := Warn(o2.db, true, true, user, m, r3);
      o1.reply.punishment == NoPunishment && o2.reply.punishment == NoPunishment
      && o3.reply.punishment == Timeout(DayMs)
  {
    var o1 := Warn(db, true, true, user, m, r1);
    var o2 := Warn(o1.db, true, true, user, m, r2);
    WarnRules(db, true, true, user, m, r1);
    WarnRules(o1.db, true, true, user, m, r2);
    WarnRules(o2.db, true, true, user, m, r3);
  }
}
