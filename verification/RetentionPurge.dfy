/**
 The scheduled retention purge: each purgeable policy counts the rows past its window,
 deletes them when enabled, and writes one line to the report and one row to the audit
 chain. The chain is itself a table that a policy may name. Times are in microseconds.
 */
module RetentionPurge {
  import opened Prelude
  import opened AuditChain
  import opened AuditWriter
  import AuthSessions

  const DAY: int := 24 * 60 * 60 * 1_000_000

  datatype TableName = PiiAccessLogs | RefreshTokens | Notifications | AuditLog
  datatype RetentionAction = PurgeRows | ArchiveOnly

  /** The extra predicate of a policy. */
  datatype Extra = Always | RevokedOrExpired | AlreadyRead

  datatype Policy = Policy(name: string, table: TableName, days: int, action: RetentionAction, extra: Extra)

  predicate Purgeable(p: Policy) { p.action == PurgeRows && p.days > 0 }

  datatype Settings = Settings(restrictedPiiDays: int, internalDays: int, auditLogDays: int)

  function BuildPolicies(s: Settings): seq<Policy> {
    [Policy("pii_access_logs", PiiAccessLogs, s.restrictedPiiDays, PurgeRows, Always),
     Policy("refresh_tokens", RefreshTokens, s.internalDays, PurgeRows, RevokedOrExpired),
     Policy("notifications", Notifications, s.internalDays, PurgeRows, AlreadyRead),
     Policy("audit_log", AuditLog, s.auditLogDays, ArchiveOnly, Always)]
  }

  /** The columns a where clause can name; None is NULL. */
  datatype Entry = Entry(id: int, createdAt: Option<int>, revoked: bool, expiresAt: Option<int>, readAt: Option<int>)

  /** The where clause, on the database clock. */
  predicate Due(p: Policy, e: Entry, dbNow: int) {
    e.createdAt.Some? && e.createdAt.value < dbNow - p.days * DAY &&
    match p.extra
    case Always => true
    case RevokedOrExpired => e.revoked || (e.expiresAt.Some? && e.expiresAt.value < dbNow)
    case AlreadyRead => e.readAt.Some?
  }

  /** What a where clause sees of a row of the audit chain. */
  function Seen(r: Row): Entry { Entry(r.id, r.content.createdAt, false, None, None) }

  datatype Tables = Tables(
    piiAccessLogs: seq<Entry>, refreshTokens: seq<Entry>, notifications: seq<Entry>, auditLog: seq<Row>)

  function AllSeen(log: seq<Row>): seq<Entry> { seq(|log|, i requires 0 <= i < |log| => Seen(log[i])) }

  function Rows(db: Tables, t: TableName): seq<Entry> {
    match t
    case PiiAccessLogs => db.piiAccessLogs
    case RefreshTokens => db.refreshTokens
    case Notifications => db.notifications
    case AuditLog => AllSeen(db.auditLog)
  }

  function Matching(p: Policy, es: seq<Entry>, dbNow: int): nat {
    if es == [] then 0 else Matching(p, es[..|es| - 1], dbNow) + (if Due(p, es[|es| - 1], dbNow) then 1 else 0)
  }

  function Remaining(p: Policy, es: seq<Entry>, dbNow: int): seq<Entry> {
    if es == [] then []
    else Remaining(p, es[..|es| - 1], dbNow) + (if Due(p, es[|es| - 1], dbNow) then [] else [es[|es| - 1]])
  }

  function RemainingLog(p: Policy, log: seq<Row>, dbNow: int): seq<Row> {
    if log == [] then []
    else
      RemainingLog(p, log[..|log| - 1], dbNow) + (if Due(p, Seen(log[|log| - 1]), dbNow) then [] else [log[|log| - 1]])
  }

  /** The DELETE statement of a policy. */
  function Deleted(p: Policy, db: Tables, dbNow: int): Tables {
    match p.table
    case PiiAccessLogs => db.(piiAccessLogs := Remaining(p, db.piiAccessLogs, dbNow))
    case RefreshTokens => db.(refreshTokens := Remaining(p, db.refreshTokens, dbNow))
    case Notifications => db.(notifications := Remaining(p, db.notifications, dbNow))
    case AuditLog => db.(auditLog := RemainingLog(p, db.auditLog, dbNow))
  }

  datatype Line = Line(policy: string, table: TableName, cutoff: int, matched: nat, deleted: nat, dryRun: bool)

  /** The audited sentence about one policy: counts only, never row contents. */
  type Describe = (Policy, nat, nat) -> Content

  /** The database of one run, and the report so far. */
  datatype Progress = Progress(db: Tables, nextId: int, lines: seq<Line>)

  /** The audit row of one policy, linked to the head the chain has after the deletion. */
  function Audited(H: Hash, log: seq<Row>, nextId: int, content: Content): seq<Row> {
    log + [NewRow(H, nextId, HeadHash(log), content)]
  }

  function PurgeOne(H: Hash, say: Describe, p: Policy, enabled: bool, now: int, dbNow: int, s: Progress): Progress {
    if !Purgeable(p) then s
    else
      var matched := Matching(p, Rows(s.db, p.table), dbNow);
      var deleted := if enabled then matched else 0;
      var db := if enabled then Deleted(p, s.db, dbNow) else s.db;
      Progress(
        db.(auditLog := Audited(H, db.auditLog, s.nextId, say(p, matched, deleted))),
        s.nextId + 1,
        s.lines + [Line(p.name, p.table, now - p.days * DAY, matched, deleted, !enabled)])
  }

  function PurgeAll(
      H: Hash, say: Describe, ps: seq<Policy>, enabled: bool, now: int, dbNow: int, s: Progress): Progress
  {
    if ps == [] then s
    else PurgeOne(H, say, ps[|ps| - 1], enabled, now, dbNow, PurgeAll(H, say, ps[..|ps| - 1], enabled, now, dbNow, s))
  }

  /** The worker over one session. */
  class RetentionWorker {
    const H: Hash
    const say: Describe
    var db: Tables
    var nextId: int

    constructor (H: Hash, say: Describe, db: Tables, nextId: int)
      ensures this.H == H && this.say == say && this.db == db && this.nextId == nextId
    {
      this.H, this.say, this.db, this.nextId := H, say, db, nextId;
    }

    method Run(policies: seq<Policy>, enabled: bool, now: int, dbNow: int) returns (lines: seq<Line>)
      modifies this
      ensures Progress(db, nextId, lines) ==
              PurgeAll(H, say, policies, enabled, now, dbNow, Progress(old(db), old(nextId), []))
    {
      hide CanonicalPayload, HeadHash, Due, RemainingLog, Remaining, Matching;
      lines := [];
      ghost var start := Progress(db, nextId, []);
      for i := 0 to |policies|
        invariant Progress(db, nextId, lines) == PurgeAll(H, say, policies[..i], enabled, now, dbNow, start)
      {
        var p := policies[i];
        assert policies[..i + 1][..i] == policies[..i];
        if p.action == PurgeRows && p.days > 0 {
          var matched := Matching(p, Rows(db, p.table), dbNow);
          var deleted := 0;
          if enabled && matched != 0 {
            var before := |Rows(db, p.table)|;
            DeletesMatching(p, db, dbNow);
            db := Deleted(p, db, dbNow);
            deleted := before - |Rows(db, p.table)|;
          } else if enabled {
            NothingDue(p, db, dbNow);
          }
          lines := lines + [Line(p.name, p.table, now - p.days * DAY, matched, deleted, !enabled)];
          var row := NewRow(H, nextId, HeadHash(db.auditLog), say(p, matched, deleted));
          db := db.(auditLog := db.auditLog + [row]);
          nextId := nextId + 1;
        }
      }
      assert policies[..|policies|] == policies;
    }
  }

  // ---- one deletion ----------------------------------------------------------------------

  lemma {:induction false} LogAsEntries(p: Policy, log: seq<Row>, dbNow: int)
    ensures AllSeen(RemainingLog(p, log, dbNow)) == Remaining(p, AllSeen(log), dbNow)
  {
    hide Due, Seen;
    if log != [] {
      var n := |log| - 1;
      LogAsEntries(p, log[..n], dbNow);
      assert AllSeen(log)[..n] == AllSeen(log[..n]);
      var kept := RemainingLog(p, log[..n], dbNow);
      assert AllSeen(kept + [log[n]]) == AllSeen(kept) + [Seen(log[n])];
    }
  }

  lemma {:induction false} Split(p: Policy, es: seq<Entry>, dbNow: int)
    ensures |es| == |Remaining(p, es, dbNow)| + Matching(p, es, dbNow)
  {
    if es != [] { Split(p, es[..|es| - 1], dbNow); }
  }

  /** What the DELETE leaves of each table, seen as entries. */
  lemma DeletedRows(p: Policy, db: Tables, dbNow: int, t: TableName)
    ensures Rows(Deleted(p, db, dbNow), t) == if t == p.table then Remaining(p, Rows(db, t), dbNow) else Rows(db, t)
  {
    hide Due, Remaining, RemainingLog, AllSeen;
    LogAsEntries(p, db.auditLog, dbNow);
  }

  lemma DeletesMatching(p: Policy, db: Tables, dbNow: int)
    ensures |Rows(db, p.table)| == |Rows(Deleted(p, db, dbNow), p.table)| + Matching(p, Rows(db, p.table), dbNow)
  {
    DeletedRows(p, db, dbNow, p.table);
    Split(p, Rows(db, p.table), dbNow);
  }

  lemma {:induction false} NoneMatching(p: Policy, es: seq<Entry>, dbNow: int)
    ensures Matching(p, es, dbNow) == 0 <==> forall e | e in es :: !Due(p, e, dbNow)
    ensures (forall e | e in es :: !Due(p, e, dbNow)) ==> Remaining(p, es, dbNow) == es
  {
    hide Due;
    if es != [] {
      var n := |es| - 1;
      assert es == es[..n] + [es[n]];
      NoneMatching(p, es[..n], dbNow);
    }
  }

  lemma {:induction false} NoneOfLog(p: Policy, log: seq<Row>, dbNow: int)
    requires forall r | r in log :: !Due(p, Seen(r), dbNow)
    ensures RemainingLog(p, log, dbNow) == log
  {
    hide Due;
    if log != [] {
      var n := |log| - 1;
      assert log == log[..n] + [log[n]];
      NoneOfLog(p, log[..n], dbNow);
    }
  }

  lemma NothingDue(p: Policy, db: Tables, dbNow: int)
    requires Matching(p, Rows(db, p.table), dbNow) == 0
    ensures Deleted(p, db, dbNow) == db
  {
    hide Due, Matching, Remaining, RemainingLog;
    NoneMatching(p, Rows(db, p.table), dbNow);
    if p.table == AuditLog {
      forall r | r in db.auditLog ensures !Due(p, Seen(r), dbNow) {
        var i :| 0 <= i < |db.auditLog| && db.auditLog[i] == r;
        assert AllSeen(db.auditLog)[i] == Seen(r);
      }
      NoneOfLog(p, db.auditLog, dbNow);
    }
  }

  // ---- what a run leaves of the other tables -----------------------------------------------

  /** Whether some purgeable policy on this table wants the row gone. */
  ghost predicate Doomed(ps: seq<Policy>, t: TableName, e: Entry, dbNow: int) {
    exists i :: 0 <= i < |ps| && Purgeable(ps[i]) && ps[i].table == t && Due(ps[i], e, dbNow)
  }

  ghost function Survivors(ps: seq<Policy>, t: TableName, es: seq<Entry>, dbNow: int): seq<Entry> {
    if es == [] then []
    else
      var n := |es| - 1;
      Survivors(ps, t, es[..n], dbNow) + (if Doomed(ps, t, es[n], dbNow) then [] else [es[n]])
  }

  lemma DoomedByLast(ps: seq<Policy>, t: TableName, e: Entry, dbNow: int)
    requires ps != []
    ensures var last := ps[|ps| - 1];
            Doomed(ps, t, e, dbNow) <==>
            Doomed(ps[..|ps| - 1], t, e, dbNow) || (Purgeable(last) && last.table == t && Due(last, e, dbNow))
  {
    var n := |ps| - 1;
    if Doomed(ps, t, e, dbNow) {
      var i :| 0 <= i < |ps| && Purgeable(ps[i]) && ps[i].table == t && Due(ps[i], e, dbNow);
      if i < n { assert ps[..n][i] == ps[i]; }
    }
    if Doomed(ps[..n], t, e, dbNow) {
      var i :| 0 <= i < n && Purgeable(ps[..n][i]) && ps[..n][i].table == t && Due(ps[..n][i], e, dbNow);
      assert ps[i] == ps[..n][i];
    }
  }

  lemma {:induction false} OneMorePolicy(ps: seq<Policy>, t: TableName, es: seq<Entry>, dbNow: int)
    requires ps != []
    ensures var last := ps[|ps| - 1];
            var before := Survivors(ps[..|ps| - 1], t, es, dbNow);
            Survivors(ps, t, es, dbNow)
            == if Purgeable(last) && last.table == t then Remaining(last, before, dbNow) else before
  {
    hide Doomed, Due, Purgeable;
    if es != [] {
      var n := |es| - 1;
      DoomedByLast(ps, t, es[n], dbNow);
      OneMorePolicy(ps, t, es[..n], dbNow);
      var rest := Survivors(ps[..|ps| - 1], t, es[..n], dbNow);
      if Doomed(ps[..|ps| - 1], t, es[n], dbNow) {
        assert rest + [] == rest;
      } else {
        assert (rest + [es[n]])[..|rest|] == rest && (rest + [es[n]])[|rest|] == es[n];
      }
    }
  }

  lemma {:induction false} NoPolicyKeepsAll(t: TableName, es: seq<Entry>, dbNow: int)
    ensures Survivors([], t, es, dbNow) == es
  {
    if es != [] { NoPolicyKeepsAll(t, es[..|es| - 1], dbNow); }
  }

  /** One policy's effect on a table other than the audit log. */
  lemma OneOtherTable(H: Hash, say: Describe, p: Policy, enabled: bool, now: int, dbNow: int, s: Progress, t: TableName)
    requires t != AuditLog
    ensures var after := PurgeOne(H, say, p, enabled, now, dbNow, s);
            Rows(after.db, t)
            == if enabled && Purgeable(p) && p.table == t then Remaining(p, Rows(s.db, t), dbNow) else Rows(s.db, t)
  {
    hide Audited, Matching, Remaining, RemainingLog, Due, AllSeen;
  }

  /** An enabled run leaves of each other table exactly the rows no purgeable policy on it is due on; a dry run all. */
  lemma {:induction false} PurgeExact(
    H: Hash, say: Describe, ps: seq<Policy>, enabled: bool, now: int, dbNow: int, s: Progress, t: TableName)
    requires t != AuditLog
    ensures Rows(PurgeAll(H, say, ps, enabled, now, dbNow, s).db, t)
            == if enabled then Survivors(ps, t, Rows(s.db, t), dbNow) else Rows(s.db, t)
  {
    hide PurgeOne, Doomed, Rows, Survivors, Remaining;
    if ps == [] {
      NoPolicyKeepsAll(t, Rows(s.db, t), dbNow);
    } else {
      var n := |ps| - 1;
      PurgeExact(H, say, ps[..n], enabled, now, dbNow, s, t);
      OneMorePolicy(ps, t, Rows(s.db, t), dbNow);
      OneOtherTable(H, say, ps[n], enabled, now, dbNow, PurgeAll(H, say, ps[..n], enabled, now, dbNow, s), t);
    }
  }

  /** The report: one new line for each purgeable policy; an enabled run deletes all it matched, a dry run nothing. */
  lemma {:induction false} PurgeReported(
    H: Hash, say: Describe, ps: seq<Policy>, enabled: bool, now: int, dbNow: int, s: Progress)
    ensures var end := PurgeAll(H, say, ps, enabled, now, dbNow, s);
      && s.lines <= end.lines && |end.lines| == |s.lines| + PurgeableCount(ps)
      && forall i | |s.lines| <= i < |end.lines| ::
           end.lines[i].dryRun == !enabled && end.lines[i].deleted == if enabled then end.lines[i].matched else 0
  {
    hide Matching, Deleted, Audited, Rows;
    if ps != [] { PurgeReported(H, say, ps[..|ps| - 1], enabled, now, dbNow, s); }
  }

  // ---- conservation ------------------------------------------------------------------------

  function PurgeableCount(ps: seq<Policy>): nat {
    if ps == [] then 0 else PurgeableCount(ps[..|ps| - 1]) + (if Purgeable(ps[|ps| - 1]) then 1 else 0)
  }

  function DeletedFrom(lines: seq<Line>, t: TableName): nat {
    if lines == [] then 0
    else
      var last := lines[|lines| - 1];
      DeletedFrom(lines[..|lines| - 1], t) + (if last.table == t then last.deleted else 0)
  }

  lemma OneConserves(H: Hash, say: Describe, p: Policy, enabled: bool, now: int, dbNow: int, s: Progress, t: TableName)
    requires Purgeable(p)
    ensures var after := PurgeOne(H, say, p, enabled, now, dbNow, s);
      && after.lines != [] && after.lines[..|after.lines| - 1] == s.lines
      && after.lines[|after.lines| - 1].table == p.table
      && |Rows(s.db, t)| + (if t == AuditLog then 1 else 0)
         == |Rows(after.db, t)| + (if t == p.table then after.lines[|after.lines| - 1].deleted else 0)
  {
    hide Matching, Remaining, RemainingLog, Due, HeadHash, CanonicalPayload;
    DeletedRows(p, s.db, dbNow, t);
    DeletesMatching(p, s.db, dbNow);
  }

  /** For each table: rows before, and for the audit log those added, are rows after and reported deletions. */
  lemma {:induction false} PurgeConserves(
    H: Hash, say: Describe, ps: seq<Policy>, enabled: bool, now: int, dbNow: int, s: Progress, t: TableName)
    ensures var end := PurgeAll(H, say, ps, enabled, now, dbNow, s);
            |Rows(s.db, t)| + (if t == AuditLog then PurgeableCount(ps) else 0)
            == |Rows(end.db, t)| + DeletedFrom(end.lines, t) - DeletedFrom(s.lines, t)
  {
    hide PurgeOne, Rows;
    if ps != [] {
      var n := |ps| - 1;
      PurgeConserves(H, say, ps[..n], enabled, now, dbNow, s, t);
      var before := PurgeAll(H, say, ps[..n], enabled, now, dbNow, s);
      if Purgeable(ps[n]) {
        OneConserves(H, say, ps[n], enabled, now, dbNow, before, t);
      } else {
        NotPurgeable(H, say, ps[n], enabled, now, dbNow, before);
      }
    }
  }

  lemma NotPurgeable(H: Hash, say: Describe, p: Policy, enabled: bool, now: int, dbNow: int, s: Progress)
    requires !Purgeable(p)
    ensures PurgeOne(H, say, p, enabled, now, dbNow, s) == s
  {}

  // ---- the audit chain, left alone ---------------------------------------------------------

  ghost predicate SparesAuditLog(ps: seq<Policy>) {
    forall i | 0 <= i < |ps| :: Purgeable(ps[i]) ==> ps[i].table != AuditLog
  }

  /** Whatever the settings, the repository's own policies spare the audit log. */
  lemma BuiltPoliciesSpareAuditLog(settings: Settings)
    ensures SparesAuditLog(BuildPolicies(settings))
  {}

  /**
   A dry run, and an enabled run whose policies spare the audit log, only append to it: one
   row for each purgeable policy, and the chain stays intact.
   */
  lemma {:induction false} PurgeAudited(
    H: Hash, say: Describe, ps: seq<Policy>, enabled: bool, now: int, dbNow: int, s: Progress)
    requires GoodChain(H, s.db.auditLog, s.nextId) && (enabled ==> SparesAuditLog(ps))
    ensures var end := PurgeAll(H, say, ps, enabled, now, dbNow, s);
      && GoodChain(H, end.db.auditLog, end.nextId) && s.db.auditLog <= end.db.auditLog
      && |end.db.auditLog| == |s.db.auditLog| + PurgeableCount(ps) && |end.lines| == |s.lines| + PurgeableCount(ps)
  {
    hide CanonicalPayload, HeadHash, GoodChain, Matching, Remaining, RemainingLog, Rows, NewRow;
    if ps != [] {
      var n := |ps| - 1;
      var before := PurgeAll(H, say, ps[..n], enabled, now, dbNow, s);
      PurgeAudited(H, say, ps[..n], enabled, now, dbNow, s);
      if Purgeable(ps[n]) {
        var matched := Matching(ps[n], Rows(before.db, ps[n].table), dbNow);
        HeadHashIsHead(H, before.db.auditLog, before.nextId);
        GrowGoodChain(H, before.db.auditLog, before.nextId, say(ps[n], matched, if enabled then matched else 0));
      }
    }
  }

  // ---- the audit chain, purged ----------------------------------------------------------------

  predicate OnLog(p: Policy) { Purgeable(p) && p.table == AuditLog }

  /** The position of the first purgeable policy, |ps| when there is none. */
  function First(ps: seq<Policy>): (f: nat)
    ensures f <= |ps| && (f < |ps| ==> Purgeable(ps[f])) && forall i | 0 <= i < f :: !Purgeable(ps[i])
  {
    if ps == [] || Purgeable(ps[0]) then 0 else 1 + First(ps[1..])
  }

  function CutBy(p: Policy, log: seq<Row>, dbNow: int): seq<Row> {
    if OnLog(p) then RemainingLog(p, log, dbNow) else log
  }

  /** Of the rows there were, those left after the first k policies. */
  function OldRows(ps: seq<Policy>, k: nat, log: seq<Row>, dbNow: int): seq<Row>
    requires k <= |ps|
  {
    if k == 0 then log else CutBy(ps[k - 1], OldRows(ps, k - 1, log, dbNow), dbNow)
  }

  /**
   What a caller can check beforehand: the first purgeable policy takes at most a suffix of
   the log, and no later one is due on anything that leaves.
   */
  ghost predicate OnlySuffixGoes(ps: seq<Policy>, log: seq<Row>, dbNow: int) {
    var f := First(ps);
    f < |ps| ==>
      var kept := CutBy(ps[f], log, dbNow);
      kept <= log && forall r, i | r in kept && f < i < |ps| && OnLog(ps[i]) :: !Due(ps[i], Seen(r), dbNow)
  }

  /** The rows a run appends are too young for its own policies. */
  ghost predicate SaysRecent(say: Describe, ps: seq<Policy>, dbNow: int) {
    forall i, q, m, d, r: Row | 0 <= i < |ps| && OnLog(ps[i]) && r.content == say(q, m, d) ::
      !Due(ps[i], Seen(r), dbNow)
  }

  ghost predicate AllYoung(ps: seq<Policy>, rows: seq<Row>, dbNow: int) {
    forall i, r | 0 <= i < |ps| && OnLog(ps[i]) && r in rows :: !Due(ps[i], Seen(r), dbNow)
  }

  /** Rows linked one to the next, the first to the given head. */
  ghost predicate Hung(H: Hash, rows: seq<Row>, head: string) {
    forall i | 0 <= i < |rows| :: HungAt(H, rows, i, head)
  }

  ghost predicate HungAt(H: Hash, rows: seq<Row>, i: nat, head: string)
    requires i < |rows|
  {
    rows[i].prevHash == (if i == 0 then head else rows[i - 1].rowHash) && rows[i].rowHash == H(RowText(rows[i]))
  }

  /** A log of some old rows, in order, and new ones behind them. */
  ghost predicate Shape(
    H: Hash, ps: seq<Policy>, dbNow: int, kept: seq<Row>, added: seq<Row>, head: string, log: seq<Row>, nextId: int)
  {
    && log == kept + added && added != [] && Hung(H, added, head) && AllYoung(ps, added, dbNow)
    && Ascending(log) && forall r | r in log :: r.id < nextId
  }

  lemma {:induction false} CutRows(p: Policy, log: seq<Row>, dbNow: int)
    ensures forall r :: r in RemainingLog(p, log, dbNow) <==> r in log && !Due(p, Seen(r), dbNow)
  {
    hide Due, Seen;
    if log != [] {
      var n := |log| - 1;
      CutRows(p, log[..n], dbNow);
      assert log == log[..n] + [log[n]];
    }
  }

  lemma {:induction false} CutLogAscends(p: Policy, log: seq<Row>, dbNow: int)
    requires Ascending(log)
    ensures Ascending(RemainingLog(p, log, dbNow))
  {
    hide Due, Seen;
    if log != [] {
      var n := |log| - 1;
      var part := RemainingLog(p, log[..n], dbNow);
      CutLogAscends(p, log[..n], dbNow);
      CutRows(p, log[..n], dbNow);
      forall i | 0 <= i < |part| ensures part[i].id < log[n].id { assert part[i] in log[..n]; }
    }
  }

  lemma {:induction false} CutConcat(p: Policy, a: seq<Row>, b: seq<Row>, dbNow: int)
    ensures RemainingLog(p, a + b, dbNow) == RemainingLog(p, a, dbNow) + RemainingLog(p, b, dbNow)
  {
    hide Due, Seen;
    if b == [] {
      assert a + b == a;
    } else {
      var n := |b| - 1;
      assert (a + b)[..|a| + n] == a + b[..n];
      CutConcat(p, a, b[..n], dbNow);
    }
  }

  /** Among ascending ids the head read is that of the last row, whatever the links. */
  lemma HeadOfAscending(log: seq<Row>)
    requires Ascending(log) && (log != [] ==> log[|log| - 1].rowHash != "")
    ensures HeadHash(log) == Head(log)
  {
    if log != [] {
      var r := LatestById(log).value;
      assert log[|log| - 1] in log;
      var k :| 0 <= k < |log| && log[k] == r;
      assert k == |log| - 1;
    }
  }

  /** What one policy does to the log. */
  lemma OneOnLog(H: Hash, say: Describe, p: Policy, now: int, dbNow: int, s: Progress)
    requires Purgeable(p)
    ensures var after := PurgeOne(H, say, p, true, now, dbNow, s);
      exists m, d :: after.nextId == s.nextId + 1
        && after.db.auditLog == Audited(H, CutBy(p, s.db.auditLog, dbNow), s.nextId, say(p, m, d))
  {
    hide Audited, Matching, Remaining, RemainingLog, Due, AllSeen;
    var matched := Matching(p, Rows(s.db, p.table), dbNow);
    assert PurgeOne(H, say, p, true, now, dbNow, s).db.auditLog
           == Audited(H, CutBy(p, s.db.auditLog, dbNow), s.nextId, say(p, matched, matched));
  }

  lemma CutAscends(p: Policy, log: seq<Row>, dbNow: int)
    ensures forall r | r in CutBy(p, log, dbNow) :: r in log
    ensures Ascending(log) ==> Ascending(CutBy(p, log, dbNow))
  {
    hide RemainingLog, Due, Ascending;
    CutRows(p, log, dbNow);
    if Ascending(log) { CutLogAscends(p, log, dbNow); }
  }

  lemma YoungIsKept(ps: seq<Policy>, i: nat, rows: seq<Row>, dbNow: int)
    requires i < |ps| && AllYoung(ps, rows, dbNow)
    ensures CutBy(ps[i], rows, dbNow) == rows
  {
    hide Due, RemainingLog;
    if OnLog(ps[i]) { NoneOfLog(ps[i], rows, dbNow); }
  }

  /** The first purgeable policy: old rows may go, one row is added behind the rest. */
  lemma FirstShape(H: Hash, ps: seq<Policy>, i: nat, log: seq<Row>, nextId: int, content: Content, dbNow: int)
    requires i < |ps| && Intact(H, log) && Ascending(log) && forall r | r in log :: r.id < nextId
    requires AllYoung(ps, [NewRow(H, nextId, HeadHash(CutBy(ps[i], log, dbNow)), content)], dbNow)
    ensures var kept := CutBy(ps[i], log, dbNow);
            Shape(H, ps, dbNow, kept, [NewRow(H, nextId, HeadHash(kept), content)], Head(kept),
                  Audited(H, kept, nextId, content), nextId + 1)
  {
    hide RemainingLog, Due, CanonicalPayload, HeadHash, AllYoung, CutBy, RowText, Hung;
    var kept := CutBy(ps[i], log, dbNow);
    CutAscends(ps[i], log, dbNow);
    NewRowHangs(H, nextId, HeadHash(kept), content);
    if kept != [] {
      assert kept[|kept| - 1] in log;
      var k :| 0 <= k < |log| && log[k] == kept[|kept| - 1];
      assert Linked(H, log, k);
    }
    HeadOfAscending(kept);
    assert forall j | 0 <= j < |kept| :: kept[j] in kept;
  }

  lemma NewRowHangs(H: Hash, id: int, prev: string, content: Content)
    ensures Hung(H, [NewRow(H, id, prev, content)], prev)
  {
    hide CanonicalPayload;
  }

  /** Every later one: what it added stays, and its row hangs on the one before. */
  lemma NextShape(
    H: Hash, ps: seq<Policy>, i: nat, kept: seq<Row>, added: seq<Row>, head: string, log: seq<Row>, nextId: int,
    content: Content, dbNow: int)
    requires i < |ps| && Shape(H, ps, dbNow, kept, added, head, log, nextId)
    requires AllYoung(ps, [NewRow(H, nextId, added[|added| - 1].rowHash, content)], dbNow)
    ensures var r := NewRow(H, nextId, added[|added| - 1].rowHash, content);
            Shape(H, ps, dbNow, CutBy(ps[i], kept, dbNow), added + [r], head,
                  Audited(H, CutBy(ps[i], log, dbNow), nextId, content), nextId + 1)
  {
    hide RemainingLog, Due, CanonicalPayload, HeadHash;
    var r := NewRow(H, nextId, added[|added| - 1].rowHash, content);
    var cut := CutBy(ps[i], log, dbNow);
    YoungIsKept(ps, i, added, dbNow);
    CutConcat(ps[i], kept, added, dbNow);
    assert cut == CutBy(ps[i], kept, dbNow) + added;
    CutAscends(ps[i], log, dbNow);
    assert cut[|cut| - 1] == added[|added| - 1];
    assert HungAt(H, added, |added| - 1, head);
    HeadOfAscending(cut);
    assert cut + [r] == CutBy(ps[i], kept, dbNow) + (added + [r]);
    assert forall j | 0 <= j < |cut| :: cut[j] in cut;
    HungMore(H, added, head, r);
  }

  lemma HungMore(H: Hash, rows: seq<Row>, head: string, r: Row)
    requires Hung(H, rows, head) && rows != [] && r.prevHash == rows[|rows| - 1].rowHash && r.rowHash == H(RowText(r))
    ensures Hung(H, rows + [r], head)
  {
    hide RowText;
    var more := rows + [r];
    forall i | 0 <= i < |more| ensures HungAt(H, more, i, head) {
      if i < |rows| { assert HungAt(H, rows, i, head); }
    }
  }

  lemma ShapeAddsRows(
    H: Hash, ps: seq<Policy>, dbNow: int, kept: seq<Row>, added: seq<Row>, head: string, log: seq<Row>, nextId: int)
    requires Shape(H, ps, dbNow, kept, added, head, log, nextId)
    ensures added != []
  {}

  lemma {:induction false} BeforeFirst(
    H: Hash, say: Describe, ps: seq<Policy>, k: nat, now: int, dbNow: int, s: Progress)
    requires k <= |ps| && forall i | 0 <= i < k :: !Purgeable(ps[i])
    ensures PurgeAll(H, say, ps[..k], true, now, dbNow, s) == s && OldRows(ps, k, s.db.auditLog, dbNow) == s.db.auditLog
  {
    hide PurgeOne;
    if k > 0 {
      assert ps[..k][..k - 1] == ps[..k - 1];
      BeforeFirst(H, say, ps, k - 1, now, dbNow, s);
      NotPurgeable(H, say, ps[k - 1], true, now, dbNow, s);
    }
  }

  /** After k policies the log is what is left of the old rows, then a hanging chain of new ones. */
  lemma {:induction false} RunShape(
    H: Hash, say: Describe, ps: seq<Policy>, k: nat, now: int, dbNow: int, s: Progress)
    requires GoodChain(H, s.db.auditLog, s.nextId) && SaysRecent(say, ps, dbNow) && First(ps) < k <= |ps|
    ensures var end := PurgeAll(H, say, ps[..k], true, now, dbNow, s);
            var head := Head(CutBy(ps[First(ps)], s.db.auditLog, dbNow));
            exists added ::
              Shape(H, ps, dbNow, OldRows(ps, k, s.db.auditLog, dbNow), added, head, end.db.auditLog, end.nextId)
  {
    hide PurgeOne, Shape, CutBy, Audited, HeadHash, Head, Due;
    var f := First(ps);
    var before := PurgeAll(H, say, ps[..k - 1], true, now, dbNow, s);
    var end := PurgeOne(H, say, ps[k - 1], true, now, dbNow, before);
    assert ps[..k][..k - 1] == ps[..k - 1];
    assert PurgeAll(H, say, ps[..k], true, now, dbNow, s) == end;
    var log := s.db.auditLog;
    var head := Head(CutBy(ps[f], log, dbNow));
    if k - 1 == f {
      BeforeFirst(H, say, ps, f, now, dbNow, s);
      StartShape(H, say, ps, f, now, dbNow, s);
      assert OldRows(ps, k, log, dbNow) == CutBy(ps[f], log, dbNow);
    } else {
      RunShape(H, say, ps, k - 1, now, dbNow, s);
      var kept := OldRows(ps, k - 1, log, dbNow);
      var added :| Shape(H, ps, dbNow, kept, added, head, before.db.auditLog, before.nextId);
      LaterShape(H, say, ps, k - 1, kept, added, head, now, dbNow, before);
      assert OldRows(ps, k, log, dbNow) == CutBy(ps[k - 1], kept, dbNow);
    }
  }

  lemma StartShape(H: Hash, say: Describe, ps: seq<Policy>, f: nat, now: int, dbNow: int, s: Progress)
    requires GoodChain(H, s.db.auditLog, s.nextId) && SaysRecent(say, ps, dbNow) && f < |ps| && Purgeable(ps[f])
    ensures var kept := CutBy(ps[f], s.db.auditLog, dbNow);
            var end := PurgeOne(H, say, ps[f], true, now, dbNow, s);
            exists added :: Shape(H, ps, dbNow, kept, added, Head(kept), end.db.auditLog, end.nextId)
  {
    hide PurgeOne, CutBy, Audited, HeadHash, Due, CanonicalPayload, Shape, SaysRecent;
    var log := s.db.auditLog;
    OneOnLog(H, say, ps[f], now, dbNow, s);
    var m, d :| PurgeOne(H, say, ps[f], true, now, dbNow, s).db.auditLog
                == Audited(H, CutBy(ps[f], log, dbNow), s.nextId, say(ps[f], m, d));
    SayYoung(H, say, ps, dbNow, s.nextId, HeadHash(CutBy(ps[f], log, dbNow)), ps[f], m, d);
    FirstShape(H, ps, f, log, s.nextId, say(ps[f], m, d), dbNow);
  }

  lemma NotOnLog(p: Policy, log: seq<Row>, dbNow: int)
    requires !Purgeable(p)
    ensures CutBy(p, log, dbNow) == log
  {}

  lemma SayYoung(
    H: Hash, say: Describe, ps: seq<Policy>, dbNow: int, id: int, prev: string, p: Policy, m: nat, d: nat)
    requires SaysRecent(say, ps, dbNow)
    ensures AllYoung(ps, [NewRow(H, id, prev, say(p, m, d))], dbNow)
  {
    hide Due, CanonicalPayload;
    var r := NewRow(H, id, prev, say(p, m, d));
    forall i, x | 0 <= i < |ps| && OnLog(ps[i]) && x in [r] ensures !Due(ps[i], Seen(x), dbNow) {
      assert x == r && r.content == say(p, m, d);
    }
  }

  lemma LaterShape(
    H: Hash, say: Describe, ps: seq<Policy>, i: nat, kept: seq<Row>, added: seq<Row>, head: string,
    now: int, dbNow: int, s: Progress)
    requires i < |ps| && SaysRecent(say, ps, dbNow)
    requires Shape(H, ps, dbNow, kept, added, head, s.db.auditLog, s.nextId)
    ensures var after := PurgeOne(H, say, ps[i], true, now, dbNow, s);
            exists more :: Shape(H, ps, dbNow, CutBy(ps[i], kept, dbNow), more, head, after.db.auditLog, after.nextId)
  {
    hide PurgeOne, CutBy, Audited, HeadHash, Due, CanonicalPayload, Shape, SaysRecent;
    ShapeAddsRows(H, ps, dbNow, kept, added, head, s.db.auditLog, s.nextId);
    if Purgeable(ps[i]) {
      OneOnLog(H, say, ps[i], now, dbNow, s);
      var m, d :| PurgeOne(H, say, ps[i], true, now, dbNow, s).db.auditLog
                  == Audited(H, CutBy(ps[i], s.db.auditLog, dbNow), s.nextId, say(ps[i], m, d));
      var last := added[|added| - 1].rowHash;
      SayYoung(H, say, ps, dbNow, s.nextId, last, ps[i], m, d);
      NextShape(H, ps, i, kept, added, head, s.db.auditLog, s.nextId, say(ps[i], m, d), dbNow);
    } else {
      NotPurgeable(H, say, ps[i], true, now, dbNow, s);
      NotOnLog(ps[i], kept, dbNow);
      assert Shape(H, ps, dbNow, CutBy(ps[i], kept, dbNow), added, head, s.db.auditLog, s.nextId);
    }
  }

  // Which rows are left, and when what is left is intact.

  lemma {:induction false} OldRowsAre(ps: seq<Policy>, k: nat, log: seq<Row>, dbNow: int)
    requires First(ps) < k <= |ps|
    ensures var kept := CutBy(ps[First(ps)], log, dbNow);
      && (forall r | r in OldRows(ps, k, log, dbNow) :: r in kept)
      && (forall r, i | r in OldRows(ps, k, log, dbNow) && First(ps) < i < k && OnLog(ps[i]) ::
        !Due(ps[i], Seen(r), dbNow))
      && ((forall r, i | r in kept && First(ps) < i < k && OnLog(ps[i]) :: !Due(ps[i], Seen(r), dbNow)) ==>
            OldRows(ps, k, log, dbNow) == kept)
  {
    hide Due, RemainingLog, Seen;
    var f := First(ps);
    if k - 1 == f {
      UntilFirst(ps, f, log, dbNow);
    } else {
      OldRowsAre(ps, k - 1, log, dbNow);
      CutRows(ps[k - 1], OldRows(ps, k - 1, log, dbNow), dbNow);
      var kept := CutBy(ps[f], log, dbNow);
      if forall r, i | r in kept && f < i < k && OnLog(ps[i]) :: !Due(ps[i], Seen(r), dbNow) {
        if OnLog(ps[k - 1]) { NoneOfLog(ps[k - 1], kept, dbNow); }
      }
    }
  }

  lemma {:induction false} UntilFirst(ps: seq<Policy>, k: nat, log: seq<Row>, dbNow: int)
    requires k <= First(ps)
    ensures OldRows(ps, k, log, dbNow) == log
  {
    hide RemainingLog;
    if k > 0 { UntilFirst(ps, k - 1, log, dbNow); }
  }

  /** New rows hanging on an intact log make an intact log, and only that. */
  lemma HungIntactIff(H: Hash, log: seq<Row>, added: seq<Row>, head: string)
    requires Hung(H, added, head) && added != []
    ensures Intact(H, log + added) <==> Intact(H, log) && Head(log) == head
  {
    hide RowText;
    var all := log + added;
    assert forall k | 0 <= k < |log| :: all[k] == log[k] && PrevOf(all, k) == PrevOf(log, k);
    assert all[|log|] == added[0] && PrevOf(all, |log|) == Head(log) && HungAt(H, added, 0, head);
    if Intact(H, all) {
      assert Linked(H, all, |log|);
      forall k | 0 <= k < |log| ensures Linked(H, log, k) { assert Linked(H, all, k); }
    }
    if Intact(H, log) && Head(log) == head {
      forall k | 0 <= k < |all| ensures Linked(H, all, k) {
        if k < |log| { assert Linked(H, log, k); }
        else { assert HungAt(H, added, k - |log|, head); }
      }
    }
  }

  /** Of an intact log, a prefix and a selection with the same head have the same rows. */
  lemma SameHeadSameRows(H: Hash, log: seq<Row>, prefix: seq<Row>, kept: seq<Row>)
    requires Intact(H, log) && Ascending(log) && !HashBroken(H, Texts(log)) && prefix <= log
    requires Ascending(kept) && (forall r | r in kept :: r in log) && (forall r | r in prefix :: r in kept)
    requires Head(prefix) == Head(kept)
    ensures forall r | r in kept :: r in prefix
  {
    hide HashBroken, Intact, Texts;
    if kept != [] {
      var last := kept[|kept| - 1];
      assert last in log;
      var m :| 0 <= m < |log| && log[m] == last;
      assert Head(prefix) == PrevOf(log, |prefix|) && Head(kept) == PrevOf(log, m + 1);
      if |prefix| < m + 1 { HashesDistinct(H, log, |prefix|, m + 1); }
      if m + 1 < |prefix| { HashesDistinct(H, log, m + 1, |prefix|); }
      forall r | r in kept ensures r in prefix {
        var i :| 0 <= i < |kept| && kept[i] == r;
        var j :| 0 <= j < |log| && log[j] == r;
        assert r.id <= last.id && j <= m;
        assert prefix[j] == r;
      }
    }
  }

  /**
   With policies that purge the audit log: the chain is intact afterwards exactly when the
   first purgeable policy took at most a suffix of it and no later one anything.
   */
  lemma PurgedChainIntactIff(H: Hash, say: Describe, ps: seq<Policy>, now: int, dbNow: int, s: Progress)
    requires GoodChain(H, s.db.auditLog, s.nextId) && !HashBroken(H, Texts(s.db.auditLog)) && SaysRecent(say, ps, dbNow)
    ensures Intact(H, PurgeAll(H, say, ps, true, now, dbNow, s).db.auditLog) <==>
            OnlySuffixGoes(ps, s.db.auditLog, dbNow)
  {
    var log, f := s.db.auditLog, First(ps);
    assert ps[..|ps|] == ps;
    if f == |ps| {
      BeforeFirst(H, say, ps, |ps|, now, dbNow, s);
    } else {
      hide HashBroken, Intact, Texts, PurgeAll, CutBy, HeadHash, Head, Due, Seen, SaysRecent;
      var kept, left := CutBy(ps[f], log, dbNow), OldRows(ps, |ps|, log, dbNow);
      RunShape(H, say, ps, |ps|, now, dbNow, s);
      var end := PurgeAll(H, say, ps, true, now, dbNow, s);
      var added :| Shape(H, ps, dbNow, left, added, Head(kept), end.db.auditLog, end.nextId);
      HungIntactIff(H, left, added, Head(kept));
      OldRowsAre(ps, |ps|, log, dbNow);
      CutAscends(ps[f], log, dbNow);
      RearrangementIntactIffPrefix(H, log, left);
      if Intact(H, left) && Head(left) == Head(kept) {
        SameHeadSameRows(H, log, left, kept);
        assert left == kept;
      }
    }
  }

  // ---- the same purge, seen by the session protocol ------------------------------------------

  function TokenEntry(j: AuthSessions.Jti, r: AuthSessions.Record): Entry {
    Entry(j, Some(r.createdAt), r.revoked, Some(r.expiresAt), None)
  }

  /** The refresh-token policy takes exactly the records that the session protocol sees purged. */
  lemma TokenPurgeIsAfterPurge(settings: Settings, db: AuthSessions.Table, j: AuthSessions.Jti, dbNow: int)
    requires j in db
    ensures var window := if settings.internalDays > 0 then settings.internalDays * DAY else 0;
            Doomed(BuildPolicies(settings), RefreshTokens, TokenEntry(j, db[j]), dbNow)
            <==> j !in AuthSessions.AfterPurge(db, dbNow, window)
  {
    var ps := BuildPolicies(settings);
    var p := ps[1];
    assert p.table == RefreshTokens;
    assert Doomed(ps, RefreshTokens, TokenEntry(j, db[j]), dbNow) <==>
           Purgeable(p) && Due(p, TokenEntry(j, db[j]), dbNow);
  }

  // ---- what the repository's policies take ----------------------------------------------------

  /** Created more than so many days of 24 hours ago. */
  predicate OlderThan(e: Entry, days: int, dbNow: int) {
    e.createdAt.Some? && dbNow - e.createdAt.value > days * 86_400_000_000
  }

  /**
   Old access logs; old refresh tokens that are revoked or expired; old notifications that have
   been read; never a row of the audit log. A window that is not positive switches its policies off.
   */
  lemma BuiltPoliciesTake(settings: Settings, e: Entry, dbNow: int)
    ensures var ps := BuildPolicies(settings);
      && (Doomed(ps, PiiAccessLogs, e, dbNow) <==>
            settings.restrictedPiiDays > 0 && OlderThan(e, settings.restrictedPiiDays, dbNow))
      && (Doomed(ps, RefreshTokens, e, dbNow) <==>
            && settings.internalDays > 0 && OlderThan(e, settings.internalDays, dbNow)
            && (e.revoked || (e.expiresAt.Some? && e.expiresAt.value < dbNow)))
      && (Doomed(ps, Notifications, e, dbNow) <==>
            settings.internalDays > 0 && OlderThan(e, settings.internalDays, dbNow) && e.readAt.Some?)
      && !Doomed(ps, AuditLog, e, dbNow)
  {
    var ps := BuildPolicies(settings);
    assert ps[0].table == PiiAccessLogs && ps[1].table == RefreshTokens && ps[2].table == Notifications;
    assert ps[3].table == AuditLog;
    assert forall t :: Doomed(ps, t, e, dbNow) <==>
             || (t == PiiAccessLogs && Purgeable(ps[0]) && Due(ps[0], e, dbNow))
             || (t == RefreshTokens && Purgeable(ps[1]) && Due(ps[1], e, dbNow))
             || (t == Notifications && Purgeable(ps[2]) && Due(ps[2], e, dbNow));
  }

  lemma {:induction false} SurvivorsAre(ps: seq<Policy>, t: TableName, es: seq<Entry>, dbNow: int)
    ensures forall e :: e in Survivors(ps, t, es, dbNow) <==> e in es && !Doomed(ps, t, e, dbNow)
  {
    hide Doomed;
    if es != [] {
      var n := |es| - 1;
      assert es == es[..n] + [es[n]];
      SurvivorsAre(ps, t, es[..n], dbNow);
    }
  }

  /**
   A run of the repository's policies keeps every unread notification and every token that is neither revoked nor
   expired.
   */
  lemma UnreadAndLiveSurvive(
      H: Hash, say: Describe, settings: Settings, enabled: bool, now: int, dbNow: int, s: Progress, e: Entry)
    ensures var end := PurgeAll(H, say, BuildPolicies(settings), enabled, now, dbNow, s);
      && (e.readAt == None ==> (e in end.db.notifications <==> e in s.db.notifications))
      && (!e.revoked && (e.expiresAt.Some? ==> dbNow <= e.expiresAt.value) ==>
            (e in end.db.refreshTokens <==> e in s.db.refreshTokens))
  {
    var ps := BuildPolicies(settings);
    var end := PurgeAll(H, say, ps, enabled, now, dbNow, s);
    hide PurgeAll, Doomed, Survivors, BuildPolicies;
    PurgeExact(H, say, ps, enabled, now, dbNow, s, Notifications);
    PurgeExact(H, say, ps, enabled, now, dbNow, s, RefreshTokens);
    assert Rows(end.db, Notifications) == end.db.notifications && Rows(end.db, RefreshTokens) == end.db.refreshTokens;
    SurvivorsAre(ps, Notifications, s.db.notifications, dbNow);
    SurvivorsAre(ps, RefreshTokens, s.db.refreshTokens, dbNow);
    BuiltPoliciesTake(settings, e, dbNow);
  }

  // ---- a dry run forecasts ------------------------------------------------------------------------

  /** No two purgeable policies name the same table, and none the audit log. */
  ghost predicate ApartPolicies(ps: seq<Policy>) {
    && SparesAuditLog(ps)
    && forall i, j | 0 <= i < j < |ps| && Purgeable(ps[i]) && Purgeable(ps[j]) :: ps[i].table != ps[j].table
  }

  lemma BuiltPoliciesApart(settings: Settings)
    ensures ApartPolicies(BuildPolicies(settings))
  {}

  /** The count of a where clause is the number of rows it holds for. */
  lemma {:induction false} MatchingIs(p: Policy, es: seq<Entry>, dbNow: int)
    ensures Matching(p, es, dbNow) == |set i | 0 <= i < |es| && Due(p, es[i], dbNow)|
  {
    hide Due;
    var all := set i | 0 <= i < |es| && Due(p, es[i], dbNow);
    if es == [] {
      assert all == {};
    } else {
      var n := |es| - 1;
      var before := set i | 0 <= i < n && Due(p, es[..n][i], dbNow);
      MatchingIs(p, es[..n], dbNow);
      assert before == set i | 0 <= i < n && Due(p, es[i], dbNow);
      if Due(p, es[n], dbNow) { assert all == before + {n}; } else { assert all == before; }
    }
  }

  /** Without a policy on the table nothing is taken from it. */
  lemma {:induction false} UnnamedKept(ps: seq<Policy>, t: TableName, es: seq<Entry>, dbNow: int)
    requires forall i | 0 <= i < |ps| && Purgeable(ps[i]) :: ps[i].table != t
    ensures Survivors(ps, t, es, dbNow) == es
  {
    if es != [] { UnnamedKept(ps, t, es[..|es| - 1], dbNow); }
  }

  /**
   With policies on different tables a dry run counts, policy by policy, exactly what an enabled
   run of the same moment deletes; and each count is of the rows the table held at the start.
   */
  lemma {:induction false} DryRunForecasts(H: Hash, say: Describe, ps: seq<Policy>, now: int, dbNow: int, s: Progress)
    requires ApartPolicies(ps)
    ensures var dry, wet := PurgeAll(H, say, ps, false, now, dbNow, s), PurgeAll(H, say, ps, true, now, dbNow, s);
      && |dry.lines| == |wet.lines| == |s.lines| + PurgeableCount(ps)
      && (forall i | |s.lines| <= i < |dry.lines| ::
            && dry.lines[i].(deleted := dry.lines[i].matched, dryRun := false) == wet.lines[i])
      && (ps != [] && Purgeable(ps[|ps| - 1]) ==>
            var p, line := ps[|ps| - 1], dry.lines[|dry.lines| - 1];
            && line.policy == p.name && line.table == p.table && line.cutoff == now - p.days * DAY
            && line.matched == Matching(p, Rows(s.db, p.table), dbNow))
  {
    hide Matching, Deleted, Audited, Rows, Survivors, Due;
    PurgeReported(H, say, ps, false, now, dbNow, s);
    PurgeReported(H, say, ps, true, now, dbNow, s);
    if ps != [] {
      var n := |ps| - 1;
      var first, p := ps[..n], ps[n];
      assert ApartPolicies(first);
      DryRunForecasts(H, say, first, now, dbNow, s);
      if Purgeable(p) {
        assert forall i | 0 <= i < n && Purgeable(first[i]) :: first[i].table != p.table;
        PurgeExact(H, say, first, false, now, dbNow, s, p.table);
        PurgeExact(H, say, first, true, now, dbNow, s, p.table);
        UnnamedKept(first, p.table, Rows(s.db, p.table), dbNow);
      }
    }
  }
}
