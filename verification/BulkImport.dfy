/**
 Bulk import of athletes: a dry run that validates every row against the database as
 it is, and a commit that registers the rows one after the other.
 */
module BulkImport {
  import opened Prelude
  import opened Registration

  /**
   A parsed row: its sheet row, the request unless the schema refused it, and whether its file references are
   allowed.
   */
  datatype Row = Row(sheetRow: nat, request: Option<Request>, filesAllowed: bool)

  datatype RowResult = RowResult(sheetRow: nat, ok: bool, enrollId: Option<Id>, error: Option<Rejection>)

  datatype Report = Report(committed: bool, total: nat, valid: nat, invalid: int, created: nat, rows: seq<RowResult>)

  function Valid(rs: seq<RowResult>): nat {
    if rs == [] then 0 else Valid(rs[..|rs| - 1]) + (if rs[|rs| - 1].ok then 1 else 0)
  }

  // ---- committing, as a fold of single registrations ----------------------------------

  datatype Store = Store(db: Tables, ids: Sequences)

  function CommitRow(cfg: Config, s: Store, row: Row, today: Date): Store {
    if row.request == None then s
    else Store(AfterRegister(cfg, s.db, s.ids, row.request.value, row.filesAllowed, today),
               IdsAfterRegister(cfg, s.db, s.ids, row.request.value, row.filesAllowed, today))
  }

  function CommitRows(cfg: Config, s: Store, rows: seq<Row>, today: Date): Store {
    if rows == [] then s
    else CommitRow(cfg, CommitRows(cfg, s, rows[..|rows| - 1], today), rows[|rows| - 1], today)
  }

  predicate CommitAccepts(cfg: Config, s: Store, rows: seq<Row>, n: nat, today: Date)
    requires n < |rows|
  {
    var before := CommitRows(cfg, s, rows[..n], today);
    rows[n].request.Some?
      && RegisterResult(cfg, before.db, before.ids, rows[n].request.value, rows[n].filesAllowed, today).Ok?
  }

  predicate DryRunAccepts(cfg: Config, db: Tables, row: Row, today: Date) {
    row.request.Some? && Validate(cfg, db, row.request.value, today) == None
  }

  /**
   The line of the report on row n: its enrollment, or what refused it; a row the schema refused carries no
   rejection.
   */
  function LineOf(cfg: Config, s: Store, rows: seq<Row>, n: nat, today: Date, commit: bool): RowResult
    requires n < |rows|
  {
    var row := rows[n];
    var before := if commit then CommitRows(cfg, s, rows[..n], today) else s;
    if row.request == None then RowResult(row.sheetRow, false, None, None)
    else if commit then
      match RegisterResult(cfg, before.db, before.ids, row.request.value, row.filesAllowed, today)
      case Ok(id) => RowResult(row.sheetRow, true, Some(id), None)
      case Err(e) => RowResult(row.sheetRow, false, None, Some(e))
    else
      var refusal := Validate(cfg, s.db, row.request.value, today);
      RowResult(row.sheetRow, refusal == None, None, refusal)
  }

  /** The importer's loop over one session. */
  method Run(session: Session, rows: seq<Row>, today: Date, commit: bool) returns (report: Report)
    requires session.db == session.committed
    modifies session
    ensures session.db == session.committed
    ensures !commit ==> session.db == old(session.db) && session.ids == old(session.ids)
    ensures commit ==>
              Store(session.db, session.ids)
              == CommitRows(session.cfg, old(Store(session.db, session.ids)), rows, today)
    ensures |report.rows| == |rows| && forall n | 0 <= n < |rows| :: report.rows[n].sheetRow == rows[n].sheetRow
    ensures forall n | 0 <= n < |rows| :: report.rows[n].ok ==
              if commit then CommitAccepts(session.cfg, old(Store(session.db, session.ids)), rows, n, today)
              else DryRunAccepts(session.cfg, old(session.db), rows[n], today)
    ensures forall n | 0 <= n < |rows| ::
              report.rows[n] == LineOf(session.cfg, old(Store(session.db, session.ids)), rows, n, today, commit)
    ensures report.total == |rows| && report.valid == Valid(report.rows)
    ensures report.total == report.valid + report.invalid
    ensures report.created == if commit then report.valid else 0
    ensures report.committed == commit
  {
    hide Validate, AfterRegister, IdsAfterRegister, RegisterResult;
    var results: seq<RowResult> := [];
    var created := 0;
    ghost var start := Store(session.db, session.ids);
    for i := 0 to |rows|
      invariant |results| == i && forall n | 0 <= n < i :: results[n].sheetRow == rows[n].sheetRow
      invariant session.db == session.committed
      invariant !commit ==> session.db == start.db && session.ids == start.ids
      invariant commit ==> Store(session.db, session.ids) == CommitRows(session.cfg, start, rows[..i], today)
      invariant forall n | 0 <= n < i :: results[n].ok ==
                  if commit then CommitAccepts(session.cfg, start, rows, n, today)
                  else DryRunAccepts(session.cfg, start.db, rows[n], today)
      invariant forall n | 0 <= n < i :: results[n] == LineOf(session.cfg, start, rows, n, today, commit)
      invariant created == if commit then Valid(results) else 0
    {
      var row := rows[i];
      assert rows[..i + 1][..i] == rows[..i];
      var outcome := RowResult(row.sheetRow, false, None, None);
      if row.request.Some? {
        if commit {
          var r := session.Execute(row.request.value, row.filesAllowed, today);
          match r {
            case Ok(id) =>
              outcome := RowResult(row.sheetRow, true, Some(id), None);
              created := created + 1;
            case Err(e) => outcome := outcome.(error := Some(e));
          }
        } else {
          var verdict := Validate(session.cfg, session.db, row.request.value, today);
          if verdict == None { outcome := outcome.(ok := true); }
          else {
            outcome := outcome.(error := verdict);
            session.Rollback();
          }
        }
      }
      assert (results + [outcome])[..i] == results;
      results := results + [outcome];
    }
    assert rows[..|rows|] == rows;
    var valid := Valid(results);
    report := Report(commit, |results|, valid, |results| - valid, created, results);
  }

  // ---- the dry run bounds the commit -----------------------------------------------------

  function SomeIds(ids: Sequences, athlete: bool): Sequences {
    if athlete then ids.(enroll := ids.enroll + 1, athlete := ids.athlete + 1, athletePart := ids.athletePart + 1)
    else ids.(enroll := ids.enroll + 1, leader := ids.leader + 1, leaderPart := ids.leaderPart + 1)
  }

  lemma AthleteExtends(db: Tables, ids: Sequences, r: Request)
    requires WellKept(db, ids)
    ensures Extends(db, WithAthlete(db, ids, r)) && WellKept(WithAthlete(db, ids, r), SomeIds(ids, true))
  {}

  lemma LeaderExtends(db: Tables, ids: Sequences, r: Request)
    requires WellKept(db, ids)
    ensures Extends(db, WithLeader(db, ids, r)) && WellKept(WithLeader(db, ids, r), SomeIds(ids, false))
  {}

  /** Ids that a rollback leaves unused. */
  lemma SkippedIds(db: Tables, ids: Sequences)
    requires WellKept(db, ids)
    ensures WellKept(db, ids.(enroll := ids.enroll + 1))
    ensures WellKept(db, ids.(enroll := ids.enroll + 1, leader := ids.leader + 1))
  {}

  lemma RegisterExtends(cfg: Config, db: Tables, ids: Sequences, r: Request, filesAllowed: bool, today: Date)
    requires WellKept(db, ids)
    ensures Extends(db, AfterRegister(cfg, db, ids, r, filesAllowed, today))
    ensures WellKept(AfterRegister(cfg, db, ids, r, filesAllowed, today),
              IdsAfterRegister(cfg, db, ids, r, filesAllowed, today))
  {
    hide Validate, WithAthlete, WithLeader, WellKept, Extends;
    AthleteExtends(db, ids, r);
    LeaderExtends(db, ids, r);
    SkippedIds(db, ids);
    ExtendsSelf(db);
  }

  lemma ExtendsTransitive(a: Tables, b: Tables, c: Tables)
    requires Extends(a, b) && Extends(b, c)
    ensures Extends(a, c)
  {}

  lemma {:induction false} CommitExtends(cfg: Config, s: Store, rows: seq<Row>, today: Date)
    requires WellKept(s.db, s.ids)
    ensures var t := CommitRows(cfg, s, rows, today); Extends(s.db, t.db) && WellKept(t.db, t.ids)
  {
    hide AfterRegister, IdsAfterRegister, WellKept;
    if rows == [] {
      ExtendsSelf(s.db);
    } else {
      hide Extends;
      var before := rows[..|rows| - 1];
      CommitExtends(cfg, s, before, today);
      var t := CommitRows(cfg, s, before, today);
      var row := rows[|rows| - 1];
      if row.request.Some? {
        RegisterExtends(cfg, t.db, t.ids, row.request.value, row.filesAllowed, today);
        ExtendsTransitive(s.db, t.db, CommitRows(cfg, s, rows, today).db);
      }
    }
  }

  lemma ExtendsSelf(db: Tables)
    ensures Extends(db, db)
  {}

  /** Every row a commit accepts, the dry run accepts. */
  lemma DryRunBoundsCommit(cfg: Config, s: Store, rows: seq<Row>, n: nat, today: Date)
    requires WellKept(s.db, s.ids) && n < |rows| && CommitAccepts(cfg, s, rows, n, today)
    ensures DryRunAccepts(cfg, s.db, rows[n], today)
  {
    hide Validate, WellKept, Extends;
    CommitExtends(cfg, s, rows[..n], today);
    ValidateMonotone(cfg, s.db, CommitRows(cfg, s, rows[..n], today).db, rows[n].request.value, today);
  }

  /** A row the commit refuses though the dry run accepted it has an accepted row of the same file before it. */
  lemma RefusedOnlyByEarlierRows(cfg: Config, s: Store, rows: seq<Row>, n: nat, today: Date)
    requires n < |rows| && rows[n].filesAllowed && rows[n].request.Some? && rows[n].request.value.role == Athlete
    requires DryRunAccepts(cfg, s.db, rows[n], today) && !CommitAccepts(cfg, s, rows, n, today)
    ensures exists m :: 0 <= m < n && CommitAccepts(cfg, s, rows, m, today)
  {
    hide Validate;
    if forall m | 0 <= m < n :: !CommitAccepts(cfg, s, rows, m, today) {
      NothingAccepted(cfg, s, rows, n, today);
    }
  }

  lemma {:induction false} NothingAccepted(cfg: Config, s: Store, rows: seq<Row>, n: nat, today: Date)
    requires n <= |rows| && forall m | 0 <= m < n :: !CommitAccepts(cfg, s, rows, m, today)
    ensures CommitRows(cfg, s, rows[..n], today).db == s.db
  {
    hide Validate;
    if n > 0 {
      NothingAccepted(cfg, s, rows, n - 1, today);
      assert rows[..n][..n - 1] == rows[..n - 1];
      assert !CommitAccepts(cfg, s, rows, n - 1, today);
    }
  }

  // ---- which rule turned, and on account of which row ------------------------------------------

  /** Whether registering `q` counts against the rule that refused `r`. */
  predicate CountsAgainst(rule: Rejection, q: Request, r: Request) {
    match rule
    case CapReached => q.event == r.event
    case QuotaFull => q.role == Athlete && q.event == r.event && q.sport == r.sport && q.org == r.org
    case TeamFull => q.role == Athlete && q.team == r.team
    case DuplicateSuspect => q.event == r.event && q.person == r.person
    case _ => false
  }

  /** What the rule looks at is the same in both tables, or less in the second. */
  ghost predicate NoStricter(rule: Rejection, before: Tables, after: Tables, r: Request) {
    match rule
    case CapReached => EventCount(after, r.event) == EventCount(before, r.event)
    case QuotaFull => |PartsOfOrg(after, r.event, r.sport, r.org)| == |PartsOfOrg(before, r.event, r.sport, r.org)|
    case TeamFull => r.team.Some? ==> |Members(after, r.team.value)| == |Members(before, r.team.value)|
    case DuplicateSuspect => Duplicate(after, r) ==> Duplicate(before, r)
    case _ => true
  }

  lemma AthleteNoStricter(rule: Rejection, db: Tables, ids: Sequences, q: Request, r: Request)
    requires WellKept(db, ids) && q.role == Athlete && !CountsAgainst(rule, q, r)
    ensures NoStricter(rule, db, WithAthlete(db, ids, q), r)
  {
    var after := WithAthlete(db, ids, q);
    match rule
    case CapReached =>
      assert PartsOfEvent(after, r.event) == PartsOfEvent(db, r.event);
      assert LeadersOfEvent(after, r.event) == LeadersOfEvent(db, r.event);
    case QuotaFull => assert PartsOfOrg(after, r.event, r.sport, r.org) == PartsOfOrg(db, r.event, r.sport, r.org);
    case TeamFull => if r.team.Some? { assert Members(after, r.team.value) == Members(db, r.team.value); }
    case DuplicateSuspect => if Duplicate(after, r) { AthleteDuplicates(db, ids, q, r); }
    case _ =>
  }

  lemma LeaderNoStricter(rule: Rejection, db: Tables, ids: Sequences, q: Request, r: Request)
    requires WellKept(db, ids) && q.role == Leader && !CountsAgainst(rule, q, r)
    ensures NoStricter(rule, db, WithLeader(db, ids, q), r)
  {
    var after := WithLeader(db, ids, q);
    match rule
    case CapReached =>
      assert PartsOfEvent(after, r.event) == PartsOfEvent(db, r.event);
      assert LeadersOfEvent(after, r.event) == LeadersOfEvent(db, r.event);
    case QuotaFull => assert PartsOfOrg(after, r.event, r.sport, r.org) == PartsOfOrg(db, r.event, r.sport, r.org);
    case TeamFull => if r.team.Some? { assert Members(after, r.team.value) == Members(db, r.team.value); }
    case DuplicateSuspect => if Duplicate(after, r) { LeaderDuplicates(db, ids, q, r); }
    case _ =>
  }

  lemma AthleteDuplicates(db: Tables, ids: Sequences, q: Request, r: Request)
    requires WellKept(db, ids) && Duplicate(WithAthlete(db, ids, q), r) && !(q.event == r.event && q.person == r.person)
    ensures Duplicate(db, r)
  {
    var after := WithAthlete(db, ids, q);
    if p :| p in after.athleteParts && after.athleteParts[p].event == r.event
            && AthleteIs(after, after.athleteParts[p], r.person) {
      assert p != ids.athletePart && AthleteIs(db, db.athleteParts[p], r.person);
    } else {
      var p :| p in after.leaderParts && after.leaderParts[p].event == r.event
               && LeaderIs(after, after.leaderParts[p], r.person);
      assert LeaderIs(db, db.leaderParts[p], r.person);
    }
  }

  lemma LeaderDuplicates(db: Tables, ids: Sequences, q: Request, r: Request)
    requires WellKept(db, ids) && Duplicate(WithLeader(db, ids, q), r) && !(q.event == r.event && q.person == r.person)
    ensures Duplicate(db, r)
  {
    var after := WithLeader(db, ids, q);
    if p :| p in after.athleteParts && after.athleteParts[p].event == r.event
            && AthleteIs(after, after.athleteParts[p], r.person) {
      assert AthleteIs(db, db.athleteParts[p], r.person);
    } else {
      var p :| p in after.leaderParts && after.leaderParts[p].event == r.event
               && LeaderIs(after, after.leaderParts[p], r.person);
      assert p != ids.leaderPart && LeaderIs(db, db.leaderParts[p], r.person);
    }
  }

  /** Rows that do not count against a rule leave it no stricter. */
  lemma {:induction false} UncountedNoStricter(
    cfg: Config, s: Store, rows: seq<Row>, n: nat, today: Date, rule: Rejection, r: Request)
    requires WellKept(s.db, s.ids) && n <= |rows|
    requires forall m | 0 <= m < n && CommitAccepts(cfg, s, rows, m, today) ::
               !CountsAgainst(rule, rows[m].request.value, r)
    ensures NoStricter(rule, s.db, CommitRows(cfg, s, rows[..n], today).db, r)
  {
    hide Validate, WellKept, Extends, CountsAgainst, EventCount, PartsOfOrg, Members, Duplicate;
    if n > 0 {
      hide NoStricter;
      UncountedNoStricter(cfg, s, rows, n - 1, today, rule, r);
      assert rows[..n][..n - 1] == rows[..n - 1];
      CommitExtends(cfg, s, rows[..n - 1], today);
      var t := CommitRows(cfg, s, rows[..n - 1], today);
      if CommitAccepts(cfg, s, rows, n - 1, today) {
        var q := rows[n - 1].request.value;
        if q.role == Athlete { AthleteNoStricter(rule, t.db, t.ids, q, r); }
        else { LeaderNoStricter(rule, t.db, t.ids, q, r); }
        NoStricterTransitive(rule, s.db, t.db, CommitRows(cfg, s, rows[..n], today).db, r);
      } else {
        RefusedChangesNothing(cfg, s, rows, n - 1, today);
      }
    }
  }

  lemma NoStricterTransitive(rule: Rejection, a: Tables, b: Tables, c: Tables, r: Request)
    requires NoStricter(rule, a, b, r) && NoStricter(rule, b, c, r)
    ensures NoStricter(rule, a, c, r)
  {
    hide EventCount, PartsOfOrg, Members, Duplicate;
  }

  lemma RefusedChangesNothing(cfg: Config, s: Store, rows: seq<Row>, m: nat, today: Date)
    requires m < |rows| && !CommitAccepts(cfg, s, rows, m, today)
    ensures CommitRows(cfg, s, rows[..m + 1], today).db == CommitRows(cfg, s, rows[..m], today).db
  {
    hide Validate;
    assert rows[..m + 1][..m] == rows[..m];
  }

  /**
   Once accepted, only the four counting rules can refuse over more registrations, and only where they got stricter.
   */
  lemma TurnedRule(cfg: Config, few: Tables, many: Tables, r: Request, today: Date)
    requires Extends(few, many) && Validate(cfg, few, r, today) == None && Validate(cfg, many, r, today).Some?
    ensures var rule := Validate(cfg, many, r, today).value;
            rule in {CapReached, QuotaFull, TeamFull, DuplicateSuspect} && !NoStricter(rule, few, many, r)
  {
    hide EventCount, PartsOfOrg, Members, Duplicate, AgeAllowed, DocumentsGiven, ConsentGiven;
  }

  /**
   An athlete row the dry run accepts and the commit refuses is refused by the cap, a quota, a
   full team or as a duplicate, and an accepted row before it counts against that very rule.
   */
  lemma RefusedByRule(cfg: Config, s: Store, rows: seq<Row>, n: nat, today: Date)
    requires WellKept(s.db, s.ids) && n < |rows| && rows[n].filesAllowed
    requires rows[n].request.Some? && rows[n].request.value.role == Athlete
    requires DryRunAccepts(cfg, s.db, rows[n], today) && !CommitAccepts(cfg, s, rows, n, today)
    ensures var r := rows[n].request.value;
            var refusal := Validate(cfg, CommitRows(cfg, s, rows[..n], today).db, r, today);
      && refusal.Some? && refusal.value in {CapReached, QuotaFull, TeamFull, DuplicateSuspect}
      && exists m :: 0 <= m < n && CommitAccepts(cfg, s, rows, m, today)
           && CountsAgainst(refusal.value, rows[m].request.value, r)
  {
    hide Validate, WellKept, Extends, CountsAgainst, NoStricter;
    var r := rows[n].request.value;
    var after := CommitRows(cfg, s, rows[..n], today).db;
    CommitExtends(cfg, s, rows[..n], today);
    TurnedRule(cfg, s.db, after, r, today);
    var rule := Validate(cfg, after, r, today).value;
    if forall m | 0 <= m < n && CommitAccepts(cfg, s, rows, m, today) ::
      !CountsAgainst(rule, rows[m].request.value, r) {
      UncountedNoStricter(cfg, s, rows, n, today, rule, r);
    }
  }
}
