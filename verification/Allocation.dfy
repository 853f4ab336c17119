/**
 The limits that registration and teams allocate against, kept by every run of
 register, bulk import, delete, and team create, add, remove and delete.
 */
module Allocation {
  import opened Prelude
  import opened Registration
  import opened Teams
  import opened BulkImport

  ghost predicate CapsHold(cfg: Config, db: Tables) {
    forall e | e in cfg.events && cfg.events[e].cap.Some? :: EventCount(db, e) <= cfg.events[e].cap.value
  }

  ghost predicate AthleteQuotasHold(cfg: Config, db: Tables) {
    forall e, s, o | (e, s) in cfg.sports && cfg.sports[(e, s)].athleteQuota.Some? ::
      |PartsOfOrg(db, e, s, o)| <= cfg.sports[(e, s)].athleteQuota.value
  }

  ghost predicate TeamQuotasHold(cfg: Config, db: Tables) {
    forall e, s, o | (e, s) in cfg.sports && cfg.sports[(e, s)].teamQuota.Some? ::
      |TeamsOf(db, e, s, o)| <= cfg.sports[(e, s)].teamQuota.value
  }

  ghost predicate Matches(db: Tables, p: AthletePart) {
    p.team.Some? ==>
      && p.team.value in db.teams
      && var t := db.teams[p.team.value];
         p.event == t.event && p.sport == t.sport && p.org == t.org && (t.category.Some? ==> p.category == t.category)
  }

  ghost predicate MembersMatch(db: Tables) {
    forall p | p in db.athleteParts :: Matches(db, db.athleteParts[p])
  }

  /** The larger of the two maxima a team is filled under, when the sport sets one. */
  function TeamBound(cfg: Config, team: Team): Option<int> {
    match SizeMax(cfg, team)
    case None => None
    case Some(m) =>
      if team.category.Some? && team.category.value in cfg.categories
        && cfg.categories[team.category.value].teamSizeMax.Some?
         && cfg.categories[team.category.value].teamSizeMax.value > m
      then cfg.categories[team.category.value].teamSizeMax else Some(m)
  }

  ghost predicate TeamSizesHold(cfg: Config, db: Tables) {
    forall t | t in db.teams && TeamBound(cfg, db.teams[t]).Some? ::
      |Members(db, t)| <= TeamBound(cfg, db.teams[t]).value || Members(db, t) == {}
  }

  ghost predicate LimitsHold(cfg: Config, db: Tables) {
    CapsHold(cfg, db) && AthleteQuotasHold(cfg, db) && TeamQuotasHold(cfg, db) && MembersMatch(db)
      && TeamSizesHold(cfg, db)
  }

  // ---- one more, one fewer -------------------------------------------------------------

  lemma OneMore(after: set<Id>, before: set<Id>, p: Id)
    requires after <= before + {p}
    ensures |after| <= |before| + 1
  {
    SubsetSmaller(after, before + {p});
    assert |before + {p}| <= |before| + 1;
  }

  /** The tables with one new athlete participation under an unused id. */
  ghost predicate AddsPart(db: Tables, after: Tables, p: Id, part: AthletePart) {
    p !in db.athleteParts && after.athleteParts == db.athleteParts[p := part]
    && after.leaderParts == db.leaderParts && after.teams == db.teams
  }

  lemma CapsAfterPart(cfg: Config, db: Tables, after: Tables, p: Id, part: AthletePart)
    requires CapsHold(cfg, db) && AddsPart(db, after, p, part) && part.event in cfg.events
    requires cfg.events[part.event].cap.Some? ==> EventCount(db, part.event) < cfg.events[part.event].cap.value
    ensures CapsHold(cfg, after)
  {
    forall e | e in cfg.events && cfg.events[e].cap.Some? ensures EventCount(after, e) <= cfg.events[e].cap.value {
      assert LeadersOfEvent(after, e) == LeadersOfEvent(db, e);
      if e == part.event { OneMore(PartsOfEvent(after, e), PartsOfEvent(db, e), p); }
      else { assert PartsOfEvent(after, e) == PartsOfEvent(db, e); }
    }
  }

  lemma QuotasAfterPart(cfg: Config, db: Tables, after: Tables, p: Id, part: AthletePart)
    requires AthleteQuotasHold(cfg, db) && AddsPart(db, after, p, part)
    requires (part.event, part.sport) in cfg.sports && cfg.sports[(part.event, part.sport)].athleteQuota.Some? ==>
               |PartsOfOrg(db, part.event, part.sport, part.org)|
               < cfg.sports[(part.event, part.sport)].athleteQuota.value
    ensures AthleteQuotasHold(cfg, after)
  {
    forall e, s, o | (e, s) in cfg.sports && cfg.sports[(e, s)].athleteQuota.Some?
      ensures |PartsOfOrg(after, e, s, o)| <= cfg.sports[(e, s)].athleteQuota.value
    {
      if e == part.event && s == part.sport && o == part.org {
        OneMore(PartsOfOrg(after, e, s, o), PartsOfOrg(db, e, s, o), p);
      }
      else { assert PartsOfOrg(after, e, s, o) == PartsOfOrg(db, e, s, o); }
    }
  }

  lemma TeamsAfterPart(cfg: Config, db: Tables, after: Tables, p: Id, part: AthletePart)
    requires TeamQuotasHold(cfg, db) && MembersMatch(db) && AddsPart(db, after, p, part) && Matches(db, part)
    ensures TeamQuotasHold(cfg, after) && MembersMatch(after)
  {
    forall e, s, o | (e, s) in cfg.sports && cfg.sports[(e, s)].teamQuota.Some?
      ensures |TeamsOf(after, e, s, o)| <= cfg.sports[(e, s)].teamQuota.value
    {
      assert TeamsOf(after, e, s, o) == TeamsOf(db, e, s, o);
    }
  }

  lemma SizesAfterPart(cfg: Config, db: Tables, after: Tables, p: Id, part: AthletePart)
    requires TeamSizesHold(cfg, db) && AddsPart(db, after, p, part)
    requires part.team.Some? ==> part.team.value in db.teams
    requires part.team.Some? && TeamBound(cfg, db.teams[part.team.value]).Some? ==>
               |Members(db, part.team.value)| < TeamBound(cfg, db.teams[part.team.value]).value
    ensures TeamSizesHold(cfg, after)
  {
    forall t | t in after.teams && TeamBound(cfg, after.teams[t]).Some?
      ensures |Members(after, t)| <= TeamBound(cfg, after.teams[t]).value || Members(after, t) == {}
    {
      if part.team == Some(t) { OneMore(Members(after, t), Members(db, t), p); }
      else { assert Members(after, t) == Members(db, t); }
    }
  }

  // ---- registering --------------------------------------------------------------------------

  /** What the passed rules say about the limits, whatever else they say. */
  lemma RulesPassed(cfg: Config, db: Tables, r: Request, today: Date)
    requires Validate(cfg, db, r, today) == None
    ensures r.event in cfg.events
    ensures (cfg.events[r.event].cap.Some? ==> EventCount(db, r.event) < cfg.events[r.event].cap.value)
    ensures r.role == Athlete && (r.event, r.sport) in cfg.sports
              && cfg.sports[(r.event, r.sport)].athleteQuota.Some? ==>
              |PartsOfOrg(db, r.event, r.sport, r.org)| < cfg.sports[(r.event, r.sport)].athleteQuota.value
    ensures r.role == Athlete && r.team.Some? ==>
              && r.team.value in db.teams && r.category.Some? && r.category.value in cfg.categories
              && db.teams[r.team.value].event == r.event && db.teams[r.team.value].sport == r.sport
              && db.teams[r.team.value].org == r.org && db.teams[r.team.value].category == r.category
              && cfg.categories[r.category.value].teamSizeMax.Some?
              && |Members(db, r.team.value)| < cfg.categories[r.category.value].teamSizeMax.value
  {
    hide EventCount, PartsOfOrg, Members, Duplicate, AgeAllowed, DocumentsGiven, ConsentGiven;
  }

  lemma AthleteKeepsLimits(cfg: Config, db: Tables, ids: Sequences, r: Request, today: Date)
    requires LimitsHold(cfg, db) && WellKept(db, ids) && Validate(cfg, db, r, today) == None && r.role == Athlete
    ensures LimitsHold(cfg, WithAthlete(db, ids, r))
  {
    var part := AthletePart(Some(ids.athlete), r.event, r.sport, r.category, r.org, r.team);
    var after := WithAthlete(db, ids, r);
    RulesPassed(cfg, db, r, today);
    assert AddsPart(db, after, ids.athletePart, part);
    hide Validate, CapsHold, AthleteQuotasHold, TeamQuotasHold, TeamSizesHold, MembersMatch, EventCount, PartsOfOrg,
      Members;
    CapsAfterPart(cfg, db, after, ids.athletePart, part);
    QuotasAfterPart(cfg, db, after, ids.athletePart, part);
    TeamsAfterPart(cfg, db, after, ids.athletePart, part);
    SizesAfterPart(cfg, db, after, ids.athletePart, part);
  }

  /** Only leader participations differ. */
  lemma LeaderAside(cfg: Config, db: Tables, after: Tables)
    requires LimitsHold(cfg, db) && after.athleteParts == db.athleteParts && after.teams == db.teams
    ensures AthleteQuotasHold(cfg, after) && TeamQuotasHold(cfg, after) && MembersMatch(after)
    ensures TeamSizesHold(cfg, after)
  {
    assert forall e, s, o :: PartsOfOrg(after, e, s, o) == PartsOfOrg(db, e, s, o);
    assert forall e, s, o :: TeamsOf(after, e, s, o) == TeamsOf(db, e, s, o);
    assert forall t :: Members(after, t) == Members(db, t);
  }

  lemma LeaderKeepsLimits(cfg: Config, db: Tables, ids: Sequences, r: Request, today: Date)
    requires LimitsHold(cfg, db) && WellKept(db, ids) && Validate(cfg, db, r, today) == None
    ensures LimitsHold(cfg, WithLeader(db, ids, r))
  {
    var after := WithLeader(db, ids, r);
    RulesPassed(cfg, db, r, today);
    LeaderAside(cfg, db, after);
    hide Validate, AthleteQuotasHold, TeamQuotasHold, MembersMatch, TeamSizesHold;
    forall e | e in cfg.events && cfg.events[e].cap.Some? ensures EventCount(after, e) <= cfg.events[e].cap.value {
      assert PartsOfEvent(after, e) == PartsOfEvent(db, e);
      if e == r.event { OneMore(LeadersOfEvent(after, e), LeadersOfEvent(db, e), ids.leaderPart); }
      else { assert LeadersOfEvent(after, e) == LeadersOfEvent(db, e); }
    }
  }

  lemma RegisterKeepsLimits(cfg: Config, db: Tables, ids: Sequences, r: Request, filesAllowed: bool, today: Date)
    requires LimitsHold(cfg, db) && WellKept(db, ids)
    ensures LimitsHold(cfg, AfterRegister(cfg, db, ids, r, filesAllowed, today))
  {
    hide Validate, LimitsHold, WithAthlete, WithLeader, WellKept;
    if RegisterResult(cfg, db, ids, r, filesAllowed, today).Ok? {
      if r.role == Athlete {
        AthleteKeepsLimits(cfg, db, ids, r, today);
      } else {
        LeaderKeepsLimits(cfg, db, ids, r, today);
      }
    }
  }

  lemma {:induction false} ImportKeepsLimits(cfg: Config, s: Store, rows: seq<Row>, today: Date)
    requires LimitsHold(cfg, s.db) && WellKept(s.db, s.ids)
    ensures LimitsHold(cfg, CommitRows(cfg, s, rows, today).db)
    ensures WellKept(CommitRows(cfg, s, rows, today).db, CommitRows(cfg, s, rows, today).ids)
  {
    hide Validate, LimitsHold, WellKept, AfterRegister, IdsAfterRegister;
    if rows != [] {
      var before := rows[..|rows| - 1];
      ImportKeepsLimits(cfg, s, before, today);
      var t := CommitRows(cfg, s, before, today);
      var row := rows[|rows| - 1];
      if row.request.Some? {
        RegisterKeepsLimits(cfg, t.db, t.ids, row.request.value, row.filesAllowed, today);
        RegisterExtends(cfg, t.db, t.ids, row.request.value, row.filesAllowed, today);
      }
    }
  }

  // ---- removing, and changes of team -----------------------------------------------------------

  /** No row is new; a participation may only leave its team. */
  ghost predicate OnlyLoses(db: Tables, after: Tables) {
    && (forall p | p in after.athleteParts ::
      p in db.athleteParts && after.athleteParts[p].(team := None) == db.athleteParts[p].(team := None))
    && (forall p | p in after.athleteParts :: after.athleteParts[p].team == None
          || (after.athleteParts[p].team == db.athleteParts[p].team && after.athleteParts[p].team.value in after.teams))
    && (forall p | p in after.leaderParts ::
      p in db.leaderParts && after.leaderParts[p].event == db.leaderParts[p].event)
    && (forall t | t in after.teams :: t in db.teams && after.teams[t] == db.teams[t])
  }

  lemma LosingKeepsCounts(cfg: Config, db: Tables, after: Tables)
    requires OnlyLoses(db, after)
    ensures CapsHold(cfg, db) ==> CapsHold(cfg, after)
    ensures AthleteQuotasHold(cfg, db) ==> AthleteQuotasHold(cfg, after)
    ensures TeamQuotasHold(cfg, db) ==> TeamQuotasHold(cfg, after)
  {
    forall e ensures EventCount(after, e) <= EventCount(db, e) {
      SubsetSmaller(PartsOfEvent(after, e), PartsOfEvent(db, e));
      SubsetSmaller(LeadersOfEvent(after, e), LeadersOfEvent(db, e));
    }
    forall e, s, o ensures |PartsOfOrg(after, e, s, o)| <= |PartsOfOrg(db, e, s, o)| {
      SubsetSmaller(PartsOfOrg(after, e, s, o), PartsOfOrg(db, e, s, o));
    }
    forall e, s, o ensures |TeamsOf(after, e, s, o)| <= |TeamsOf(db, e, s, o)| {
      SubsetSmaller(TeamsOf(after, e, s, o), TeamsOf(db, e, s, o));
    }
  }

  lemma LosingKeepsTeams(cfg: Config, db: Tables, after: Tables)
    requires OnlyLoses(db, after) && MembersMatch(db) && TeamSizesHold(cfg, db)
    ensures MembersMatch(after) && TeamSizesHold(cfg, after)
  {
    forall p | p in after.athleteParts ensures Matches(after, after.athleteParts[p]) {
      assert Matches(db, db.athleteParts[p]);
    }
    forall t | t in after.teams && TeamBound(cfg, after.teams[t]).Some?
      ensures |Members(after, t)| <= TeamBound(cfg, after.teams[t]).value || Members(after, t) == {}
    {
      SubsetSmaller(Members(after, t), Members(db, t));
    }
  }

  lemma LosingKeepsLimits(cfg: Config, db: Tables, after: Tables)
    requires LimitsHold(cfg, db) && OnlyLoses(db, after)
    ensures LimitsHold(cfg, after)
  {
    hide CapsHold, AthleteQuotasHold, TeamQuotasHold, MembersMatch, TeamSizesHold, OnlyLoses;
    LosingKeepsCounts(cfg, db, after);
    LosingKeepsTeams(cfg, db, after);
  }

  lemma DeletingLoses(db: Tables, enroll: Id, first: Option<Id>)
    requires MembersMatch(db)
    ensures OnlyLoses(db, WithoutEnroll(db, enroll, first))
  {
    forall p | p in db.athleteParts && db.athleteParts[p].team.Some? ensures db.athleteParts[p].team.value in db.teams {
      assert Matches(db, db.athleteParts[p]);
    }
  }

  lemma DeletingTeamLoses(db: Tables, t: Id)
    requires MembersMatch(db)
    ensures OnlyLoses(db, WithoutTeam(db, t))
  {
    forall p | p in db.athleteParts && db.athleteParts[p].team.Some? ensures db.athleteParts[p].team.value in db.teams {
      assert Matches(db, db.athleteParts[p]);
    }
  }

  lemma LeavingLoses(db: Tables, p: Id)
    requires MembersMatch(db) && p in db.athleteParts
    ensures OnlyLoses(db, WithTeam(db, p, None))
  {
    forall q | q in db.athleteParts && db.athleteParts[q].team.Some? ensures db.athleteParts[q].team.value in db.teams {
      assert Matches(db, db.athleteParts[q]);
    }
  }

  lemma JoiningKeepsLimits(cfg: Config, db: Tables, t: Id, enroll: Id, p: Id)
    requires LimitsHold(cfg, db) && AddAnswers(cfg, db, t, enroll, Ok(p)) && p in db.athleteParts
    ensures LimitsHold(cfg, WithTeam(db, p, Some(t)))
  {
    var after := WithTeam(db, p, Some(t));
    assert p in Candidates(db, t, enroll);
    forall e ensures EventCount(after, e) == EventCount(db, e) {
      assert PartsOfEvent(after, e) == PartsOfEvent(db, e) && LeadersOfEvent(after, e) == LeadersOfEvent(db, e);
    }
    assert forall e, s, o :: PartsOfOrg(after, e, s, o) == PartsOfOrg(db, e, s, o);
    assert forall e, s, o :: TeamsOf(after, e, s, o) == TeamsOf(db, e, s, o);
    JoiningKeepsTeams(cfg, db, t, enroll, p);
  }

  lemma JoiningKeepsTeams(cfg: Config, db: Tables, t: Id, enroll: Id, p: Id)
    requires MembersMatch(db) && TeamSizesHold(cfg, db) && AddAnswers(cfg, db, t, enroll, Ok(p)) && p in db.athleteParts
    ensures MembersMatch(WithTeam(db, p, Some(t))) && TeamSizesHold(cfg, WithTeam(db, p, Some(t)))
  {
    var after := WithTeam(db, p, Some(t));
    assert p in Candidates(db, t, enroll);
    forall q | q in after.athleteParts ensures Matches(after, after.athleteParts[q]) {
      assert Matches(db, db.athleteParts[q]);
    }
    forall u | u in after.teams && TeamBound(cfg, after.teams[u]).Some?
      ensures |Members(after, u)| <= TeamBound(cfg, after.teams[u]).value || Members(after, u) == {}
    {
      if u == t { OneMore(Members(after, u), Members(db, u), p); }
      else { assert Members(after, u) == Members(db, u); }
    }
  }

  lemma CreatingKeepsLimits(cfg: Config, db: Tables, id: Id, n: NewTeam)
    requires LimitsHold(cfg, db) && id !in db.teams && CreateRule(cfg, db, n) == None
    ensures LimitsHold(cfg, AfterCreate(cfg, db, id, n))
  {
    var after := AfterCreate(cfg, db, id, n);
    forall e ensures EventCount(after, e) == EventCount(db, e) {
      assert PartsOfEvent(after, e) == PartsOfEvent(db, e) && LeadersOfEvent(after, e) == LeadersOfEvent(db, e);
    }
    assert forall e, s, o :: PartsOfOrg(after, e, s, o) == PartsOfOrg(db, e, s, o);
    CreatingKeepsTeams(cfg, db, id, n);
  }

  lemma CreatingKeepsTeams(cfg: Config, db: Tables, id: Id, n: NewTeam)
    requires TeamQuotasHold(cfg, db) && MembersMatch(db) && TeamSizesHold(cfg, db) && id !in db.teams
    requires CreateRule(cfg, db, n) == None
    ensures TeamQuotasHold(cfg, AfterCreate(cfg, db, id, n)) && MembersMatch(AfterCreate(cfg, db, id, n))
    ensures TeamSizesHold(cfg, AfterCreate(cfg, db, id, n))
  {
    var after := AfterCreate(cfg, db, id, n);
    forall p | p in db.athleteParts
      ensures Matches(after, after.athleteParts[p]) && after.athleteParts[p].team != Some(id)
    {
      assert Matches(db, db.athleteParts[p]);
    }
    assert Members(after, id) == {};
    assert forall t :: Members(after, t) == Members(db, t);
    forall e, s, o | (e, s) in cfg.sports && cfg.sports[(e, s)].teamQuota.Some?
      ensures |TeamsOf(after, e, s, o)| <= cfg.sports[(e, s)].teamQuota.value
    {
      if e == n.event && s == n.sport && o == n.org { OneMore(TeamsOf(after, e, s, o), TeamsOf(db, e, s, o), id); }
      else { assert TeamsOf(after, e, s, o) == TeamsOf(db, e, s, o); }
    }
  }

  // ---- runs ------------------------------------------------------------------------------------

  datatype Op =
    | Register(request: Request, filesAllowed: bool, today: Date)
    | Import(rows: seq<Row>, today: Date)
    | Delete(enroll: Id)
    | CreateTeam(team: NewTeam)
    | AddMember(t: Id, enroll: Id)
    | RemoveMember(t: Id, enroll: Id)
    | DeleteTeam(t: Id)

  /** What each service call may leave behind. */
  ghost predicate Step(cfg: Config, s: Store, op: Op, s': Store) {
    match op
    case Register(r, files, today) =>
      s' == Store(AfterRegister(cfg, s.db, s.ids, r, files, today), IdsAfterRegister(cfg, s.db, s.ids, r, files, today))
    case Import(rows, today) => s' == CommitRows(cfg, s, rows, today)
    case Delete(enroll) =>
      if enroll in s.db.enrolls
      then exists first :: FirstLeader(s.db, enroll, first) && s' == s.(db := WithoutEnroll(s.db, enroll, first))
      else s' == s
    case CreateTeam(n) =>
      s' == Store(AfterCreate(cfg, s.db, s.ids.team, n),
                  if CreateRule(cfg, s.db, n) == None then s.ids.(team := s.ids.team + 1) else s.ids)
    case AddMember(t, enroll) =>
      exists result :: AddAnswers(cfg, s.db, t, enroll, result) &&
        (match result
         case Err(_) => s' == s
         case Ok(p) => p in s.db.athleteParts && s' == s.(db := WithTeam(s.db, p, Some(t))))
    case RemoveMember(t, enroll) =>
      exists result :: RemoveAnswers(s.db, t, enroll, result) &&
        (match result
         case Err(_) => s' == s
         case Ok(p) => p in s.db.athleteParts && s' == s.(db := WithTeam(s.db, p, None)))
    case DeleteTeam(t) => s' == s.(db := if t in s.db.teams then WithoutTeam(s.db, t) else s.db)
  }

  ghost predicate Good(cfg: Config, s: Store) { LimitsHold(cfg, s.db) && WellKept(s.db, s.ids) }

  lemma DeletingWellKept(db: Tables, ids: Sequences, enroll: Id, first: Option<Id>)
    requires WellKept(db, ids)
    ensures WellKept(WithoutEnroll(db, enroll, first), ids)
  {}

  lemma StepKeepsGood(cfg: Config, s: Store, op: Op, s': Store)
    requires Good(cfg, s) && Step(cfg, s, op, s')
    ensures Good(cfg, s')
  {
    hide LimitsHold, WellKept, WithoutEnroll, WithoutTeam, WithTeam, AfterCreate, CreateRule, AddAnswers,
      RemoveAnswers, AfterRegister, IdsAfterRegister, FirstLeader, Members;
    match op
    case Register(r, files, today) =>
      RegisterKeepsLimits(cfg, s.db, s.ids, r, files, today);
      RegisterExtends(cfg, s.db, s.ids, r, files, today);
    case Import(rows, today) => ImportKeepsLimits(cfg, s, rows, today);
    case Delete(enroll) =>
      if enroll in s.db.enrolls {
        var first :| FirstLeader(s.db, enroll, first) && s' == s.(db := WithoutEnroll(s.db, enroll, first));
        LimitsGiveMatch(cfg, s.db);
        DeletingLoses(s.db, enroll, first);
        LosingKeepsLimits(cfg, s.db, s'.db);
        DeletingWellKept(s.db, s.ids, enroll, first);
      }
    case CreateTeam(n) => CreateStep(cfg, s, n, s');
    case AddMember(t, enroll) => JoinStep(cfg, s, t, enroll, s');
    case RemoveMember(t, enroll) =>
      if s' != s {
        var p :| p in s.db.athleteParts && s' == s.(db := WithTeam(s.db, p, None));
        LimitsGiveMatch(cfg, s.db);
        LeavingLoses(s.db, p);
        LosingKeepsLimits(cfg, s.db, s'.db);
        TeamChangeWellKept(s.db, s.ids, p, None);
      }
    case DeleteTeam(t) =>
      if t in s.db.teams {
        LimitsGiveMatch(cfg, s.db);
        DeletingTeamLoses(s.db, t);
        LosingKeepsLimits(cfg, s.db, s'.db);
        TeamDeleteWellKept(s.db, s.ids, t);
      }
  }

  lemma LimitsGiveMatch(cfg: Config, db: Tables)
    requires LimitsHold(cfg, db)
    ensures MembersMatch(db)
  {}

  lemma TeamChangeWellKept(db: Tables, ids: Sequences, p: Id, team: Option<Id>)
    requires WellKept(db, ids) && p in db.athleteParts
    ensures WellKept(WithTeam(db, p, team), ids)
  {}

  lemma TeamDeleteWellKept(db: Tables, ids: Sequences, t: Id)
    requires WellKept(db, ids)
    ensures WellKept(WithoutTeam(db, t), ids)
  {}

  lemma CreateStep(cfg: Config, s: Store, n: NewTeam, s': Store)
    requires Good(cfg, s) && Step(cfg, s, CreateTeam(n), s')
    ensures Good(cfg, s')
  {
    hide LimitsHold, CreateRule;
    if CreateRule(cfg, s.db, n) == None { CreatingKeepsLimits(cfg, s.db, s.ids.team, n); }
  }

  lemma JoinStep(cfg: Config, s: Store, t: Id, enroll: Id, s': Store)
    requires Good(cfg, s) && Step(cfg, s, AddMember(t, enroll), s')
    ensures Good(cfg, s')
  {
    hide LimitsHold, AddAnswers, WellKept, WithTeam;
    if s' != s {
      var result :| AddAnswers(cfg, s.db, t, enroll, result) &&
        (match result
         case Err(_) => s' == s
         case Ok(p) => p in s.db.athleteParts && s' == s.(db := WithTeam(s.db, p, Some(t))));
      JoiningKeepsLimits(cfg, s.db, t, enroll, result.value);
      TeamChangeWellKept(s.db, s.ids, result.value, Some(t));
    }
  }

  ghost predicate IsRun(cfg: Config, states: seq<Store>, ops: seq<Op>) {
    |states| == |ops| + 1 && forall i | 0 <= i < |ops| :: Step(cfg, states[i], ops[i], states[i + 1])
  }

  /** Every state of every run keeps the cap, both quotas, matching members and the team sizes. */
  lemma {:induction false} RunsKeepLimits(cfg: Config, states: seq<Store>, ops: seq<Op>, n: nat)
    requires IsRun(cfg, states, ops) && n < |states|
    requires LimitsHold(cfg, states[0].db) && WellKept(states[0].db, states[0].ids)
    ensures LimitsHold(cfg, states[n].db) && WellKept(states[n].db, states[n].ids)
  {
    hide LimitsHold, WellKept;
    if n > 0 {
      RunsKeepLimits(cfg, states, ops, n - 1);
      hide Step;
      StepKeepsGood(cfg, states[n - 1], ops[n - 1], states[n]);
    }
  }

  // ---- the two team maxima -------------------------------------------------------------------------

  /** The maximum of a category; a negative one allows nobody. */
  function MaxOf(cfg: Config, k: Id): nat
    requires k in cfg.categories && cfg.categories[k].teamSizeMax.Some?
  {
    var c := cfg.categories[k].teamSizeMax.value;
    if c < 0 then 0 else c
  }

  function SportMax(cfg: Config, k: Id): Option<int>
    requires k in cfg.categories
  {
    var key := (cfg.categories[k].event, cfg.categories[k].sport);
    if key in cfg.sports then cfg.sports[key].teamSizeMax else None
  }

  /** No team of the category is larger than the category allows. */
  ghost predicate CategoryHolds(cfg: Config, k: Id, db: Tables)
    requires k in cfg.categories && cfg.categories[k].teamSizeMax.Some?
  {
    var c := cfg.categories[k];
    forall t | t in db.teams && db.teams[t].category == Some(k) && db.teams[t].event == c.event
      && db.teams[t].sport == c.sport ::
      |Members(db, t)| <= MaxOf(cfg, k)
  }

  /** Every run from a good state within the category's maximum stays within it. */
  ghost predicate RunsKeepCategory(cfg: Config, k: Id)
    requires k in cfg.categories && cfg.categories[k].teamSizeMax.Some?
  {
    forall states: seq<Store>, ops: seq<Op>, n: nat |
      IsRun(cfg, states, ops) && n < |states| && Good(cfg, states[0]) && CategoryHolds(cfg, k, states[0].db) ::
      CategoryHolds(cfg, k, states[n].db)
  }

  /** The limits leave room for n athletes of one organization on one team of the sport, and none is negative. */
  ghost predicate Room(cfg: Config, event: Id, sport: Id, n: nat) {
    && (forall e | e in cfg.events && cfg.events[e].cap.Some? ::
      (if e == event then n else 0) <= cfg.events[e].cap.value)
    && (forall key | key in cfg.sports && cfg.sports[key].athleteQuota.Some? ::
          (if key == (event, sport) then n else 0) <= cfg.sports[key].athleteQuota.value)
    && (forall key | key in cfg.sports && cfg.sports[key].teamQuota.Some? ::
          (if key == (event, sport) then 1 else 0) <= cfg.sports[key].teamQuota.value)
  }

  /** Team members are participations of the team's event and organization. */
  lemma MembersWithin(cfg: Config, db: Tables, t: Id)
    requires MembersMatch(db) && t in db.teams
    ensures var team := db.teams[t];
      && |Members(db, t)| <= |PartsOfOrg(db, team.event, team.sport, team.org)|
      && |Members(db, t)| <= EventCount(db, team.event) && t in TeamsOf(db, team.event, team.sport, team.org)
  {
    var team := db.teams[t];
    forall p | p in Members(db, t)
      ensures p in PartsOfOrg(db, team.event, team.sport, team.org) && p in PartsOfEvent(db, team.event)
    {
      assert Matches(db, db.athleteParts[p]);
    }
    SubsetSmaller(Members(db, t), PartsOfOrg(db, team.event, team.sport, team.org));
    SubsetSmaller(Members(db, t), PartsOfEvent(db, team.event));
  }

  /** Wherever a team of n members stands within the limits there is room for it. */
  lemma TeamHasRoom(cfg: Config, db: Tables, t: Id)
    requires LimitsHold(cfg, db) && t in db.teams
    ensures Room(cfg, db.teams[t].event, db.teams[t].sport, |Members(db, t)|)
  {
    hide EventCount, PartsOfOrg, TeamsOf, Members, MembersMatch, TeamSizesHold;
    var team := db.teams[t];
    MembersWithin(cfg, db, t);
    forall e | e in cfg.events && cfg.events[e].cap.Some?
      ensures (if e == team.event then |Members(db, t)| else 0) <= cfg.events[e].cap.value
    {
      assert EventCount(db, e) <= cfg.events[e].cap.value;
    }
    forall key | key in cfg.sports && cfg.sports[key].athleteQuota.Some?
      ensures (if key == (team.event, team.sport) then |Members(db, t)| else 0) <= cfg.sports[key].athleteQuota.value
    {
      assert (key.0, key.1) == key && |PartsOfOrg(db, key.0, key.1, team.org)| <= cfg.sports[key].athleteQuota.value;
    }
    forall key | key in cfg.sports && cfg.sports[key].teamQuota.Some?
      ensures (if key == (team.event, team.sport) then 1 else 0) <= cfg.sports[key].teamQuota.value
    {
      assert (key.0, key.1) == key && |TeamsOf(db, key.0, key.1, team.org)| <= cfg.sports[key].teamQuota.value;
    }
  }

  lemma LessRoom(cfg: Config, event: Id, sport: Id, n: nat, more: nat)
    requires Room(cfg, event, sport, more) && n <= more
    ensures Room(cfg, event, sport, n)
  {}

  /** Without room for one more than the maximum no good state exceeds it. */
  lemma NoRoomHolds(cfg: Config, k: Id, db: Tables)
    requires k in cfg.categories && cfg.categories[k].teamSizeMax.Some? && LimitsHold(cfg, db)
    requires !Room(cfg, cfg.categories[k].event, cfg.categories[k].sport, MaxOf(cfg, k) + 1)
    ensures CategoryHolds(cfg, k, db)
  {
    hide LimitsHold, Members, Room;
    var c := cfg.categories[k];
    forall t | t in db.teams && db.teams[t].category == Some(k) && db.teams[t].event == c.event
      && db.teams[t].sport == c.sport
      ensures |Members(db, t)| <= MaxOf(cfg, k)
    {
      TeamHasRoom(cfg, db, t);
      if |Members(db, t)| > MaxOf(cfg, k) { LessRoom(cfg, c.event, c.sport, MaxOf(cfg, k) + 1, |Members(db, t)|); }
    }
  }

  /** Under a sport maximum within the category's, every good state is within it. */
  lemma SportMaxHolds(cfg: Config, k: Id, db: Tables)
    requires k in cfg.categories && cfg.categories[k].teamSizeMax.Some? && LimitsHold(cfg, db)
    requires SportMax(cfg, k).Some? && SportMax(cfg, k).value <= MaxOf(cfg, k)
    ensures CategoryHolds(cfg, k, db)
  {
    hide CapsHold, AthleteQuotasHold, TeamQuotasHold, MembersMatch, Members;
    var c := cfg.categories[k];
    forall t | t in db.teams && db.teams[t].category == Some(k) && db.teams[t].event == c.event
      && db.teams[t].sport == c.sport
      ensures |Members(db, t)| <= MaxOf(cfg, k)
    {
      assert TeamBound(cfg, db.teams[t]).Some? && TeamBound(cfg, db.teams[t]).value <= MaxOf(cfg, k);
    }
  }

  function Ids(n: nat): (r: set<Id>)
    ensures |r| == n && forall i: Id :: i in r <==> i < n
  {
    if n == 0 then {} else Ids(n - 1) + {n - 1}
  }

  const SOMEBODY := Person("a", "b", Date(2000, 1, 1))

  /** A full team of the category, and one more athlete of its organization without a team. */
  function FullTeam(cfg: Config, k: Id): (db: Tables)
    requires k in cfg.categories && cfg.categories[k].teamSizeMax.Some?
    ensures var c, n := cfg.categories[k], MaxOf(cfg, k);
      && db.enrolls.Keys == db.athletes.Keys == db.athleteParts.Keys == Ids(n + 1)
      && (forall i | i in Ids(n + 1) :: db.athletes[i] == i && db.athleteParts[i] == FullPart(c, k, n, i))
      && db.leaders == map[] && db.leaderParts == map[]
        && db.teams == map[0 := Team(c.event, c.sport, 0, Some(k), "full")]
  {
    var c, n := cfg.categories[k], MaxOf(cfg, k);
    var all := Ids(n + 1);
    Tables(
      map i | i in all :: SOMEBODY, map i | i in all :: i, map[], map i | i in all :: FullPart(c, k, n, i), map[],
      map[0 := Team(c.event, c.sport, 0, Some(k), "full")])
  }

  function FullPart(c: Category, k: Id, n: nat, i: Id): AthletePart {
    AthletePart(Some(i), c.event, c.sport, Some(k), 0, if i < n then Some(0) else None)
  }

  function FullIds(n: nat): Sequences { Sequences(n + 1, n + 1, 0, n + 1, 0, 1) }

  lemma FullTeamCounts(cfg: Config, k: Id, e: Id, s: Id, o: Id)
    requires k in cfg.categories && cfg.categories[k].teamSizeMax.Some?
    ensures var c, n, db := cfg.categories[k], MaxOf(cfg, k), FullTeam(cfg, k);
      && Members(db, 0) == Ids(n) && |Members(db, 0)| == n
      && EventCount(db, e) == (if e == c.event then n + 1 else 0)
      && |PartsOfOrg(db, e, s, o)| <= (if (e, s) == (c.event, c.sport) then n + 1 else 0)
      && |TeamsOf(db, e, s, o)| <= (if (e, s) == (c.event, c.sport) then 1 else 0)
  {
    var c, n, db := cfg.categories[k], MaxOf(cfg, k), FullTeam(cfg, k);
    assert Members(db, 0) == Ids(n);
    assert LeadersOfEvent(db, e) == {};
    if e == c.event { assert PartsOfEvent(db, e) == Ids(n + 1); } else { assert PartsOfEvent(db, e) == {}; }
    if (e, s) == (c.event, c.sport) {
      SubsetSmaller(PartsOfOrg(db, e, s, o), PartsOfEvent(db, e));
      SubsetSmaller(TeamsOf(db, e, s, o), {0});
    } else {
      assert PartsOfOrg(db, e, s, o) == {} && TeamsOf(db, e, s, o) == {};
    }
  }

  lemma FullTeamLimits(cfg: Config, k: Id)
    requires k in cfg.categories && cfg.categories[k].teamSizeMax.Some?
    requires Room(cfg, cfg.categories[k].event, cfg.categories[k].sport, MaxOf(cfg, k) + 1)
    ensures var db := FullTeam(cfg, k); CapsHold(cfg, db) && AthleteQuotasHold(cfg, db) && TeamQuotasHold(cfg, db)
  {
    hide EventCount, PartsOfOrg, TeamsOf, Members, FullTeam;
    var db, c := FullTeam(cfg, k), cfg.categories[k];
    forall e | e in cfg.events && cfg.events[e].cap.Some? ensures EventCount(db, e) <= cfg.events[e].cap.value {
      FullTeamCounts(cfg, k, e, 0, 0);
    }
    forall e, s, o | (e, s) in cfg.sports && cfg.sports[(e, s)].athleteQuota.Some?
      ensures |PartsOfOrg(db, e, s, o)| <= cfg.sports[(e, s)].athleteQuota.value
    {
      FullTeamCounts(cfg, k, e, s, o);
    }
    forall e, s, o | (e, s) in cfg.sports && cfg.sports[(e, s)].teamQuota.Some?
      ensures |TeamsOf(db, e, s, o)| <= cfg.sports[(e, s)].teamQuota.value
    {
      FullTeamCounts(cfg, k, e, s, o);
    }
  }

  /** With room, the full team is a good state within the category's maximum. */
  lemma FullTeamGood(cfg: Config, k: Id)
    requires k in cfg.categories && cfg.categories[k].teamSizeMax.Some?
    requires Room(cfg, cfg.categories[k].event, cfg.categories[k].sport, MaxOf(cfg, k) + 1)
    requires SportMax(cfg, k).Some? ==> SportMax(cfg, k).value > MaxOf(cfg, k)
    ensures Good(cfg, Store(FullTeam(cfg, k), FullIds(MaxOf(cfg, k)))) && CategoryHolds(cfg, k, FullTeam(cfg, k))
  {
    hide CapsHold, AthleteQuotasHold, TeamQuotasHold, MembersMatch, TeamSizesHold, CategoryHolds, WellKept, FullTeam,
      Room;
    FullTeamLimits(cfg, k);
    FullTeamMatches(cfg, k);
    FullTeamKept(cfg, k);
  }

  lemma FullTeamKept(cfg: Config, k: Id)
    requires k in cfg.categories && cfg.categories[k].teamSizeMax.Some?
    ensures WellKept(FullTeam(cfg, k), FullIds(MaxOf(cfg, k)))
  {
    hide FullTeam;
  }

  lemma FullTeamMatches(cfg: Config, k: Id)
    requires k in cfg.categories && cfg.categories[k].teamSizeMax.Some?
    requires SportMax(cfg, k).Some? ==> SportMax(cfg, k).value > MaxOf(cfg, k)
    ensures var db := FullTeam(cfg, k); MembersMatch(db) && TeamSizesHold(cfg, db) && CategoryHolds(cfg, k, db)
  {
    hide FullTeam, Members, EventCount, PartsOfOrg, TeamsOf;
    FullTeamCounts(cfg, k, 0, 0, 0);
  }

  lemma LeftOverJoins(cfg: Config, k: Id)
    requires k in cfg.categories && cfg.categories[k].teamSizeMax.Some?
    requires SportMax(cfg, k).Some? ==> SportMax(cfg, k).value > MaxOf(cfg, k)
    ensures var n, db := MaxOf(cfg, k), FullTeam(cfg, k); n in db.athleteParts && AddAnswers(cfg, db, 0, n, Ok(n))
  {
    hide FullTeam, EventCount, PartsOfOrg, TeamsOf, Members;
    var n, db := MaxOf(cfg, k), FullTeam(cfg, k);
    FullTeamCounts(cfg, k, 0, 0, 0);
    assert AthletesOf(db, n) == {n};
    assert Candidates(db, 0, n) == {n};
    assert AddOne(db, 0, n, Ok(n));
  }

  /** Adding the athlete left over is accepted, and makes the team one too large for its category. */
  lemma FullTeamGrows(cfg: Config, k: Id)
    requires k in cfg.categories && cfg.categories[k].teamSizeMax.Some?
    requires SportMax(cfg, k).Some? ==> SportMax(cfg, k).value > MaxOf(cfg, k)
    ensures var n, db := MaxOf(cfg, k), FullTeam(cfg, k);
      && n in db.athleteParts && AddAnswers(cfg, db, 0, n, Ok(n))
      && |Members(WithTeam(db, n, Some(0)), 0)| == n + 1 && !CategoryHolds(cfg, k, WithTeam(db, n, Some(0)))
  {
    hide FullTeam, AddAnswers, Candidates, AthletesOf;
    LeftOverJoins(cfg, k);
    var n, db := MaxOf(cfg, k), FullTeam(cfg, k);
    var after := WithTeam(db, n, Some(0));
    assert Members(after, 0) == Ids(n + 1);
    assert 0 in after.teams;
  }

  /**
   Runs keep the teams of a category within its maximum exactly when the sport has a maximum
   no larger, or the other limits leave no room for a larger team.
   */
  lemma RunsKeepCategoryIff(cfg: Config, k: Id)
    requires k in cfg.categories && cfg.categories[k].teamSizeMax.Some?
    ensures RunsKeepCategory(cfg, k) <==>
            || (SportMax(cfg, k).Some? && SportMax(cfg, k).value <= MaxOf(cfg, k))
            || !Room(cfg, cfg.categories[k].event, cfg.categories[k].sport, MaxOf(cfg, k) + 1)
  {
    hide LimitsHold, WellKept, Step, Room, CategoryHolds, FullTeam;
    var small := SportMax(cfg, k).Some? && SportMax(cfg, k).value <= MaxOf(cfg, k);
    var room := Room(cfg, cfg.categories[k].event, cfg.categories[k].sport, MaxOf(cfg, k) + 1);
    if small || !room {
      forall states: seq<Store>, ops: seq<Op>, n: nat |
        IsRun(cfg, states, ops) && n < |states| && Good(cfg, states[0]) && CategoryHolds(cfg, k, states[0].db)
        ensures CategoryHolds(cfg, k, states[n].db)
      {
        RunsKeepLimits(cfg, states, ops, n);
        if small { SportMaxHolds(cfg, k, states[n].db); } else { NoRoomHolds(cfg, k, states[n].db); }
      }
    } else {
      OverfullRun(cfg, k);
    }
  }

  lemma OverfullRun(cfg: Config, k: Id)
    requires k in cfg.categories && cfg.categories[k].teamSizeMax.Some?
    requires Room(cfg, cfg.categories[k].event, cfg.categories[k].sport, MaxOf(cfg, k) + 1)
    requires SportMax(cfg, k).Some? ==> SportMax(cfg, k).value > MaxOf(cfg, k)
    ensures !RunsKeepCategory(cfg, k)
  {
    hide LimitsHold, WellKept, Room, CategoryHolds, FullTeam, AddAnswers;
    var n := MaxOf(cfg, k);
    FullTeamGood(cfg, k);
    FullTeamGrows(cfg, k);
    var s := Store(FullTeam(cfg, k), FullIds(n));
    var s' := s.(db := WithTeam(s.db, n, Some(0)));
    var states, ops := [s, s'], [AddMember(0, n)];
    assert Step(cfg, s, AddMember(0, n), s') by { assert AddAnswers(cfg, s.db, 0, n, Ok(n)); }
    assert IsRun(cfg, states, ops);
    assert !CategoryHolds(cfg, k, states[1].db);
  }

  /** One open event, one team sport with the given maximum, and a category for pairs. */
  function Doubles(sportMax: Option<int>): Config {
    Config(
      map[1 := Event(true, None, None, None, None, None)],
      map[(1, 1) := SportConfig(true, None, sportMax, None, None)],
      {(1, 1, 0)}, map[5 := Category(1, 1, Some(2))], false, 18)
  }

  /**
   In a good state of an open event, registration itself refuses a third member of a full
   pair, whatever else the request says; adding a member accepts it under any sport maximum
   above two, and without one.
   */
  lemma AddMemberIgnoresCategoryMax(sportMax: Option<int>, r: Request, today: Date)
    requires sportMax.Some? ==> sportMax.value > 2
    requires r.event == 1 && r.sport == 1 && r.org == 0 && r.category == Some(5) && r.team == Some(0)
    requires r.role == Athlete
    ensures var cfg := Doubles(sportMax);
            var db := FullTeam(cfg, 5);
      && Good(cfg, Store(db, FullIds(2))) && |Members(db, 0)| == 2
      && Validate(cfg, db, r, today) == Some(TeamFull)
      && AddAnswers(cfg, db, 0, 2, Ok(2)) && |Members(WithTeam(db, 2, Some(0)), 0)| == 3
  {
    hide Good, Room, AddAnswers, FullTeam, Members, EventCount, PartsOfOrg, TeamsOf, CategoryHolds, WithTeam, Validate;
    var cfg := Doubles(sportMax);
    DoublesHaveRoom(sportMax);
    FullTeamGood(cfg, 5);
    FullTeamGrows(cfg, 5);
    FullTeamCounts(cfg, 5, 1, 1, 0);
    RefusedByCategory(sportMax, FullTeam(cfg, 5), r, today);
  }

  lemma DoublesHaveRoom(sportMax: Option<int>)
    ensures Room(Doubles(sportMax), 1, 1, 3)
  {}

  lemma RefusedByCategory(sportMax: Option<int>, db: Tables, r: Request, today: Date)
    requires r.event == 1 && r.sport == 1 && r.org == 0 && r.category == Some(5) && r.team == Some(0)
    requires r.role == Athlete
    requires 0 in db.teams && db.teams[0] == Team(1, 1, 0, Some(5), "full") && |Members(db, 0)| == 2
    ensures Validate(Doubles(sportMax), db, r, today) == Some(TeamFull)
  {
    hide Members, Duplicate, EventCount, PartsOfOrg;
  }
}
