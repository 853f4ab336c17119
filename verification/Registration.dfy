/**
 Participant registration over the participation tables: the ordered validation
 rules, the all-or-nothing insert, and deletion of a participant's records. Event and
 sport configuration does not change while these operations run.
 */
module Registration {
  import opened Prelude

  type Id = nat

  datatype Date = Date(year: int, month: int, day: int)

  datatype AgeMode = BirthYear | ExactAge

  datatype Event = Event(registrationOpen: bool, cap: Option<int>, ageMode: Option<AgeMode>,
                         ageMin: Option<int>, ageMax: Option<int>, startDate: Option<Date>)

  /** `teams` is true for the modes team and both. */
  datatype SportConfig = SportConfig(teams: bool, teamSizeMin: Option<int>, teamSizeMax: Option<int>,
                                     athleteQuota: Option<int>, teamQuota: Option<int>)

  datatype Category = Category(event: Id, sport: Id, teamSizeMax: Option<int>)

  datatype Config = Config(
    events: map<Id, Event>, sports: map<(Id, Id), SportConfig>,
    eligible: set<(Id, Id, Id)>, categories: map<Id, Category>,
    consentEnforced: bool, minorAge: int)

  // ---- tables ---------------------------------------------------------------------

  datatype Person = Person(familyName: string, givenName: string, birth: Date)
  datatype AthletePart = AthletePart(
    athlete: Option<Id>, event: Id, sport: Id, category: Option<Id>, org: Id, team: Option<Id>)
  datatype LeaderPart = LeaderPart(leader: Option<Id>, event: Id, sport: Id, org: Id)
  datatype Team = Team(event: Id, sport: Id, org: Id, category: Option<Id>, name: string)

  datatype Tables = Tables(
    enrolls: map<Id, Person>, athletes: map<Id, Id>, leaders: map<Id, Id>,
    athleteParts: map<Id, AthletePart>, leaderParts: map<Id, LeaderPart>, teams: map<Id, Team>)

  /** The id sequences of the tables; a rollback does not take an id back. */
  datatype Sequences = Sequences(enroll: Id, athlete: Id, leader: Id, athletePart: Id, leaderPart: Id, team: Id)

  function PartsOfEvent(db: Tables, e: Id): set<Id> { set p | p in db.athleteParts && db.athleteParts[p].event == e }
  function LeadersOfEvent(db: Tables, e: Id): set<Id> { set p | p in db.leaderParts && db.leaderParts[p].event == e }

  function EventCount(db: Tables, e: Id): nat { |PartsOfEvent(db, e)| + |LeadersOfEvent(db, e)| }

  function PartsOfOrg(db: Tables, e: Id, s: Id, o: Id): set<Id> {
    set p | p in db.athleteParts && db.athleteParts[p].event == e && db.athleteParts[p].sport == s
      && db.athleteParts[p].org == o
  }

  function Members(db: Tables, t: Id): set<Id> { set p | p in db.athleteParts && db.athleteParts[p].team == Some(t) }

  // ---- requests and rules ------------------------------------------------------------

  datatype Role = Athlete | Leader | OtherRole

  /** The optional documents, guardian fields and leader role matter only by being given and not blank. */
  datatype Request = Request(
    event: Id, org: Id, sport: Id, category: Option<Id>, team: Option<Id>, person: Person,
    birthCertificate: bool, nationalId: bool, passport: bool, role: Role, leaderRole: bool, force: bool,
    guardianConsent: bool, guardianName: bool, guardianRelationship: bool)

  datatype Rejection =
    | EventNotFound | RegistrationClosed | CapReached | SportNotEligible | CategoryInvalid
    | AgeOutOfRange | QuotaFull | TeamModeDisallowed | TeamNotFound | TeamMismatch
    | TeamOrgMismatch | TeamCategoryMismatch | TeamFull | DocumentRequired
    | GuardianConsentRequired | DuplicateSuspect | InvalidRole | FileForbidden
    | SportNotInEvent | TeamQuotaFull | TeamNameTaken | MemberNotFound | AlreadyOnTeam
    | CategoryMismatch | ParticipantNotFound | MultipleRows | ServerError

  function AgeOn(birth: Date, on: Date): int {
    on.year - birth.year - (if on.month < birth.month || (on.month == birth.month && on.day < birth.day) then 1 else 0)
  }

  predicate AgeAllowed(e: Event, birth: Date) {
    if e.ageMode == None || e.ageMin == None || e.ageMax == None then true
    else if e.ageMode.value == BirthYear then e.ageMin.value <= birth.year <= e.ageMax.value
    else e.startDate == None || e.ageMin.value <= AgeOn(birth, e.startDate.value) <= e.ageMax.value
  }

  function Basis(e: Event, today: Date): Date { if e.startDate.Some? then e.startDate.value else today }

  predicate DocumentsGiven(e: Event, r: Request, today: Date) {
    if AgeOn(r.person.birth, Basis(e, today)) < 18 then r.birthCertificate else r.nationalId || r.passport
  }

  predicate ConsentGiven(cfg: Config, e: Event, r: Request, today: Date) {
    !cfg.consentEnforced || AgeOn(r.person.birth, Basis(e, today)) >= cfg.minorAge
    || (r.guardianConsent && r.guardianName && r.guardianRelationship)
  }

  predicate IsPerson(db: Tables, enroll: Id, person: Person) { enroll in db.enrolls && db.enrolls[enroll] == person }

  predicate AthleteIs(db: Tables, part: AthletePart, person: Person) {
    part.athlete.Some? && part.athlete.value in db.athletes && IsPerson(db, db.athletes[part.athlete.value], person)
  }

  predicate LeaderIs(db: Tables, part: LeaderPart, person: Person) {
    part.leader.Some? && part.leader.value in db.leaders && IsPerson(db, db.leaders[part.leader.value], person)
  }

  /** Somebody of the same name and birth date takes part in the event. */
  predicate Duplicate(db: Tables, r: Request) {
    || (exists p | p in db.athleteParts ::
      db.athleteParts[p].event == r.event && AthleteIs(db, db.athleteParts[p], r.person))
    || (exists p | p in db.leaderParts ::
      db.leaderParts[p].event == r.event && LeaderIs(db, db.leaderParts[p], r.person))
  }

  /** The rules for a named team, in order. */
  function TeamRule(cfg: Config, db: Tables, r: Request): Option<Rejection>
    requires r.category.Some? && r.category.value in cfg.categories && r.team.Some?
  {
    var max := cfg.categories[r.category.value].teamSizeMax;
    var t := r.team.value;
    if max == None || max.value <= 1 then Some(TeamModeDisallowed)
    else if t !in db.teams then Some(TeamNotFound)
    else if db.teams[t].event != r.event || db.teams[t].sport != r.sport then Some(TeamMismatch)
    else if db.teams[t].org != r.org then Some(TeamOrgMismatch)
    else if db.teams[t].category != r.category then Some(TeamCategoryMismatch)
    else if |Members(db, t)| >= max.value then Some(TeamFull)
    else None
  }

  function AthleteRule(cfg: Config, db: Tables, r: Request): Option<Rejection>
    requires r.event in cfg.events
  {
    if r.category == None then Some(CategoryInvalid)
    else
      var c := r.category.value;
      if c !in cfg.categories || cfg.categories[c].event != r.event || cfg.categories[c].sport != r.sport
      then Some(CategoryInvalid)
      else if !AgeAllowed(cfg.events[r.event], r.person.birth) then Some(AgeOutOfRange)
      else if (r.event, r.sport) in cfg.sports && cfg.sports[(r.event, r.sport)].athleteQuota.Some?
              && |PartsOfOrg(db, r.event, r.sport, r.org)| >= cfg.sports[(r.event, r.sport)].athleteQuota.value
      then Some(QuotaFull)
      else if r.team.Some? then TeamRule(cfg, db, r)
      else None
  }

  /** `validate_registration`: the first rule that rejects, None when all pass. */
  function Validate(cfg: Config, db: Tables, r: Request, today: Date): Option<Rejection> {
    if r.event !in cfg.events then Some(EventNotFound)
    else
      var e := cfg.events[r.event];
      if !e.registrationOpen then Some(RegistrationClosed)
      else if e.cap.Some? && EventCount(db, r.event) >= e.cap.value then Some(CapReached)
      else if (r.event, r.sport, r.org) !in cfg.eligible then Some(SportNotEligible)
      else if r.role == Athlete && AthleteRule(cfg, db, r).Some? then AthleteRule(cfg, db, r)
      else if !DocumentsGiven(e, r, today) then Some(DocumentRequired)
      else if !ConsentGiven(cfg, e, r, today) then Some(GuardianConsentRequired)
      else if !r.force && Duplicate(db, r) then Some(DuplicateSuspect)
      else None
  }

  // ---- registering ---------------------------------------------------------------------

  function WithEnroll(db: Tables, ids: Sequences, r: Request): Tables {
    db.(enrolls := db.enrolls[ids.enroll := r.person])
  }

  function WithAthlete(db: Tables, ids: Sequences, r: Request): Tables {
    var d := WithEnroll(db, ids, r);
    d.(athletes := d.athletes[ids.athlete := ids.enroll],
       athleteParts := d.athleteParts[ids.athletePart :=
         AthletePart(Some(ids.athlete), r.event, r.sport, r.category, r.org, r.team)])
  }

  function WithLeader(db: Tables, ids: Sequences, r: Request): Tables {
    var d := WithEnroll(db, ids, r);
    d.(leaders := d.leaders[ids.leader := ids.enroll],
       leaderParts := d.leaderParts[ids.leaderPart := LeaderPart(Some(ids.leader), r.event, r.sport, r.org)])
  }

  function RegisterResult(
      cfg: Config, db: Tables, ids: Sequences, r: Request, filesAllowed: bool, today: Date): Result<Id, Rejection>
  {
    if !filesAllowed then Err(FileForbidden)
    else
      match Validate(cfg, db, r, today)
      case Some(e) => Err(e)
      case None =>
        if r.role == OtherRole then Err(InvalidRole)
        else if r.role == Leader && !r.leaderRole then Err(ServerError)
        else Ok(ids.enroll)
  }

  /** The tables after a registration: the three new rows, or exactly what was there. */
  function AfterRegister(cfg: Config, db: Tables, ids: Sequences, r: Request, filesAllowed: bool, today: Date): Tables {
    if RegisterResult(cfg, db, ids, r, filesAllowed, today).Err? then db
    else if r.role == Athlete then WithAthlete(db, ids, r)
    else WithLeader(db, ids, r)
  }

  function IdsAfterRegister(
      cfg: Config, db: Tables, ids: Sequences, r: Request, filesAllowed: bool, today: Date): Sequences
  {
    if !filesAllowed || Validate(cfg, db, r, today).Some? then ids
    else
      match r.role
      case Athlete => ids.(enroll := ids.enroll + 1, athlete := ids.athlete + 1, athletePart := ids.athletePart + 1)
      case Leader =>
        ids.(enroll := ids.enroll + 1, leader := ids.leader + 1,
             leaderPart := if r.leaderRole then ids.leaderPart + 1 else ids.leaderPart)
      case OtherRole => ids.(enroll := ids.enroll + 1)
  }

  // ---- deleting --------------------------------------------------------------------------

  function AthletesOf(db: Tables, enroll: Id): set<Id> { set a | a in db.athletes && db.athletes[a] == enroll }
  function LeadersOf(db: Tables, enroll: Id): set<Id> { set l | l in db.leaders && db.leaders[l] == enroll }

  /** Deleting athletes takes their participations along. */
  function WithoutAthletes(db: Tables, gone: set<Id>): Tables {
    db.(athletes := db.athletes - gone,
        athleteParts := map p | p in db.athleteParts
          && (db.athleteParts[p].athlete == None || db.athleteParts[p].athlete.value !in gone)
                        :: db.athleteParts[p])
  }

  function Orphaned(part: LeaderPart, gone: set<Id>): LeaderPart {
    if part.leader.Some? && part.leader.value in gone then part.(leader := None) else part
  }

  /**
   Of the enrollment's leaders one, the first the query returns, goes with its
   participations; any other leaves its participations behind without a leader.
   */
  function WithoutLeaders(db: Tables, gone: set<Id>, first: Option<Id>): Tables {
    db.(leaders := db.leaders - gone,
        leaderParts := map p | p in db.leaderParts && (first == None || db.leaderParts[p].leader != first)
                       :: Orphaned(db.leaderParts[p], gone))
  }

  function WithoutEnroll(db: Tables, enroll: Id, first: Option<Id>): Tables {
    var d := WithoutLeaders(WithoutAthletes(db, AthletesOf(db, enroll)), LeadersOf(db, enroll), first);
    d.(enrolls := db.enrolls - {enroll})
  }

  ghost predicate FirstLeader(db: Tables, enroll: Id, first: Option<Id>) {
    match first
    case None => LeadersOf(db, enroll) == {}
    case Some(l) => l in LeadersOf(db, enroll)
  }

  // ---- the session -------------------------------------------------------------------------

  /** One database session: pending changes over what was last committed. */
  class Session {
    const cfg: Config
    var db: Tables
    var committed: Tables
    var ids: Sequences

    constructor (cfg: Config, db: Tables, ids: Sequences)
      ensures this.cfg == cfg && this.db == db && committed == db && this.ids == ids
    {
      this.cfg, this.db, this.committed, this.ids := cfg, db, db, ids;
    }

    method Rollback()
      modifies this`db
      ensures db == committed
    {
      db := committed;
    }

    /** Inserts row by row, then commits; any rejection, or a leader row without its role, rolls everything back. */
    method Execute(r: Request, filesAllowed: bool, today: Date)
      returns (result: Result<Id, Rejection>)
      requires db == committed
      modifies this
      ensures db == committed
      ensures result == RegisterResult(cfg, old(db), old(ids), r, filesAllowed, today)
      ensures db == AfterRegister(cfg, old(db), old(ids), r, filesAllowed, today)
      ensures ids == IdsAfterRegister(cfg, old(db), old(ids), r, filesAllowed, today)
    {
      if !filesAllowed { return Err(FileForbidden); }
      var check := Validate(cfg, db, r, today);
      if check.Some? {
        Rollback();
        return Err(check.value);
      }
      var enroll := ids.enroll;
      db := db.(enrolls := db.enrolls[enroll := r.person]);
      ids := ids.(enroll := enroll + 1);
      match r.role {
        case Athlete =>
          var athlete := ids.athlete;
          db := db.(athletes := db.athletes[athlete := enroll]);
          db := db.(athleteParts := db.athleteParts[ids.athletePart :=
            AthletePart(Some(athlete), r.event, r.sport, r.category, r.org, r.team)]);
          ids := ids.(athlete := athlete + 1, athletePart := ids.athletePart + 1);
        case Leader =>
          var leader := ids.leader;
          ids := ids.(leader := leader + 1);
          if !r.leaderRole {
            Rollback();
            return Err(ServerError);
          }
          db := db.(leaders := db.leaders[leader := enroll]);
          db := db.(leaderParts := db.leaderParts[ids.leaderPart := LeaderPart(Some(leader), r.event, r.sport, r.org)]);
          ids := ids.(leaderPart := ids.leaderPart + 1);
        case OtherRole =>
          Rollback();
          return Err(InvalidRole);
      }
      committed := db;
      return Ok(enroll);
    }

    method DeleteAthletes(gone: set<Id>)
      modifies this`db
      ensures db == WithoutAthletes(old(db), gone)
    {
      var pending := gone;
      while pending != {}
        invariant pending <= gone && db == WithoutAthletes(old(db), gone - pending)
      {
        var a :| a in pending;
        db := db.(athletes := db.athletes - {a},
                  athleteParts := map p | p in db.athleteParts && db.athleteParts[p].athlete != Some(a) ::
                    db.athleteParts[p]);
        pending := pending - {a};
        assert db.athletes == old(db).athletes - (gone - pending);
        assert db.athleteParts == WithoutAthletes(old(db), gone - pending).athleteParts;
      }
    }

    method DeleteLeaders(gone: set<Id>) returns (first: Option<Id>)
      modifies this`db
      ensures match first case None => gone == {} case Some(l) => l in gone
      ensures db == WithoutLeaders(old(db), gone, first)
    {
      first := None;
      if gone != {} {
        var l :| l in gone;
        first := Some(l);
        db := db.(leaderParts := map p | p in db.leaderParts && db.leaderParts[p].leader != Some(l) ::
          db.leaderParts[p]);
      }
      db := db.(leaders := db.leaders - gone,
                leaderParts := map p | p in db.leaderParts :: Orphaned(db.leaderParts[p], gone));
    }

    /** Deletes the participation graph of an enrollment, children first. */
    method Delete(enroll: Id) returns (result: Result<(), Rejection>)
      requires db == committed
      modifies this`db, this`committed
      ensures db == committed
      ensures result.Ok? <==> enroll in old(db).enrolls
      ensures result.Err? ==> db == old(db)
      ensures result.Ok? ==>
                exists first :: FirstLeader(old(db), enroll, first) && db == WithoutEnroll(old(db), enroll, first)
    {
      hide WithoutAthletes, WithoutLeaders;
      if enroll !in db.enrolls {
        Rollback();
        return Err(ParticipantNotFound);
      }
      var leaders := LeadersOf(db, enroll);
      DeleteAthletes(AthletesOf(db, enroll));
      var first := DeleteLeaders(leaders);
      db := db.(enrolls := db.enrolls - {enroll});
      assert db.enrolls == old(db).enrolls - {enroll} by {
        EnrollsKept(old(db), AthletesOf(old(db), enroll), leaders, first);
      }
      assert FirstLeader(old(db), enroll, first);
      committed := db;
      return Ok(());
    }
  }

  lemma EnrollsKept(db: Tables, athletes: set<Id>, leaders: set<Id>, first: Option<Id>)
    ensures WithoutLeaders(WithoutAthletes(db, athletes), leaders, first).enrolls == db.enrolls
  {}

  // ---- validation only gets stricter as registrations are added ------------------------------

  /** The same people and teams, with possibly more registrations. */
  ghost predicate Extends(few: Tables, many: Tables) {
    && (forall k | k in few.enrolls :: IsPerson(many, k, few.enrolls[k]))
    && (forall k | k in few.athletes :: k in many.athletes && many.athletes[k] == few.athletes[k])
    && (forall k | k in few.leaders :: k in many.leaders && many.leaders[k] == few.leaders[k])
    && (forall k | k in few.athleteParts :: k in many.athleteParts && many.athleteParts[k] == few.athleteParts[k])
    && (forall k | k in few.leaderParts :: k in many.leaderParts && many.leaderParts[k] == few.leaderParts[k])
    && few.teams == many.teams
  }

  lemma {:induction false} SubsetSmaller(a: set<Id>, b: set<Id>)
    requires a <= b
    ensures |a| <= |b|
  {
    if a != {} {
      var x :| x in a;
      SubsetSmaller(a - {x}, b - {x});
    }
  }

  lemma CountsGrow(few: Tables, many: Tables, e: Id, s: Id, o: Id, t: Id)
    requires Extends(few, many)
    ensures EventCount(few, e) <= EventCount(many, e)
    ensures |PartsOfOrg(few, e, s, o)| <= |PartsOfOrg(many, e, s, o)|
    ensures |Members(few, t)| <= |Members(many, t)|
  {
    SubsetSmaller(PartsOfEvent(few, e), PartsOfEvent(many, e));
    SubsetSmaller(LeadersOfEvent(few, e), LeadersOfEvent(many, e));
    SubsetSmaller(PartsOfOrg(few, e, s, o), PartsOfOrg(many, e, s, o));
    SubsetSmaller(Members(few, t), Members(many, t));
  }

  lemma DuplicateStays(few: Tables, many: Tables, r: Request)
    requires Extends(few, many) && Duplicate(few, r)
    ensures Duplicate(many, r)
  {
    if p :|
      p in few.athleteParts && few.athleteParts[p].event == r.event && AthleteIs(few, few.athleteParts[p], r.person)
    {
      assert p in many.athleteParts && AthleteIs(many, many.athleteParts[p], r.person);
    } else {
      var p :| p in few.leaderParts && few.leaderParts[p].event == r.event
        && LeaderIs(few, few.leaderParts[p], r.person);
      assert p in many.leaderParts && LeaderIs(many, many.leaderParts[p], r.person);
    }
  }

  /** What is accepted after more registrations was acceptable before them. */
  lemma ValidateMonotone(cfg: Config, few: Tables, many: Tables, r: Request, today: Date)
    requires Extends(few, many) && Validate(cfg, many, r, today) == None
    ensures Validate(cfg, few, r, today) == None
  {
    CountsGrow(few, many, r.event, r.sport, r.org, if r.team.Some? then r.team.value else 0);
    if Duplicate(few, r) { DuplicateStays(few, many, r); }
    hide EventCount, PartsOfOrg, Members, Duplicate, AgeAllowed, DocumentsGiven, ConsentGiven;
  }

  // ---- deleting undoes registering ---------------------------------------------------------------

  /** Ids not handed out yet are unused, and rows refer to rows that exist. */
  ghost predicate WellKept(db: Tables, ids: Sequences) {
    && (forall k | k in db.enrolls :: k < ids.enroll)
    && (forall k | k in db.athletes :: k < ids.athlete && db.athletes[k] in db.enrolls)
    && (forall k | k in db.leaders :: k < ids.leader && db.leaders[k] in db.enrolls)
    && (forall k | k in db.athleteParts ::
      k < ids.athletePart && (db.athleteParts[k].athlete.Some? ==> db.athleteParts[k].athlete.value in db.athletes))
    && (forall k | k in db.leaderParts ::
      k < ids.leaderPart && (db.leaderParts[k].leader.Some? ==> db.leaderParts[k].leader.value in db.leaders))
    && (forall k | k in db.teams :: k < ids.team)
  }

  lemma OwnRowsOfAthlete(db: Tables, ids: Sequences, r: Request)
    requires WellKept(db, ids)
    ensures AthletesOf(WithAthlete(db, ids, r), ids.enroll) == {ids.athlete}
    ensures LeadersOf(WithAthlete(db, ids, r), ids.enroll) == {}
  {}

  lemma OwnRowsOfLeader(db: Tables, ids: Sequences, r: Request)
    requires WellKept(db, ids)
    ensures AthletesOf(WithLeader(db, ids, r), ids.enroll) == {}
    ensures LeadersOf(WithLeader(db, ids, r), ids.enroll) == {ids.leader}
  {}

  lemma AthleteUndone(db: Tables, ids: Sequences, r: Request)
    requires WellKept(db, ids)
    ensures WithoutEnroll(WithAthlete(db, ids, r), ids.enroll, None) == db
  {
    OwnRowsOfAthlete(db, ids, r);
    var back := WithoutEnroll(WithAthlete(db, ids, r), ids.enroll, None);
    hide AthletesOf, LeadersOf;
    assert back.enrolls == db.enrolls;
    assert back.athletes == db.athletes && back.leaders == db.leaders;
    assert back.athleteParts == db.athleteParts;
    assert back.leaderParts == db.leaderParts;
  }

  lemma LeaderUndone(db: Tables, ids: Sequences, r: Request)
    requires WellKept(db, ids)
    ensures WithoutEnroll(WithLeader(db, ids, r), ids.enroll, Some(ids.leader)) == db
  {
    OwnRowsOfLeader(db, ids, r);
    var back := WithoutEnroll(WithLeader(db, ids, r), ids.enroll, Some(ids.leader));
    hide AthletesOf, LeadersOf;
    assert back.enrolls == db.enrolls;
    assert back.athletes == db.athletes && back.leaders == db.leaders;
    assert back.athleteParts == db.athleteParts;
    assert back.leaderParts == db.leaderParts;
  }

  /** Registering somebody and deleting the enrollment gives back exactly the tables from before. */
  lemma DeleteUndoesRegister(cfg: Config, db: Tables, ids: Sequences, r: Request, today: Date, first: Option<Id>)
    requires WellKept(db, ids) && RegisterResult(cfg, db, ids, r, true, today).Ok?
    requires FirstLeader(AfterRegister(cfg, db, ids, r, true, today), ids.enroll, first)
    ensures WithoutEnroll(AfterRegister(cfg, db, ids, r, true, today), ids.enroll, first) == db
  {
    hide Validate, WithoutEnroll, WithAthlete, WithLeader, WellKept, AthletesOf, LeadersOf;
    if r.role == Athlete {
      OwnRowsOfAthlete(db, ids, r);
      AthleteUndone(db, ids, r);
    } else {
      OwnRowsOfLeader(db, ids, r);
      LeaderUndone(db, ids, r);
    }
  }
}
