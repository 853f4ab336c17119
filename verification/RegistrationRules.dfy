/**
 What the registration and team rules demand, stated over calendar dates and counts and apart
 from the order in which the code asks; the code refuses with the first demand not met.
 */
module RegistrationRules {
  import opened Prelude
  import opened Registration
  import opened Teams

  // ---- ages as birthdays -----------------------------------------------------------------

  /** Day a comes before day b in the calendar. */
  predicate Before(a: Date, b: Date) {
    || a.year < b.year
    || (a.year == b.year && a.month < b.month)
    || (a.year == b.year && a.month == b.month && a.day < b.day)
  }

  /**
   The n-th birthday. Born on a 29 February, it lies between the last of February and the first of March of a common
   year.
   */
  function Birthday(birth: Date, n: int): Date { Date(birth.year + n, birth.month, birth.day) }

  /** Somebody is n years old from the n-th birthday on. */
  lemma AgeIs(birth: Date, on: Date, n: int)
    ensures AgeOn(birth, on) >= n <==> !Before(on, Birthday(birth, n))
    ensures AgeOn(birth, on) == n <==> !Before(on, Birthday(birth, n)) && Before(on, Birthday(birth, n + 1))
  {}

  /**
   A window of exact ages admits those whose birthday of the least age has come and of the age after the greatest has
   not.
   */
  lemma AgeWindowIff(e: Event, birth: Date)
    ensures AgeAllowed(e, birth) <==>
            || e.ageMode == None || e.ageMin == None || e.ageMax == None
            || (e.ageMode == Some(BirthYear) && e.ageMin.value <= birth.year && birth.year <= e.ageMax.value)
            || (e.ageMode == Some(ExactAge) && (e.startDate.Some? ==>
                  && !Before(e.startDate.value, Birthday(birth, e.ageMin.value))
                  && Before(e.startDate.value, Birthday(birth, e.ageMax.value + 1))))
  {}

  /** The day a rule about minors looks at: the event's first, or today when it has none. */
  ghost predicate Judged(e: Event, today: Date, on: Date) {
    (e.startDate == Some(on)) || (e.startDate == None && on == today)
  }

  /**
   Documents are missing for a minor without birth certificate, and for anybody else without national id and
   passport.
   */
  lemma DocumentsMissingIff(e: Event, r: Request, today: Date, on: Date)
    requires Judged(e, today, on)
    ensures !DocumentsGiven(e, r, today) <==>
            || (Before(on, Birthday(r.person.birth, 18)) && !r.birthCertificate)
            || (!Before(on, Birthday(r.person.birth, 18)) && !r.nationalId && !r.passport)
  {
    AgeIs(r.person.birth, on, 18);
  }

  /**
   Consent is missing where it is enforced, the birthday of the set age has not come, and not all three fields are
   given.
   */
  lemma ConsentMissingIff(cfg: Config, e: Event, r: Request, today: Date, on: Date)
    requires Judged(e, today, on)
    ensures !ConsentGiven(cfg, e, r, today) <==>
            && cfg.consentEnforced && Before(on, Birthday(r.person.birth, cfg.minorAge))
            && (!r.guardianConsent || !r.guardianName || !r.guardianRelationship)
  {
    AgeIs(r.person.birth, on, cfg.minorAge);
  }

  // ---- every demand of a registration ----------------------------------------------------

  /** The category exists, for this sport of this event. */
  predicate CategoryFits(cfg: Config, r: Request) {
    && r.category.Some? && r.category.value in cfg.categories
    && cfg.categories[r.category.value].event == r.event && cfg.categories[r.category.value].sport == r.sport
  }

  /** The athlete names a team, in a category that exists. */
  predicate NamesTeam(cfg: Config, r: Request) { r.role == Athlete && r.team.Some? && CategoryFits(cfg, r) }

  predicate TeamExists(cfg: Config, db: Tables, r: Request) { NamesTeam(cfg, r) && r.team.value in db.teams }

  /** The demand behind each refusal is not met; a demand that does not apply is not unmet. */
  ghost predicate Unmet(cfg: Config, db: Tables, r: Request, today: Date, rule: Rejection) {
    match rule
    case EventNotFound => r.event !in cfg.events
    case RegistrationClosed => r.event in cfg.events && !cfg.events[r.event].registrationOpen
    case CapReached =>
      && r.event in cfg.events && cfg.events[r.event].cap.Some?
      && |set p | p in db.athleteParts && db.athleteParts[p].event == r.event|
         + |set p | p in db.leaderParts && db.leaderParts[p].event == r.event| >= cfg.events[r.event].cap.value
    case SportNotEligible => (r.event, r.sport, r.org) !in cfg.eligible
    case CategoryInvalid => r.role == Athlete && !CategoryFits(cfg, r)
    case AgeOutOfRange => r.role == Athlete && r.event in cfg.events && !AgeAllowed(cfg.events[r.event], r.person.birth)
    case QuotaFull =>
      && r.role == Athlete && (r.event, r.sport) in cfg.sports && cfg.sports[(r.event, r.sport)].athleteQuota.Some?
      && |set p | p in db.athleteParts && db.athleteParts[p].event == r.event && db.athleteParts[p].sport == r.sport
                  && db.athleteParts[p].org == r.org| >= cfg.sports[(r.event, r.sport)].athleteQuota.value
    case TeamModeDisallowed =>
      NamesTeam(cfg, r)
        && (cfg.categories[r.category.value].teamSizeMax.Some? ==>
          cfg.categories[r.category.value].teamSizeMax.value < 2)
    case TeamNotFound => NamesTeam(cfg, r) && r.team.value !in db.teams
    case TeamMismatch =>
      TeamExists(cfg, db, r) && !(db.teams[r.team.value].event == r.event && db.teams[r.team.value].sport == r.sport)
    case TeamOrgMismatch => TeamExists(cfg, db, r) && db.teams[r.team.value].org != r.org
    case TeamCategoryMismatch => TeamExists(cfg, db, r) && db.teams[r.team.value].category != r.category
    case TeamFull =>
      && TeamExists(cfg, db, r) && cfg.categories[r.category.value].teamSizeMax.Some?
      && |set p | p in db.athleteParts
        && db.athleteParts[p].team == r.team| >= cfg.categories[r.category.value].teamSizeMax.value
    case DocumentRequired => r.event in cfg.events && !DocumentsGiven(cfg.events[r.event], r, today)
    case GuardianConsentRequired => r.event in cfg.events && !ConsentGiven(cfg, cfg.events[r.event], r, today)
    case DuplicateSuspect => !r.force && TakesPart(db, r.event, r.person)
    case _ => false
  }

  /** Someone of this name and birth date is an athlete or a leader of the event. */
  ghost predicate TakesPart(db: Tables, event: Id, person: Person) {
    exists enroll | enroll in db.enrolls && db.enrolls[enroll] == person ::
      || (exists a, p | a in db.athletes && p in db.athleteParts ::
            db.athletes[a] == enroll && db.athleteParts[p].athlete == Some(a) && db.athleteParts[p].event == event)
      || (exists l, p | l in db.leaders && p in db.leaderParts ::
            db.leaders[l] == enroll && db.leaderParts[p].leader == Some(l) && db.leaderParts[p].event == event)
  }

  /** The order in which the demands are looked at. */
  function Rank(rule: Rejection): nat {
    match rule
    case EventNotFound => 0
    case RegistrationClosed => 1
    case CapReached => 2
    case SportNotEligible => 3
    case CategoryInvalid => 4
    case AgeOutOfRange => 5
    case QuotaFull => 6
    case TeamModeDisallowed => 7
    case TeamNotFound => 8
    case TeamMismatch => 9
    case TeamOrgMismatch => 10
    case TeamCategoryMismatch => 11
    case TeamFull => 12
    case DocumentRequired => 13
    case GuardianConsentRequired => 14
    case DuplicateSuspect => 15
    case _ => 16
  }

  lemma DuplicateIff(db: Tables, r: Request)
    ensures Duplicate(db, r) <==> TakesPart(db, r.event, r.person)
  {
    if p :| p in db.athleteParts && db.athleteParts[p].event == r.event && AthleteIs(db, db.athleteParts[p], r.person) {
      var a := db.athleteParts[p].athlete.value;
      assert db.athletes[a] in db.enrolls;
    }
    if p :| p in db.leaderParts && db.leaderParts[p].event == r.event && LeaderIs(db, db.leaderParts[p], r.person) {
      var l := db.leaderParts[p].leader.value;
      assert db.leaders[l] in db.enrolls;
    }
  }

  lemma CountsAre(db: Tables, r: Request)
    ensures EventCount(db, r.event) == |set p | p in db.athleteParts && db.athleteParts[p].event == r.event|
                                       + |set p | p in db.leaderParts && db.leaderParts[p].event == r.event|
    ensures |PartsOfOrg(db, r.event, r.sport, r.org)|
            == |set p | p in db.athleteParts && db.athleteParts[p].event == r.event
              && db.athleteParts[p].sport == r.sport
                        && db.athleteParts[p].org == r.org|
    ensures r.team.Some? ==>
              |Members(db, r.team.value)| == |set p | p in db.athleteParts && db.athleteParts[p].team == r.team|
  {
    assert PartsOfEvent(db, r.event) == set p | p in db.athleteParts && db.athleteParts[p].event == r.event;
    assert LeadersOfEvent(db, r.event) == set p | p in db.leaderParts && db.leaderParts[p].event == r.event;
    assert PartsOfOrg(db, r.event, r.sport, r.org)
           == set p | p in db.athleteParts && db.athleteParts[p].event == r.event && db.athleteParts[p].sport == r.sport
                      && db.athleteParts[p].org == r.org;
    if r.team.Some? {
      assert Members(db, r.team.value) == set p | p in db.athleteParts && db.athleteParts[p].team == r.team;
    }
  }

  /** The demands of rank below k, one by one. */
  ghost predicate MetBelow(cfg: Config, db: Tables, r: Request, today: Date, k: nat) {
    && (k > 0 ==> !Unmet(cfg, db, r, today, EventNotFound))
    && (k > 1 ==> !Unmet(cfg, db, r, today, RegistrationClosed))
    && (k > 2 ==> !Unmet(cfg, db, r, today, CapReached))
    && (k > 3 ==> !Unmet(cfg, db, r, today, SportNotEligible))
    && (k > 4 ==> !Unmet(cfg, db, r, today, CategoryInvalid))
    && (k > 5 ==> !Unmet(cfg, db, r, today, AgeOutOfRange))
    && (k > 6 ==> !Unmet(cfg, db, r, today, QuotaFull))
    && (k > 7 ==> !Unmet(cfg, db, r, today, TeamModeDisallowed))
    && (k > 8 ==> !Unmet(cfg, db, r, today, TeamNotFound))
    && (k > 9 ==> !Unmet(cfg, db, r, today, TeamMismatch))
    && (k > 10 ==> !Unmet(cfg, db, r, today, TeamOrgMismatch))
    && (k > 11 ==> !Unmet(cfg, db, r, today, TeamCategoryMismatch))
    && (k > 12 ==> !Unmet(cfg, db, r, today, TeamFull))
    && (k > 13 ==> !Unmet(cfg, db, r, today, DocumentRequired))
    && (k > 14 ==> !Unmet(cfg, db, r, today, GuardianConsentRequired))
    && (k > 15 ==> !Unmet(cfg, db, r, today, DuplicateSuspect))
  }

  lemma MetBelowIff(cfg: Config, db: Tables, r: Request, today: Date, k: nat)
    ensures MetBelow(cfg, db, r, today, k) <==> forall other | Rank(other) < k :: !Unmet(cfg, db, r, today, other)
  {
    if MetBelow(cfg, db, r, today, k) {
      forall other | Rank(other) < k ensures !Unmet(cfg, db, r, today, other) {
        hide Unmet;
        match other {
          case EventNotFound => case RegistrationClosed => case CapReached => case SportNotEligible =>
          case CategoryInvalid => case AgeOutOfRange => case QuotaFull => case TeamModeDisallowed =>
          case TeamNotFound => case TeamMismatch => case TeamOrgMismatch => case TeamCategoryMismatch =>
          case TeamFull => case DocumentRequired => case GuardianConsentRequired => case DuplicateSuspect =>
          case _ => OtherDemands(cfg, db, r, today, other);
        }
      }
    } else {
      hide Unmet;
      assert Rank(EventNotFound) == 0 && Rank(RegistrationClosed) == 1 && Rank(CapReached) == 2;
    }
  }

  lemma OtherDemands(cfg: Config, db: Tables, r: Request, today: Date, rule: Rejection)
    requires Rank(rule) == 16
    ensures !Unmet(cfg, db, r, today, rule)
  {}

  /** The team rules, in the terms of the demands. */
  lemma TeamRuleIs(cfg: Config, db: Tables, r: Request, today: Date)
    requires NamesTeam(cfg, r)
    ensures TeamRule(cfg, db, r) ==
            if Unmet(cfg, db, r, today, TeamModeDisallowed) then Some(TeamModeDisallowed)
            else if Unmet(cfg, db, r, today, TeamNotFound) then Some(TeamNotFound)
            else if Unmet(cfg, db, r, today, TeamMismatch) then Some(TeamMismatch)
            else if Unmet(cfg, db, r, today, TeamOrgMismatch) then Some(TeamOrgMismatch)
            else if Unmet(cfg, db, r, today, TeamCategoryMismatch) then Some(TeamCategoryMismatch)
            else if Unmet(cfg, db, r, today, TeamFull) then Some(TeamFull)
            else None
  {
    CountsAre(db, r);
    hide Members;
  }

  lemma TeamDemands(cfg: Config, db: Tables, r: Request, today: Date)
    requires !NamesTeam(cfg, r)
    ensures !Unmet(cfg, db, r, today, TeamModeDisallowed) && !Unmet(cfg, db, r, today, TeamNotFound)
    ensures !Unmet(cfg, db, r, today, TeamMismatch) && !Unmet(cfg, db, r, today, TeamOrgMismatch)
    ensures !Unmet(cfg, db, r, today, TeamCategoryMismatch) && !Unmet(cfg, db, r, today, TeamFull)
  {}

  /** The athlete rules. */
  lemma AthleteRuleIs(cfg: Config, db: Tables, r: Request, today: Date)
    requires r.role == Athlete && r.event in cfg.events
    ensures AthleteRule(cfg, db, r) ==
            if Unmet(cfg, db, r, today, CategoryInvalid) then Some(CategoryInvalid)
            else if Unmet(cfg, db, r, today, AgeOutOfRange) then Some(AgeOutOfRange)
            else if Unmet(cfg, db, r, today, QuotaFull) then Some(QuotaFull)
            else if NamesTeam(cfg, r) then TeamRule(cfg, db, r)
            else None
  {
    CountsAre(db, r);
    hide TeamRule, AgeAllowed, PartsOfOrg;
  }

  lemma AthleteDemands(cfg: Config, db: Tables, r: Request, today: Date)
    requires r.role != Athlete
    ensures !Unmet(cfg, db, r, today, CategoryInvalid) && !Unmet(cfg, db, r, today, AgeOutOfRange)
    ensures !Unmet(cfg, db, r, today, QuotaFull) && !NamesTeam(cfg, r)
  {}

  lemma ValidateIs(cfg: Config, db: Tables, r: Request, today: Date)
    ensures Validate(cfg, db, r, today) ==
            if Unmet(cfg, db, r, today, EventNotFound) then Some(EventNotFound)
            else if Unmet(cfg, db, r, today, RegistrationClosed) then Some(RegistrationClosed)
            else if Unmet(cfg, db, r, today, CapReached) then Some(CapReached)
            else if Unmet(cfg, db, r, today, SportNotEligible) then Some(SportNotEligible)
            else if r.role == Athlete && AthleteRule(cfg, db, r).Some? then AthleteRule(cfg, db, r)
            else if Unmet(cfg, db, r, today, DocumentRequired) then Some(DocumentRequired)
            else if Unmet(cfg, db, r, today, GuardianConsentRequired) then Some(GuardianConsentRequired)
            else if Unmet(cfg, db, r, today, DuplicateSuspect) then Some(DuplicateSuspect)
            else None
  {
    CountsAre(db, r);
    DuplicateIff(db, r);
    hide EventCount, AthleteRule, Duplicate, TakesPart, DocumentsGiven, ConsentGiven;
  }

  lemma RefusedByOrder(cfg: Config, db: Tables, r: Request, today: Date, rule: Rejection)
    ensures Validate(cfg, db, r, today) == Some(rule) <==>
            Unmet(cfg, db, r, today, rule) && MetBelow(cfg, db, r, today, Rank(rule))
    ensures Validate(cfg, db, r, today) == None <==> MetBelow(cfg, db, r, today, 16)
  {
    hide Validate, AthleteRule, TeamRule, Unmet, NamesTeam;
    ValidateIs(cfg, db, r, today);
    if !Unmet(cfg, db, r, today, EventNotFound) { KnownEvent(cfg, db, r, today); }
    if r.role == Athlete {
      if r.event in cfg.events { AthleteRuleIs(cfg, db, r, today); }
    } else {
      AthleteDemands(cfg, db, r, today);
    }
    if NamesTeam(cfg, r) { TeamRuleIs(cfg, db, r, today); } else { TeamDemands(cfg, db, r, today); }
    if Rank(rule) == 16 { OtherDemands(cfg, db, r, today, rule); }
  }

  lemma KnownEvent(cfg: Config, db: Tables, r: Request, today: Date)
    requires !Unmet(cfg, db, r, today, EventNotFound)
    ensures r.event in cfg.events
  {}

  /** A registration is refused with a rule exactly when its demand is the first that is not met. */
  lemma RefusedIff(cfg: Config, db: Tables, r: Request, today: Date, rule: Rejection)
    ensures Validate(cfg, db, r, today) == Some(rule) <==>
            && Unmet(cfg, db, r, today, rule)
            && forall other | Rank(other) < Rank(rule) :: !Unmet(cfg, db, r, today, other)
  {
    hide Unmet, MetBelow, Validate;
    RefusedByOrder(cfg, db, r, today, rule);
    MetBelowIff(cfg, db, r, today, Rank(rule));
  }

  /** And it is accepted exactly when every demand is met. */
  lemma AcceptedIff(cfg: Config, db: Tables, r: Request, today: Date)
    ensures Validate(cfg, db, r, today) == None <==> forall rule :: !Unmet(cfg, db, r, today, rule)
  {
    hide Unmet, MetBelow, Validate;
    RefusedByOrder(cfg, db, r, today, EventNotFound);
    MetBelowIff(cfg, db, r, today, 16);
    forall rule | Rank(rule) >= 16 ensures !Unmet(cfg, db, r, today, rule) { OtherDemands(cfg, db, r, today, rule); }
  }

  /** Past the earlier demands, documents are asked for by the eighteenth birthday. */
  lemma RefusedForDocumentsIff(cfg: Config, db: Tables, r: Request, today: Date, on: Date)
    requires r.event in cfg.events && Judged(cfg.events[r.event], today, on)
    requires forall other | Rank(other) < Rank(DocumentRequired) :: !Unmet(cfg, db, r, today, other)
    ensures Validate(cfg, db, r, today) == Some(DocumentRequired) <==>
            || (Before(on, Birthday(r.person.birth, 18)) && !r.birthCertificate)
            || (!Before(on, Birthday(r.person.birth, 18)) && !r.nationalId && !r.passport)
  {
    RefusedIff(cfg, db, r, today, DocumentRequired);
    DocumentsMissingIff(cfg.events[r.event], r, today, on);
    hide Validate, DocumentsGiven, Before;
  }

  /**
   Past the earlier demands, an athlete is refused for age by the birth year or by the two birthdays, as the event
   says.
   */
  lemma RefusedForAgeIff(cfg: Config, db: Tables, r: Request, today: Date)
    requires r.role == Athlete
    requires forall other | Rank(other) < Rank(AgeOutOfRange) :: !Unmet(cfg, db, r, today, other)
    requires r.event in cfg.events
    ensures var e, birth := cfg.events[r.event], r.person.birth;
            Validate(cfg, db, r, today) == Some(AgeOutOfRange) <==>
            && e.ageMode.Some? && e.ageMin.Some? && e.ageMax.Some?
            && (e.ageMode == Some(BirthYear) ==> birth.year < e.ageMin.value || e.ageMax.value < birth.year)
            && (e.ageMode == Some(ExactAge) ==>
                  && e.startDate.Some?
                  && (Before(e.startDate.value, Birthday(birth, e.ageMin.value))
                      || !Before(e.startDate.value, Birthday(birth, e.ageMax.value + 1))))
  {
    RefusedIff(cfg, db, r, today, AgeOutOfRange);
    AgeWindowIff(cfg.events[r.event], r.person.birth);
    hide Validate, AgeAllowed, Before;
  }

  /** Past the earlier demands, consent is asked for by the birthday of the set age, where it is enforced. */
  lemma RefusedForConsentIff(cfg: Config, db: Tables, r: Request, today: Date, on: Date)
    requires r.event in cfg.events && Judged(cfg.events[r.event], today, on)
    requires forall other | Rank(other) < Rank(GuardianConsentRequired) :: !Unmet(cfg, db, r, today, other)
    ensures Validate(cfg, db, r, today) == Some(GuardianConsentRequired) <==>
            && cfg.consentEnforced && Before(on, Birthday(r.person.birth, cfg.minorAge))
            && (!r.guardianConsent || !r.guardianName || !r.guardianRelationship)
  {
    RefusedIff(cfg, db, r, today, GuardianConsentRequired);
    ConsentMissingIff(cfg, cfg.events[r.event], r, today, on);
    hide Validate, ConsentGiven, Before;
  }

  /**
   The whole use case succeeds exactly for an athlete, or a leader with a role, whose files are allowed and whose
   demands are met.
   */
  lemma RegisteredIff(cfg: Config, db: Tables, ids: Sequences, r: Request, filesAllowed: bool, today: Date)
    ensures RegisterResult(cfg, db, ids, r, filesAllowed, today).Ok? <==>
            && filesAllowed && (forall rule :: !Unmet(cfg, db, r, today, rule))
            && (r.role == Athlete || (r.role == Leader && r.leaderRole))
    ensures RegisterResult(cfg, db, ids, r, filesAllowed, today).Err? ==>
              AfterRegister(cfg, db, ids, r, filesAllowed, today) == db
  {
    hide Validate, Unmet;
    AcceptedIff(cfg, db, r, today);
  }

  // ---- what a registration adds --------------------------------------------------------------

  /** The new rows: one enrollment of the person, one athlete or leader of it, and one participation as asked for. */
  lemma RegisteredRows(cfg: Config, db: Tables, ids: Sequences, r: Request, today: Date)
    requires WellKept(db, ids) && RegisterResult(cfg, db, ids, r, true, today).Ok?
    ensures var after := AfterRegister(cfg, db, ids, r, true, today);
      && ids.enroll !in db.enrolls && after.enrolls == db.enrolls[ids.enroll := r.person] && after.teams == db.teams
      && (r.role == Athlete ==>
            && after.athletes == db.athletes[ids.athlete := ids.enroll]
            && after.leaders == db.leaders && after.leaderParts == db.leaderParts
            && ids.athletePart !in db.athleteParts
              && after.athleteParts.Keys == db.athleteParts.Keys + {ids.athletePart}
            && (forall p | p in db.athleteParts :: after.athleteParts[p] == db.athleteParts[p])
            && var part := after.athleteParts[ids.athletePart];
               && part.athlete == Some(ids.athlete) && part.event == r.event && part.sport == r.sport
               && part.category == r.category && part.org == r.org && part.team == r.team)
      && (r.role == Leader ==>
            && after.leaders == db.leaders[ids.leader := ids.enroll]
            && after.athletes == db.athletes && after.athleteParts == db.athleteParts
            && ids.leaderPart !in db.leaderParts && after.leaderParts.Keys == db.leaderParts.Keys + {ids.leaderPart}
            && (forall p | p in db.leaderParts :: after.leaderParts[p] == db.leaderParts[p])
            && var part := after.leaderParts[ids.leaderPart];
               part.leader == Some(ids.leader) && part.event == r.event && part.sport == r.sport && part.org == r.org)
      && (r.role == Athlete || r.role == Leader)
  {
    hide Validate;
  }

  /** Registering the same person for the same event again is refused, unless forced. */
  lemma SecondRegistrationRefused(cfg: Config, db: Tables, ids: Sequences, r: Request, again: Request, today: Date)
    requires WellKept(db, ids) && RegisterResult(cfg, db, ids, r, true, today).Ok?
    requires again.event == r.event && again.person == r.person && !again.force
    ensures Validate(cfg, AfterRegister(cfg, db, ids, r, true, today), again, today).Some?
  {
    var after := AfterRegister(cfg, db, ids, r, true, today);
    RegisteredRows(cfg, db, ids, r, today);
    hide AfterRegister, RegisterResult, Validate, WellKept;
    assert ids.enroll in after.enrolls && after.enrolls[ids.enroll] == r.person;
    if r.role == Athlete {
      assert ids.athlete in after.athletes && ids.athletePart in after.athleteParts;
    } else {
      assert ids.leader in after.leaders && ids.leaderPart in after.leaderParts;
    }
    assert TakesPart(after, again.event, again.person);
    AcceptedIff(cfg, after, again, today);
    assert Unmet(cfg, after, again, today, DuplicateSuspect);
  }

  // ---- teams ---------------------------------------------------------------------------------

  /**
   A team is created exactly where the event is open, the sport allows teams, the quota has room and the name is
   free.
   */
  lemma CreatedIff(cfg: Config, db: Tables, n: NewTeam)
    ensures CreateRule(cfg, db, n) == None <==>
            && n.event in cfg.events && cfg.events[n.event].registrationOpen
            && (n.event, n.sport) in cfg.sports && cfg.sports[(n.event, n.sport)].teams
            && (cfg.sports[(n.event, n.sport)].teamQuota.Some? ==>
                  |set t | t in db.teams && db.teams[t].event == n.event && db.teams[t].sport == n.sport
                    && db.teams[t].org == n.org|
                  < cfg.sports[(n.event, n.sport)].teamQuota.value)
            && (forall t | t in db.teams :: !(db.teams[t].event == n.event && db.teams[t].sport == n.sport
                  && db.teams[t].org == n.org && db.teams[t].category == n.category && db.teams[t].name == n.name))
  {
    assert TeamsOf(db, n.event, n.sport, n.org)
           == set t | t in db.teams && db.teams[t].event == n.event && db.teams[t].sport == n.sport
             && db.teams[t].org == n.org;
    hide TeamsOf;
    if CreateRule(cfg, db, n) == None {
      forall t | t in db.teams
        ensures !(db.teams[t].event == n.event && db.teams[t].sport == n.sport && db.teams[t].org == n.org
                  && db.teams[t].category == n.category && db.teams[t].name == n.name)
      {
        assert db.teams[t] != Team(n.event, n.sport, n.org, n.category, n.name);
      }
    }
  }

  /** A participation of the enrollment in the team's event and sport for its organization. */
  predicate Fits(db: Tables, t: Id, enroll: Id, p: Id)
    requires t in db.teams && p in db.athleteParts
  {
    var part, team := db.athleteParts[p], db.teams[t];
    && part.athlete.Some? && part.athlete.value in db.athletes && db.athletes[part.athlete.value] == enroll
    && part.event == team.event && part.sport == team.sport && part.org == team.org
  }

  /**
   Adding the enrollment succeeds exactly where the team exists and is below the sport's maximum,
   one participation fits it and no other, and that one has no team and the team's category if it names one.
   */
  lemma AddedIff(cfg: Config, db: Tables, t: Id, enroll: Id, p: Id)
    ensures AddAnswers(cfg, db, t, enroll, Ok(p)) <==>
            && t in db.teams && p in db.athleteParts
            && ((db.teams[t].event, db.teams[t].sport) in cfg.sports
                && cfg.sports[(db.teams[t].event, db.teams[t].sport)].teamSizeMax.Some? ==>
                  |Members(db, t)| < cfg.sports[(db.teams[t].event, db.teams[t].sport)].teamSizeMax.value)
            && Fits(db, t, enroll, p) && (forall q | q in db.athleteParts && Fits(db, t, enroll, q) :: q == p)
            && db.athleteParts[p].team == None
            && (db.teams[t].category.Some? ==> db.athleteParts[p].category == db.teams[t].category)
  {
    hide Members;
    if t in db.teams {
      var found := Candidates(db, t, enroll);
      assert forall q :: q in found <==> q in db.athleteParts && Fits(db, t, enroll, q);
      if found == {p} { assert |found| == 1; }
    }
  }

  /** Removing the member just added gives back the tables from before. */
  lemma RemoveUndoesAdd(cfg: Config, db: Tables, t: Id, enroll: Id, p: Id)
    requires AddAnswers(cfg, db, t, enroll, Ok(p)) && p in db.athleteParts
    requires MembersFit(db, t)
    ensures var joined := WithTeam(db, p, Some(t));
      && RemoveAnswers(joined, t, enroll, Ok(p)) && p in joined.athleteParts && WithTeam(joined, p, None) == db
  {
    AddedIff(cfg, db, t, enroll, p);
    hide AddAnswers;
    var joined := WithTeam(db, p, Some(t));
    forall q | q in OnTeam(joined, t, enroll) ensures q == p {
      assert q == p || q in Members(db, t);
      assert Fits(db, t, enroll, q);
    }
    assert OnTeam(joined, t, enroll) == {p};
  }

  /** The members of a team are participations of its event, sport and organization. */
  ghost predicate MembersFit(db: Tables, t: Id) {
    t in db.teams ==> forall p | p in Members(db, t) ::
      && db.athleteParts[p].event == db.teams[t].event && db.athleteParts[p].sport == db.teams[t].sport
      && db.athleteParts[p].org == db.teams[t].org
  }

  // ---- deleting --------------------------------------------------------------------------------

  /**
   Deleting an enrollment leaves no athlete, no leader and no athlete participation of it, and
   of everybody else every row as it was; of its leader participations only those of the leader
   found first go, the others stay without a leader.
   */
  lemma DeletedExactly(db: Tables, enroll: Id, first: Option<Id>)
    requires FirstLeader(db, enroll, first)
    ensures var after := WithoutEnroll(db, enroll, first);
      && (forall k: Id :: k in after.enrolls <==> k in db.enrolls && k != enroll)
      && (forall a: Id :: a in after.athletes <==> a in db.athletes && db.athletes[a] != enroll)
      && (forall l: Id :: l in after.leaders <==> l in db.leaders && db.leaders[l] != enroll)
      && (forall p: Id :: p in after.athleteParts <==>
            p in db.athleteParts && !OfEnroll(db.athletes, db.athleteParts[p].athlete, enroll))
      && (forall p: Id :: p in after.leaderParts <==>
            p in db.leaderParts && (first.Some? ==> db.leaderParts[p].leader != first))
    ensures var after := WithoutEnroll(db, enroll, first);
      && (forall k | k in after.enrolls :: after.enrolls[k] == db.enrolls[k])
      && (forall a | a in after.athletes :: after.athletes[a] == db.athletes[a])
      && (forall l | l in after.leaders :: after.leaders[l] == db.leaders[l])
      && (forall p | p in after.athleteParts :: after.athleteParts[p] == db.athleteParts[p])
      && (forall p | p in after.leaderParts :: after.leaderParts[p]
            == if OfEnroll(db.leaders, db.leaderParts[p].leader, enroll) then db.leaderParts[p].(leader := None)
              else db.leaderParts[p])
      && after.teams == db.teams
  {}

  /** The row a participation refers to is the enrollment's. */
  predicate OfEnroll(owners: map<Id, Id>, owner: Option<Id>, enroll: Id) {
    owner.Some? && owner.value in owners && owners[owner.value] == enroll
  }
}
