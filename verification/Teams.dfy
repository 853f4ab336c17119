/** Team creation, membership and deletion over the same tables. */
module Teams {
  import opened Prelude
  import opened Registration

  datatype NewTeam = NewTeam(event: Id, sport: Id, org: Id, category: Option<Id>, name: string)

  function TeamsOf(db: Tables, e: Id, s: Id, o: Id): set<Id> {
    set t | t in db.teams && db.teams[t].event == e && db.teams[t].sport == s && db.teams[t].org == o
  }

  predicate NameTaken(db: Tables, n: NewTeam) {
    exists t | t in db.teams :: db.teams[t] == Team(n.event, n.sport, n.org, n.category, n.name)
  }

  function CreateRule(cfg: Config, db: Tables, n: NewTeam): Option<Rejection> {
    if n.event !in cfg.events then Some(EventNotFound)
    else if !cfg.events[n.event].registrationOpen then Some(RegistrationClosed)
    else if (n.event, n.sport) !in cfg.sports then Some(SportNotInEvent)
    else
      var sport := cfg.sports[(n.event, n.sport)];
      if !sport.teams then Some(TeamModeDisallowed)
      else if sport.teamQuota.Some?
        && |TeamsOf(db, n.event, n.sport, n.org)| >= sport.teamQuota.value then Some(TeamQuotaFull)
      else if NameTaken(db, n) then Some(TeamNameTaken)
      else None
  }

  function AfterCreate(cfg: Config, db: Tables, id: Id, n: NewTeam): Tables {
    if CreateRule(cfg, db, n).Some? then db
    else db.(teams := db.teams[id := Team(n.event, n.sport, n.org, n.category, n.name)])
  }

  /** The participations of an enrollment that match the team's event, sport and org. */
  function Candidates(db: Tables, t: Id, enroll: Id): set<Id>
    requires t in db.teams
  {
    set p | p in db.athleteParts && db.athleteParts[p].athlete.Some?
      && db.athleteParts[p].athlete.value in AthletesOf(db, enroll)
            && db.athleteParts[p].event == db.teams[t].event && db.athleteParts[p].sport == db.teams[t].sport
            && db.athleteParts[p].org == db.teams[t].org
  }

  function SizeMax(cfg: Config, team: Team): Option<int> {
    if (team.event, team.sport) in cfg.sports then cfg.sports[(team.event, team.sport)].teamSizeMax else None
  }

  /** What adding the enrollment answers; p is the one matching participation, when there is one. */
  ghost predicate AddAnswers(cfg: Config, db: Tables, t: Id, enroll: Id, result: Result<Id, Rejection>) {
    if t !in db.teams then result == Err(TeamNotFound)
    else
      var max := SizeMax(cfg, db.teams[t]);
      var found := Candidates(db, t, enroll);
      if max.Some? && |Members(db, t)| >= max.value then result == Err(TeamFull)
      else if found == {} then result == Err(MemberNotFound)
      else if |found| > 1 then result == Err(MultipleRows)
      else exists p :: p in found && found == {p} && AddOne(db, t, p, result)
  }

  ghost predicate AddOne(db: Tables, t: Id, p: Id, result: Result<Id, Rejection>)
    requires t in db.teams && p in db.athleteParts
  {
    if db.athleteParts[p].team.Some? then result == Err(AlreadyOnTeam)
    else if db.teams[t].category.Some?
      && db.athleteParts[p].category != db.teams[t].category then result == Err(CategoryMismatch)
    else result == Ok(p)
  }

  /** The enrollment's participations on the team. */
  function OnTeam(db: Tables, t: Id, enroll: Id): set<Id> {
    set p | p in Members(db, t) && db.athleteParts[p].athlete.Some?
            && db.athleteParts[p].athlete.value in AthletesOf(db, enroll)
  }

  /** What removing the enrollment answers. */
  ghost predicate RemoveAnswers(db: Tables, t: Id, enroll: Id, result: Result<Id, Rejection>) {
    var found := OnTeam(db, t, enroll);
    if t !in db.teams then result == Err(TeamNotFound)
    else if found == {} then result == Err(MemberNotFound)
    else if |found| > 1 then result == Err(MultipleRows)
    else exists p :: found == {p} && result == Ok(p)
  }

  function WithTeam(db: Tables, p: Id, team: Option<Id>): Tables
    requires p in db.athleteParts
  {
    db.(athleteParts := db.athleteParts[p := db.athleteParts[p].(team := team)])
  }

  /** Members are detached, not deleted. */
  function WithoutTeam(db: Tables, t: Id): Tables {
    db.(athleteParts := map p | p in db.athleteParts ::
          (if db.athleteParts[p].team == Some(t) then db.athleteParts[p].(team := None) else db.athleteParts[p]),
        teams := db.teams - {t})
  }

  class TeamService {
    const cfg: Config
    var db: Tables
    var nextTeam: Id

    constructor (cfg: Config, db: Tables, nextTeam: Id)
      ensures this.cfg == cfg && this.db == db && this.nextTeam == nextTeam
    {
      this.cfg, this.db, this.nextTeam := cfg, db, nextTeam;
    }

    method CreateTeam(n: NewTeam) returns (result: Result<Id, Rejection>)
      modifies this
      ensures db == AfterCreate(cfg, old(db), old(nextTeam), n)
      ensures result == if CreateRule(cfg, old(db), n).Some? then Err(CreateRule(cfg, old(db), n).value)
                else Ok(old(nextTeam))
      ensures nextTeam == if result.Ok? then old(nextTeam) + 1 else old(nextTeam)
    {
      if n.event !in cfg.events { return Err(EventNotFound); }
      if !cfg.events[n.event].registrationOpen { return Err(RegistrationClosed); }
      if (n.event, n.sport) !in cfg.sports { return Err(SportNotInEvent); }
      var sport := cfg.sports[(n.event, n.sport)];
      if !sport.teams { return Err(TeamModeDisallowed); }
      if sport.teamQuota.Some? {
        var used := |TeamsOf(db, n.event, n.sport, n.org)|;
        if used >= sport.teamQuota.value { return Err(TeamQuotaFull); }
      }
      if NameTaken(db, n) { return Err(TeamNameTaken); }
      db := db.(teams := db.teams[nextTeam := Team(n.event, n.sport, n.org, n.category, n.name)]);
      nextTeam := nextTeam + 1;
      return Ok(nextTeam - 1);
    }

    method AddMember(t: Id, enroll: Id) returns (result: Result<Id, Rejection>)
      modifies this`db
      ensures AddAnswers(cfg, old(db), t, enroll, result)
      ensures result.Err? ==> db == old(db)
      ensures result.Ok? ==> result.value in old(db).athleteParts && db == WithTeam(old(db), result.value, Some(t))
    {
      if t !in db.teams { return Err(TeamNotFound); }
      var team := db.teams[t];
      var max := SizeMax(cfg, team);
      if max.Some? && |Members(db, t)| >= max.value { return Err(TeamFull); }
      var found := Candidates(db, t, enroll);
      if found == {} { return Err(MemberNotFound); }
      if |found| > 1 { return Err(MultipleRows); }
      var p :| p in found;
      assert found == {p} by { OnlyOne(found, p); }
      if db.athleteParts[p].team.Some? { return Err(AlreadyOnTeam); }
      if team.category.Some? && db.athleteParts[p].category != team.category { return Err(CategoryMismatch); }
      db := db.(athleteParts := db.athleteParts[p := db.athleteParts[p].(team := Some(t))]);
      return Ok(p);
    }

    method RemoveMember(t: Id, enroll: Id) returns (result: Result<Id, Rejection>)
      modifies this`db
      ensures RemoveAnswers(old(db), t, enroll, result)
      ensures result.Err? ==> db == old(db)
      ensures result.Ok? ==> result.value in Members(old(db), t) && db == WithTeam(old(db), result.value, None)
    {
      if t !in db.teams { return Err(TeamNotFound); }
      var found := OnTeam(db, t, enroll);
      if found == {} { return Err(MemberNotFound); }
      if |found| > 1 { return Err(MultipleRows); }
      var p :| p in found;
      assert found == {p} by { OnlyOne(found, p); }
      db := db.(athleteParts := db.athleteParts[p := db.athleteParts[p].(team := None)]);
      return Ok(p);
    }

    method DeleteTeam(t: Id) returns (deleted: bool)
      modifies this`db
      ensures deleted <==> t in old(db).teams
      ensures db == if deleted then WithoutTeam(old(db), t) else old(db)
    {
      if t !in db.teams { return false; }
      db := db.(athleteParts := map p | p in db.athleteParts ::
                  (if db.athleteParts[p].team == Some(t) then db.athleteParts[p].(team := None)
                    else db.athleteParts[p]));
      db := db.(teams := db.teams - {t});
      return true;
    }
  }

  lemma OnlyOne(s: set<Id>, x: Id)
    requires x in s && |s| <= 1
    ensures s == {x}
  {
    if y :| y in s && y != x {
      assert |{x, y}| == 2;
      SubsetSmaller({x, y}, s);
    }
  }

  /** Deleting a team changes nothing of a registration but its team. */
  lemma DeleteTeamKeepsRegistrations(db: Tables, t: Id)
    ensures var after := WithoutTeam(db, t);
      && after == db.(athleteParts := after.athleteParts, teams := after.teams)
      && after.athleteParts.Keys == db.athleteParts.Keys
      && (forall p | p in db.athleteParts :: after.athleteParts[p].(team := None) == db.athleteParts[p].(team := None)
            && (after.athleteParts[p].team == db.athleteParts[p].team || db.athleteParts[p].team == Some(t)))
      && Members(after, t) == {}
  {}
}
