/**
 Refresh-token rotation with reuse detection: logins mint a token and its record, a
 refresh spends one token and mints its successor, a logout deletes the record, and
 presenting a token that was already rotated revokes every session of its user. The
 retention purge deletes spent records behind the protocol's back.
 */
module AuthSessions {
  import opened Prelude

  type UserId = nat
  type Jti = nat

  datatype Record = Record(userId: UserId, tokenHash: string, createdAt: int, expiresAt: int, revoked: bool)
  type Table = map<Jti, Record>

  datatype TokenType = AccessToken | RefreshToken
  datatype Claims = Claims(sub: UserId, kind: TokenType, jti: Option<Jti>)

  /** A presented token: its digest and what decoding it yields, None when decoding fails. */
  datatype Token = Token(hash: string, claims: Option<Claims>)

  datatype Answer =
    | Refreshed(jti: Jti)
    | TokenMissing
    | InvalidToken
    | ExpiredOrRevoked
    | ReuseDetected
    | HashMismatch

  function RevokeAll(db: Table, user: UserId): (r: Table)
    ensures r.Keys == db.Keys
    ensures forall j | j in db :: r[j] == if db[j].userId == user then db[j].(revoked := true) else db[j]
  {
    map j | j in db :: if db[j].userId == user then db[j].(revoked := true) else db[j]
  }

  /** The jti of a token that decodes as a refresh token. */
  function RefreshJti(tok: Token): Option<Jti> {
    if tok.claims.Some? && tok.claims.value.kind == RefreshToken then tok.claims.value.jti else None
  }

  function RefreshAnswer(db: Table, presented: Option<Token>, now: int, freshJti: Jti): Answer {
    if presented == None then TokenMissing
    else
      var tok := presented.value;
      match RefreshJti(tok)
      case None => InvalidToken
      case Some(j) =>
        if j !in db || db[j].expiresAt < now then ExpiredOrRevoked
        else if db[j].revoked then ReuseDetected
        else if db[j].tokenHash != tok.hash then HashMismatch
        else Refreshed(freshJti)
  }

  function AfterRefresh(db: Table, presented: Option<Token>, now: int, lifetime: nat,
                        freshJti: Jti, freshHash: string): Table
  {
    match RefreshAnswer(db, presented, now, freshJti)
    case ReuseDetected => RevokeAll(db, presented.value.claims.value.sub)
    case Refreshed(_) =>
      var j := RefreshJti(presented.value).value;
      var user := presented.value.claims.value.sub;
      db[j := db[j].(revoked := true)][freshJti := Record(user, freshHash, now, now + lifetime, false)]
    case _ => db
  }

  function AfterLogout(db: Table, presented: Option<Token>): Table {
    if presented.Some? && presented.value.claims.Some? && presented.value.claims.value.jti.Some?
    then db - {presented.value.claims.value.jti.value}
    else db
  }

  /** Rows past the window that are revoked or expired; a window of zero switches the policy off. */
  function AfterPurge(db: Table, now: int, window: nat): Table {
    if window == 0 then db
    else map j | j in db && !(db[j].createdAt < now - window && (db[j].revoked || db[j].expiresAt < now)) :: db[j]
  }

  /** The service, statement by statement, over the token table. */
  class AuthService {
    const lifetime: nat
    var tokens: Table

    constructor (lifetime: nat)
      ensures this.lifetime == lifetime && tokens == map[]
    {
      this.lifetime := lifetime;
      tokens := map[];
    }

    /** The token returned is accepted until its lifetime is over; no other record changes. */
    method IssueSession(user: UserId, now: int, freshJti: Jti, freshHash: string) returns (token: Token)
      requires freshJti !in tokens
      modifies this
      ensures RefreshJti(token) == Some(freshJti) && token.claims.value.sub == user && token.hash == freshHash
      ensures tokens.Keys == old(tokens).Keys + {freshJti} && forall j | j in old(tokens) :: tokens[j] == old(tokens)[j]
      ensures tokens[freshJti].userId == user && tokens[freshJti].createdAt == now
      ensures forall at, next: Jti ::
                RefreshAnswer(tokens, Some(token), at, next)
                == if at <= now + lifetime then Refreshed(next) else ExpiredOrRevoked
    {
      token := Token(freshHash, Some(Claims(user, RefreshToken, Some(freshJti))));
      tokens := tokens[freshJti := Record(user, freshHash, now, now + lifetime, false)];
    }

    method Logout(presented: Option<Token>)
      modifies this
      ensures tokens == AfterLogout(old(tokens), presented)
      ensures forall j | j in tokens :: j in old(tokens) && tokens[j] == old(tokens)[j]
      ensures forall j | j in old(tokens) ::
                j !in tokens <==>
                presented.Some? && presented.value.claims.Some? && presented.value.claims.value.jti == Some(j)
    {
      if presented.Some? && presented.value.claims.Some? {
        var jti := presented.value.claims.value.jti;
        if jti.Some? {
          if jti.value in tokens {
            tokens := tokens - {jti.value};
          }
          assert tokens == old(tokens) - {jti.value};
        }
      }
    }

    method RefreshTokens(presented: Option<Token>, now: int, freshJti: Jti, freshHash: string) returns (a: Answer)
      modifies this
      ensures a == RefreshAnswer(old(tokens), presented, now, freshJti)
      ensures tokens == AfterRefresh(old(tokens), presented, now, lifetime, freshJti, freshHash)
    {
      if presented == None { return TokenMissing; }
      var tok := presented.value;
      if tok.claims == None { return InvalidToken; }
      var claims := tok.claims.value;
      if claims.kind != RefreshToken || claims.jti == None { return InvalidToken; }
      var jti := claims.jti.value;
      if jti !in tokens || tokens[jti].expiresAt < now { return ExpiredOrRevoked; }
      var record := tokens[jti];
      if record.revoked {
        tokens := RevokeAll(tokens, claims.sub);
        return ReuseDetected;
      }
      if record.tokenHash != tok.hash { return HashMismatch; }
      tokens := tokens[jti := record.(revoked := true)];
      tokens := tokens[freshJti := Record(claims.sub, freshHash, now, now + lifetime, false)];
      return Refreshed(freshJti);
    }
  }

  // ---- runs -------------------------------------------------------------------

  /** What was minted: for whom, with which digest, and the login its lineage starts from. */
  datatype Minted = Minted(user: UserId, hash: string, login: Jti)

  datatype Config = Config(lifetime: nat, window: nat)

  /** `minted` remembers every token ever issued and `spent` every successful refresh, in order. */
  datatype World = World(db: Table, minted: map<Jti, Minted>, spent: seq<Jti>)

  datatype Step =
    | Login(user: UserId, at: int, jti: Jti, hash: string)
    | Refresh(tok: Option<Token>, at: int, jti: Jti, hash: string)
    | Logout(tok: Option<Token>, at: int)
    | Purge(at: int)

  /** Signatures cannot be forged: a token that decodes with a jti is one that was minted with it. */
  predicate Genuine(w: World, presented: Option<Token>) {
    presented.Some? && presented.value.claims.Some? && presented.value.claims.value.jti.Some? ==>
      var tok := presented.value;
      var j := tok.claims.value.jti.value;
      && j in w.minted && tok.hash == w.minted[j].hash
      && tok.claims.value.sub == w.minted[j].user && tok.claims.value.kind == RefreshToken
  }

  /** New jtis are new, and presented tokens are genuine. */
  predicate Possible(w: World, step: Step) {
    match step
    case Login(_, _, jti, _) => jti !in w.minted
    case Refresh(tok, _, jti, _) => jti !in w.minted && Genuine(w, tok)
    case Logout(tok, _) => Genuine(w, tok)
    case Purge(_) => true
  }

  function AnswerTo(w: World, step: Step): Option<Answer> {
    match step
    case Refresh(tok, at, jti, _) =>
      if Possible(w, step) then Some(RefreshAnswer(w.db, tok, at, jti)) else None
    case _ => None
  }

  function Next(cfg: Config, w: World, step: Step): World {
    if !Possible(w, step) then w
    else
      match step
      case Login(user, at, jti, hash) =>
        w.(db := w.db[jti := Record(user, hash, at, at + cfg.lifetime, false)],
           minted := w.minted[jti := Minted(user, hash, jti)])
      case Refresh(tok, at, jti, hash) =>
        var db' := AfterRefresh(w.db, tok, at, cfg.lifetime, jti, hash);
        if RefreshAnswer(w.db, tok, at, jti).Refreshed? then
          var j := RefreshJti(tok.value).value;
          World(db', w.minted[jti := Minted(w.minted[j].user, hash, w.minted[j].login)], w.spent + [j])
        else w.(db := db')
      case Logout(tok, _) => w.(db := AfterLogout(w.db, tok))
      case Purge(at) => w.(db := AfterPurge(w.db, at, cfg.window))
  }

  function Run(cfg: Config, w: World, steps: seq<Step>): World
    decreases |steps|
  {
    if steps == [] then w else Run(cfg, Next(cfg, w, steps[0]), steps[1..])
  }

  const START := World(map[], map[], [])

  /** A token no refresh will accept: its record is gone or revoked. */
  predicate Dead(w: World, j: Jti) { j !in w.db || w.db[j].revoked }

  ghost predicate RecordsMinted(w: World) {
    forall j | j in w.db :: j in w.minted && w.db[j].userId == w.minted[j].user && w.db[j].tokenHash == w.minted[j].hash
  }

  ghost predicate LoginsMinted(w: World) {
    forall j | j in w.minted :: w.minted[j].login in w.minted
  }

  ghost predicate OneLivePerLogin(w: World) {
    forall i, j | i in w.minted && j in w.minted && !Dead(w, i) && !Dead(w, j) ::
      w.minted[i].login == w.minted[j].login ==> i == j
  }

  ghost predicate SpentOnce(w: World) {
    && (forall k | 0 <= k < |w.spent| :: w.spent[k] in w.minted && Dead(w, w.spent[k]))
    && (forall k, l | 0 <= k < l < |w.spent| :: w.spent[k] != w.spent[l])
  }

  ghost predicate Inv(w: World) {
    RecordsMinted(w) && LoginsMinted(w) && OneLivePerLogin(w) && SpentOnce(w)
  }

  /** One step: minted tokens stay minted, the dead stay dead. */
  lemma NextKeepsDead(cfg: Config, w: World, step: Step, j: Jti)
    requires j in w.minted
    ensures var w' := Next(cfg, w, step);
            j in w'.minted && w'.minted[j] == w.minted[j] && (Dead(w, j) ==> Dead(w', j))
  {}

  lemma NextKeepsRecords(cfg: Config, w: World, step: Step)
    requires RecordsMinted(w)
    ensures RecordsMinted(Next(cfg, w, step))
  {}

  lemma NextKeepsLogins(cfg: Config, w: World, step: Step)
    requires RecordsMinted(w) && LoginsMinted(w)
    ensures LoginsMinted(Next(cfg, w, step))
  {
    var w' := Next(cfg, w, step);
    forall j | j in w'.minted ensures w'.minted[j].login in w'.minted {
      if j in w.minted { assert w.minted[j].login in w.minted; }
    }
  }

  /** The token a refresh step spends in this step, if it succeeds. */
  ghost predicate Spends(w: World, step: Step, parent: Jti) {
    && step.Refresh? && RefreshJti'(step.tok) == Some(parent)
    && Possible(w, step) && RefreshAnswer(w.db, step.tok, step.at, step.jti).Refreshed?
  }

  function RefreshJti'(tok: Option<Token>): Option<Jti> {
    if tok.Some? then RefreshJti(tok.value) else None
  }

  /** The only token that comes alive in a step is the one minted in it; its parent, if any, dies. */
  lemma NewlyLive(cfg: Config, w: World, step: Step, j: Jti)
    requires RecordsMinted(w) && j in Next(cfg, w, step).minted && !Dead(Next(cfg, w, step), j)
    ensures var w' := Next(cfg, w, step);
            if j in w.minted then !Dead(w, j)
            else (
              && (forall i | i in w'.minted && i !in w.minted :: i == j)
              && (w'.minted[j].login == j || exists p :: (
                    && Spends(w, step, p) && p in w.minted && !Dead(w, p) && Dead(w', p)
                    && w'.minted[j].login == w.minted[p].login)))
  {
    var w' := Next(cfg, w, step);
    if j !in w.minted && step.Refresh? {
      var p := RefreshJti'(step.tok).value;
      assert Spends(w, step, p) && p in w.minted && !Dead(w, p) && Dead(w', p);
      assert w'.minted[j].login == w.minted[p].login;
    }
  }

  lemma NextKeepsOneLive(cfg: Config, w: World, step: Step)
    requires RecordsMinted(w) && LoginsMinted(w) && OneLivePerLogin(w)
    ensures OneLivePerLogin(Next(cfg, w, step))
  {
    hide Next, Dead, LoginsMinted;
    var w' := Next(cfg, w, step);
    forall i, j | i in w'.minted && j in w'.minted && !Dead(w', i) && !Dead(w', j)
      && w'.minted[i].login == w'.minted[j].login
      ensures i == j
    {
      NewlyLive(cfg, w, step, i);
      NewlyLive(cfg, w, step, j);
      if i in w.minted { NextKeepsDead(cfg, w, step, i); LoginIsMinted(w, i); }
      if j in w.minted { NextKeepsDead(cfg, w, step, j); LoginIsMinted(w, j); }
    }
  }

  lemma LoginIsMinted(w: World, j: Jti)
    requires LoginsMinted(w) && j in w.minted
    ensures w.minted[j].login in w.minted
  {}

  lemma NextKeepsSpent(cfg: Config, w: World, step: Step)
    requires RecordsMinted(w) && SpentOnce(w)
    ensures SpentOnce(Next(cfg, w, step))
  {
    forall k | 0 <= k < |w.spent|
      ensures w.spent[k] in Next(cfg, w, step).minted && Dead(Next(cfg, w, step), w.spent[k])
    {
      NextKeepsDead(cfg, w, step, w.spent[k]);
    }
  }

  lemma NextKeepsInv(cfg: Config, w: World, step: Step)
    requires Inv(w)
    ensures Inv(Next(cfg, w, step))
  {
    hide Next, RecordsMinted, LoginsMinted, OneLivePerLogin, SpentOnce;
    NextKeepsRecords(cfg, w, step);
    NextKeepsLogins(cfg, w, step);
    NextKeepsOneLive(cfg, w, step);
    NextKeepsSpent(cfg, w, step);
  }

  lemma {:induction false} RunKeepsDead(cfg: Config, w: World, steps: seq<Step>, j: Jti)
    requires Inv(w) && j in w.minted && Dead(w, j)
    ensures Inv(Run(cfg, w, steps)) && j in Run(cfg, w, steps).minted && Dead(Run(cfg, w, steps), j)
    decreases |steps|
  {
    hide Inv, Dead, Next;
    if steps != [] {
      NextKeepsDead(cfg, w, steps[0], j);
      NextKeepsInv(cfg, w, steps[0]);
      RunKeepsDead(cfg, Next(cfg, w, steps[0]), steps[1..], j);
    }
  }

  lemma {:induction false} RunKeepsInv(cfg: Config, w: World, steps: seq<Step>)
    requires Inv(w)
    ensures Inv(Run(cfg, w, steps))
    decreases |steps|
  {
    hide Inv, Next;
    if steps != [] {
      NextKeepsInv(cfg, w, steps[0]);
      RunKeepsInv(cfg, Next(cfg, w, steps[0]), steps[1..]);
    }
  }

  /** In every run each login has at most one live token and each token is spent at most once. */
  lemma Lineage(cfg: Config, steps: seq<Step>)
    ensures var w := Run(cfg, START, steps);
      && (forall i, j | i in w.minted && j in w.minted && !Dead(w, i) && !Dead(w, j) ::
        w.minted[i].login == w.minted[j].login ==> i == j)
      && (forall k, l | 0 <= k < l < |w.spent| :: w.spent[k] != w.spent[l])
  {
    hide Run, Next;
    StartGood();
    RunKeepsInv(cfg, START, steps);
  }

  /** A genuine token is accepted exactly when its record is present, unexpired and unrevoked. */
  lemma AcceptedIffLive(w: World, tok: Token, at: int, jti: Jti)
    requires RecordsMinted(w) && Genuine(w, Some(tok)) && RefreshJti(tok).Some?
    ensures var j := RefreshJti(tok).value;
            RefreshAnswer(w.db, Some(tok), at, jti).Refreshed? <==> !Dead(w, j) && at <= w.db[j].expiresAt
  {}

  /** Once a rotated token comes back, nothing issued to its user before then is ever accepted again. */
  lemma ReuseEndsEverySession(
      cfg: Config, before: seq<Step>, replay: Step, after: seq<Step>, victim: Token, at: int, jti: Jti)
    requires replay.Refresh? && AnswerTo(Run(cfg, START, before), replay) == Some(ReuseDetected)
    requires Genuine(Run(cfg, START, before), Some(victim)) && RefreshJti(victim).Some?
    requires victim.claims.value.sub == replay.tok.value.claims.value.sub
    ensures var w := Run(cfg, Next(cfg, Run(cfg, START, before), replay), after);
            !RefreshAnswer(w.db, Some(victim), at, jti).Refreshed?
  {
    hide LoginsMinted, OneLivePerLogin, SpentOnce, RecordsMinted, Next;
    var w := Run(cfg, START, before);
    RunKeepsInv(cfg, START, before) by { StartGood(); }
    var j := RefreshJti(victim).value;
    ReuseKills(cfg, w, replay, j);
    NextKeepsInv(cfg, w, replay);
    RunKeepsDead(cfg, Next(cfg, w, replay), after, j);
  }

  // ---- logging out --------------------------------------------------------------

  /** A record that is gone stays gone: a jti is minted once. */
  lemma {:induction false} RunKeepsGone(cfg: Config, w: World, steps: seq<Step>, j: Jti)
    requires j in w.minted && j !in w.db
    ensures j !in Run(cfg, w, steps).db
    decreases |steps|
  {
    hide Next;
    if steps != [] {
      NextKeepsGone(cfg, w, steps[0], j);
      RunKeepsGone(cfg, Next(cfg, w, steps[0]), steps[1..], j);
    }
  }

  lemma NextKeepsGone(cfg: Config, w: World, step: Step, j: Jti)
    requires j in w.minted && j !in w.db
    ensures var w' := Next(cfg, w, step); j in w'.minted && j !in w'.db
  {}

  /**
   What a logout leaves: the presented token's record is gone, every other one stays; an undecodable token changes
   nothing.
   */
  lemma LogoutExact(cfg: Config, w: World, presented: Option<Token>, at: int)
    requires Genuine(w, presented)
    ensures var w' := Next(cfg, w, Step.Logout(presented, at));
      && w'.minted == w.minted && w'.spent == w.spent
      && (forall j | j in w'.db :: j in w.db && w'.db[j] == w.db[j])
      && (forall j | j in w.db :: j in w'.db <==> !(presented.Some? && RefreshJti(presented.value) == Some(j)))
  {}

  /** Once a token has been logged out, no refresh with it in any later run gets anything but "expired or revoked". */
  lemma LogoutEndsSession(
    cfg: Config, before: seq<Step>, tok: Token, at: int, after: seq<Step>, later: int, jti: Jti)
    requires Genuine(Run(cfg, START, before), Some(tok)) && RefreshJti(tok).Some?
    ensures var w := Run(cfg, Next(cfg, Run(cfg, START, before), Step.Logout(Some(tok), at)), after);
            RefreshAnswer(w.db, Some(tok), later, jti) == ExpiredOrRevoked
  {
    var w := Run(cfg, START, before);
    var j := RefreshJti(tok).value;
    LogoutExact(cfg, w, Some(tok), at);
    RunKeepsGone(cfg, Next(cfg, w, Step.Logout(Some(tok), at)), after, j);
  }

  // ---- refreshing -------------------------------------------------------------------

  /** Each answer to a genuine refresh token, from its record alone. */
  lemma AnswerIff(w: World, tok: Token, at: int, jti: Jti)
    requires RecordsMinted(w) && Genuine(w, Some(tok)) && RefreshJti(tok).Some?
    ensures var j, a := RefreshJti(tok).value, RefreshAnswer(w.db, Some(tok), at, jti);
      && (a == Refreshed(jti) <==> j in w.db && at <= w.db[j].expiresAt && !w.db[j].revoked)
      && (a == ReuseDetected <==> j in w.db && at <= w.db[j].expiresAt && w.db[j].revoked)
      && (a == ExpiredOrRevoked <==> j !in w.db || w.db[j].expiresAt < at)
  {}

  /** An accepted refresh spends its token and puts one live successor of the same user and login in its place. */
  lemma RefreshRotates(cfg: Config, w: World, tok: Token, at: int, jti: Jti, hash: string)
    requires RecordsMinted(w) && Possible(w, Refresh(Some(tok), at, jti, hash)) && RefreshJti(tok).Some?
    requires RefreshAnswer(w.db, Some(tok), at, jti).Refreshed?
    ensures var j := RefreshJti(tok).value;
            var w' := Next(cfg, w, Refresh(Some(tok), at, jti, hash));
      && w'.db.Keys == w.db.Keys + {jti} && jti !in w.db && w'.spent == w.spent + [j]
      && w'.minted[jti] == Minted(w.minted[j].user, hash, w.minted[j].login)
      && w'.db[j] == w.db[j].(revoked := true)
      && w'.db[jti] == Record(w.db[j].userId, hash, at, at + cfg.lifetime, false)
      && forall i | i in w.db && i != j :: w'.db[i] == w.db[i]
  {}

  /**
   Detected reuse revokes exactly the records of the token's user; every other answer but acceptance changes nothing.
   */
  lemma ReuseRevokesExactly(cfg: Config, w: World, tok: Option<Token>, at: int, jti: Jti, hash: string)
    requires Possible(w, Refresh(tok, at, jti, hash)) && !RefreshAnswer(w.db, tok, at, jti).Refreshed?
    ensures var w' := Next(cfg, w, Refresh(tok, at, jti, hash));
      && w'.minted == w.minted && w'.spent == w.spent
      && (RefreshAnswer(w.db, tok, at, jti) != ReuseDetected ==> w'.db == w.db)
      && (RefreshAnswer(w.db, tok, at, jti) == ReuseDetected ==>
            && w'.db.Keys == w.db.Keys
            && forall i | i in w.db :: w'.db[i].(revoked := w.db[i].revoked) == w.db[i]
                 && (w'.db[i].revoked <==> w.db[i].revoked || w.db[i].userId == tok.value.claims.value.sub))
  {}

  lemma StartGood()
    ensures Inv(START)
  {}

  lemma ReuseKills(cfg: Config, w: World, replay: Step, j: Jti)
    requires RecordsMinted(w) && replay.Refresh? && AnswerTo(w, replay) == Some(ReuseDetected)
    requires j in w.minted && w.minted[j].user == replay.tok.value.claims.value.sub
    ensures j in Next(cfg, w, replay).minted && Dead(Next(cfg, w, replay), j)
  {}
}
