/**
 The retention purge seen from the session protocol. Purging a spent record matters
 only if it would still have been used to detect reuse; the theorem gives the exact
 relation between retention window and token lifetime for which no client can tell.
 */
module TokenPurge {
  import opened Prelude
  import opened AuthSessions

  function WithoutPurges(steps: seq<Step>): seq<Step> {
    if steps == [] then []
    else (if steps[0].Purge? then [] else [steps[0]]) + WithoutPurges(steps[1..])
  }

  /** What the clients see: the answer to every refresh, in order. */
  function Answers(cfg: Config, w: World, steps: seq<Step>): seq<Answer>
    decreases |steps|
  {
    if steps == [] then []
    else
      (match AnswerTo(w, steps[0]) case None => [] case Some(a) => [a])
      + Answers(cfg, Next(cfg, w, steps[0]), steps[1..])
  }

  /** A clock that never goes back. */
  ghost predicate Timely(steps: seq<Step>, from: int) {
    steps == [] || (from <= steps[0].at && Timely(steps[1..], steps[0].at))
  }

  /** Every record lives exactly one token lifetime. */
  ghost predicate FixedLifetime(cfg: Config, w: World) {
    forall j | j in w.db :: w.db[j].expiresAt == w.db[j].createdAt + cfg.lifetime
  }

  /** The purged world lacks only records that have already expired. */
  ghost predicate LacksOnlyExpired(w: World, purged: World, now: int) {
    && purged.minted == w.minted && purged.spent == w.spent
    && (forall j | j in purged.db :: j in w.db && purged.db[j] == w.db[j])
    && (forall j | j in w.db && j !in purged.db :: w.db[j].expiresAt < now)
  }

  lemma NextKeepsLifetime(cfg: Config, w: World, step: Step)
    requires FixedLifetime(cfg, w)
    ensures FixedLifetime(cfg, Next(cfg, w, step))
  {}

  lemma SameAnswer(w: World, purged: World, step: Step)
    requires LacksOnlyExpired(w, purged, step.at)
    ensures AnswerTo(purged, step) == AnswerTo(w, step)
  {}

  lemma StepTogether(cfg: Config, w: World, purged: World, step: Step)
    requires LacksOnlyExpired(w, purged, step.at) && !step.Purge?
    ensures LacksOnlyExpired(Next(cfg, w, step), Next(cfg, purged, step), step.at)
  {
    SameAnswer(w, purged, step);
  }

  lemma PurgeAlone(cfg: Config, w: World, purged: World, step: Step)
    requires LacksOnlyExpired(w, purged, step.at) && step.Purge?
    requires FixedLifetime(cfg, w) && (cfg.window == 0 || cfg.lifetime <= cfg.window)
    ensures LacksOnlyExpired(w, Next(cfg, purged, step), step.at)
  {}

  lemma {:induction false} PurgesUnseen(cfg: Config, w: World, purged: World, steps: seq<Step>, now: int)
    requires LacksOnlyExpired(w, purged, now) && Timely(steps, now) && FixedLifetime(cfg, w)
    requires cfg.window == 0 || cfg.lifetime <= cfg.window
    ensures Answers(cfg, purged, steps) == Answers(cfg, w, WithoutPurges(steps))
    decreases |steps|
  {
    hide Next, AnswerTo;
    if steps != [] {
      var step := steps[0];
      assert LacksOnlyExpired(w, purged, step.at);
      SameAnswer(w, purged, step);
      NextKeepsLifetime(cfg, w, step);
      if step.Purge? {
        assert AnswerTo(purged, step) == None by { PurgeHasNoAnswer(purged, step); }
        PurgeAlone(cfg, w, purged, step);
        PurgesUnseen(cfg, w, Next(cfg, purged, step), steps[1..], step.at);
        assert WithoutPurges(steps) == WithoutPurges(steps[1..]);
      } else {
        StepTogether(cfg, w, purged, step);
        PurgesUnseen(cfg, Next(cfg, w, step), Next(cfg, purged, step), steps[1..], step.at);
        assert WithoutPurges(steps)[0] == step && WithoutPurges(steps)[1..] == WithoutPurges(steps[1..]);
      }
    }
  }

  lemma PurgeHasNoAnswer(w: World, step: Step)
    requires step.Purge?
    ensures AnswerTo(w, step) == None
  {}

  /** No run of any length lets a client tell purges happened. */
  ghost predicate Invisible(cfg: Config) {
    forall steps | Timely(steps, 0) :: Answers(cfg, START, steps) == Answers(cfg, START, WithoutPurges(steps))
  }

  /** Purging is invisible exactly when it is off or keeps records for a token lifetime. */
  lemma PurgeInvisibleIff(cfg: Config)
    ensures Invisible(cfg) <==> cfg.window == 0 || cfg.lifetime <= cfg.window
  {
    if cfg.window == 0 || cfg.lifetime <= cfg.window {
      forall steps | Timely(steps, 0) ensures Answers(cfg, START, steps) == Answers(cfg, START, WithoutPurges(steps)) {
        PurgesUnseen(cfg, START, START, steps, 0);
      }
    } else {
      ShortWindowShows(cfg);
      assert Timely(Telltale(cfg), 0);
    }
  }

  const FIRST := Token("a", Some(Claims(7, RefreshToken, Some(1))))

  /** Log in, rotate, purge as soon as the window allows, then replay the rotated token. */
  function Telltale(cfg: Config): seq<Step> {
    [Login(7, 0, 1, "a"), Refresh(Some(FIRST), 0, 2, "b"), Purge(cfg.window + 1),
      Refresh(Some(FIRST), cfg.window + 1, 3, "c")]
  }

  lemma ShortWindowShows(cfg: Config)
    requires 0 < cfg.window < cfg.lifetime
    ensures Timely(Telltale(cfg), 0)
    ensures Answers(cfg, START, Telltale(cfg)) == [Refreshed(2), ExpiredOrRevoked]
    ensures Answers(cfg, START, WithoutPurges(Telltale(cfg))) == [Refreshed(2), ReuseDetected]
  {
    var t := Telltale(cfg);
    assert t[1..] == [t[1], t[2], t[3]] && t[1..][1..] == [t[2], t[3]] && [t[2], t[3]][1..] == [t[3]]
             && [t[3]][1..] == [];
    assert Timely([t[3]], t[2].at);
    assert WithoutPurges([t[3]]) == [t[3]];
    assert WithoutPurges([t[2], t[3]]) == [t[3]];
    assert WithoutPurges(t[1..]) == [t[1], t[3]];
    assert WithoutPurges(t) == [t[0], t[1], t[3]];
    var w1 := Next(cfg, START, t[0]);
    var w2 := Next(cfg, w1, t[1]);
    var w3 := Next(cfg, w2, t[2]);
    assert AnswerTo(w1, t[1]) == Some(Refreshed(2));
    assert AnswerTo(w2, t[3]) == Some(ReuseDetected);
    assert 1 !in w3.db;
    assert AnswerTo(w3, t[3]) == Some(ExpiredOrRevoked);
    AnswersStep(cfg, w3, t[3], []);
    AnswersStep(cfg, w2, t[3], []);
    AnswersStep(cfg, w2, t[2], [t[3]]);
    AnswersStep(cfg, w1, t[1], [t[2], t[3]]);
    AnswersStep(cfg, w1, t[1], [t[3]]);
    AnswersStep(cfg, START, t[0], [t[1], t[2], t[3]]);
    AnswersStep(cfg, START, t[0], [t[1], t[3]]);
  }

  lemma AnswersStep(cfg: Config, w: World, step: Step, rest: seq<Step>)
    ensures Answers(cfg, w, [step] + rest) ==
            (match AnswerTo(w, step) case None => [] case Some(a) => [a]) + Answers(cfg, Next(cfg, w, step), rest)
  {
    hide Next, AnswerTo;
    assert ([step] + rest)[1..] == rest;
  }
}
