/**
 The sliding-window rate limiter: the per-process buckets with their periodic sweep,
 the Redis sorted sets with their expiry, and the counting rule each one amounts to.
 Times are seconds since the epoch.
 */
module RateLimit {
  type Key = string

  datatype Limits = Limits(maxRequests: int, burstLimit: int, window: nat)
  datatype Verdict = Verdict(admitted: bool, limit: int, remaining: int, reset: int)
  datatype Buckets = Buckets(fallback: map<Key, seq<real>>, lastCleanup: real)

  /** The entries still inside the window. */
  function Keep(ts: seq<real>, start: real): (r: seq<real>)
    ensures |r| <= |ts|
    ensures forall t :: t in r <==> t in ts && t > start
  {
    if ts == [] then []
    else (if ts[0] > start then [ts[0]] else []) + Keep(ts[1..], start)
  }

  function Start(l: Limits, now: real): real { now - l.window as real }

  function LimitAt(l: Limits, count: nat): int { if count < l.burstLimit then l.burstLimit else l.maxRequests }

  function Judge(l: Limits, count: nat, now: real): Verdict {
    var limit := LimitAt(l, count);
    Verdict(count < limit, limit, if limit - count < 0 then 0 else limit - count, now.Floor + l.window)
  }

  // ---- the in-memory limiter -------------------------------------------------------

  function Swept(fallback: map<Key, seq<real>>, start: real): map<Key, seq<real>> {
    map k | k in fallback && Keep(fallback[k], start) != [] :: Keep(fallback[k], start)
  }

  function SweepDue(s: Buckets, now: real): bool { now - s.lastCleanup > 60.0 }

  function Bucket(fallback: map<Key, seq<real>>, key: Key): seq<real> {
    if key in fallback then fallback[key] else []
  }

  /** The bucket the request is judged by. */
  function Current(l: Limits, s: Buckets, key: Key, now: real): seq<real> {
    Keep(Bucket(if SweepDue(s, now) then Swept(s.fallback, Start(l, now)) else s.fallback, key), Start(l, now))
  }

  function MemoryVerdict(l: Limits, s: Buckets, key: Key, now: real): Verdict {
    Judge(l, |Current(l, s, key, now)|, now)
  }

  function AfterMemory(l: Limits, s: Buckets, key: Key, now: real): Buckets {
    var fallback := if SweepDue(s, now) then Swept(s.fallback, Start(l, now)) else s.fallback;
    var bucket := Current(l, s, key, now);
    Buckets(fallback[key := if MemoryVerdict(l, s, key, now).admitted then bucket + [now] else bucket],
            if SweepDue(s, now) then now else s.lastCleanup)
  }

  class RateLimiter {
    const limits: Limits
    var fallback: map<Key, seq<real>>
    var lastCleanup: real

    constructor (limits: Limits)
      ensures this.limits == limits && State() == Buckets(map[], 0.0)
    {
      this.limits := limits;
      fallback, lastCleanup := map[], 0.0;
    }

    function State(): Buckets
      reads this
    {
      Buckets(fallback, lastCleanup)
    }

    /** Filters every bucket and drops the empty ones. */
    method Sweep(start: real)
      modifies this`fallback
      ensures fallback == Swept(old(fallback), start)
    {
      var keys := fallback.Keys;
      while keys != {}
        invariant keys <= fallback.Keys <= old(fallback).Keys
        invariant forall k | k in old(fallback) && k !in keys ::
                    if Keep(old(fallback)[k], start) == [] then k !in fallback
                    else k in fallback && fallback[k] == Keep(old(fallback)[k], start)
        invariant forall k | k in keys :: fallback[k] == old(fallback)[k]
      {
        var k :| k in keys;
        fallback := fallback[k := Keep(fallback[k], start)];
        if fallback[k] == [] { fallback := fallback - {k}; }
        keys := keys - {k};
      }
    }

    method CheckMemory(key: Key, now: real) returns (v: Verdict)
      modifies this
      ensures v == MemoryVerdict(limits, old(State()), key, now)
      ensures State() == AfterMemory(limits, old(State()), key, now)
    {
      var start := Start(limits, now);
      if now - lastCleanup > 60.0 {
        lastCleanup := now;
        Sweep(start);
      }
      var bucket := Keep(Bucket(fallback, key), start);
      fallback := fallback[key := bucket];
      v := Judge(limits, |bucket|, now);
      if v.admitted {
        fallback := fallback[key := bucket + [now]];
      }
    }
  }

  // ---- runs ------------------------------------------------------------------------

  datatype Call = Call(key: Key, at: real)

  ghost predicate Timely(calls: seq<Call>) {
    forall i, j | 0 <= i < j < |calls| :: calls[i].at <= calls[j].at
  }

  const FRESH := Buckets(map[], 0.0)

  function MemoryRun(l: Limits, calls: seq<Call>): Buckets {
    if calls == [] then FRESH
    else AfterMemory(l, MemoryRun(l, calls[..|calls| - 1]), calls[|calls| - 1].key, calls[|calls| - 1].at)
  }

  /** Whether the limiter admits the n-th call of a run. */
  predicate MemoryAdmits(l: Limits, calls: seq<Call>, n: nat)
    requires n < |calls|
  {
    MemoryVerdict(l, MemoryRun(l, calls[..n]), calls[n].key, calls[n].at).admitted
  }

  /** The full history of one key: every admitted time, never swept, never filtered. */
  function Admitted(l: Limits, calls: seq<Call>, key: Key): (r: seq<real>)
    ensures forall t | t in r :: exists c :: c in calls && c.at == t
  {
    if calls == [] then []
    else
      var before, last := calls[..|calls| - 1], calls[|calls| - 1];
      var history := Admitted(l, before, key);
      if last.key == key && |Keep(history, Start(l, last.at))| < Cap(l) then history + [last.at] else history
  }

  /** The two limits together: what a count is really compared with. */
  function Cap(l: Limits): int { if l.burstLimit > l.maxRequests then l.burstLimit else l.maxRequests }

  lemma AdmittedIffBelowCap(l: Limits, count: nat, now: real)
    ensures Judge(l, count, now).admitted <==> count < Cap(l)
  {}

  lemma {:induction false} KeepKeep(ts: seq<real>, early: real, late: real)
    requires early <= late
    ensures Keep(Keep(ts, early), late) == Keep(ts, late)
  {
    if ts != [] {
      KeepKeep(ts[1..], early, late);
      var rest := Keep(ts[1..], early);
      if ts[0] > early {
        assert Keep(ts, early)[0] == ts[0] && Keep(ts, early)[1..] == rest;
      } else {
        assert Keep(ts, early) == rest;
      }
    }
  }

  lemma {:induction false} KeepAppend(ts: seq<real>, t: real, start: real)
    ensures Keep(ts + [t], start) == Keep(ts, start) + (if t > start then [t] else [])
  {
    if ts == [] {
      KeepOne(t, start);
      assert ts + [t] == [t];
    } else {
      hide Keep;
      var all, rest := ts + [t], ts[1..];
      assert all[0] == ts[0] && all[1..] == rest + [t];
      KeepAppend(rest, t, start);
      KeepFirst(all, start);
      KeepFirst(ts, start);
    }
  }

  lemma KeepFirst(ts: seq<real>, start: real)
    requires ts != []
    ensures Keep(ts, start) == (if ts[0] > start then [ts[0]] else []) + Keep(ts[1..], start)
  {}

  lemma KeepOne(t: real, start: real)
    ensures Keep([t], start) == if t <= start then [] else [t]
  {
    assert [t][1..] == [];
  }

  /** From some instant on, bucket and full history show the same entries. */
  ghost predicate Agree(l: Limits, fallback: map<Key, seq<real>>, calls: seq<Call>, from: real) {
    forall key :: Keep(Bucket(fallback, key), from) == Keep(Admitted(l, calls, key), from)
  }

  lemma AgreeLater(l: Limits, fallback: map<Key, seq<real>>, calls: seq<Call>, from: real, later: real)
    requires Agree(l, fallback, calls, from) && from <= later
    ensures Agree(l, fallback, calls, later)
  {
    forall key ensures Keep(Bucket(fallback, key), later) == Keep(Admitted(l, calls, key), later) {
      KeepKeep(Bucket(fallback, key), from, later);
      KeepKeep(Admitted(l, calls, key), from, later);
      assert Keep(Bucket(fallback, key), from) == Keep(Admitted(l, calls, key), from);
    }
  }

  lemma SweepAgrees(l: Limits, fallback: map<Key, seq<real>>, calls: seq<Call>, from: real)
    requires Agree(l, fallback, calls, from)
    ensures Agree(l, Swept(fallback, from), calls, from)
  {
    forall key ensures Keep(Bucket(Swept(fallback, from), key), from) == Keep(Admitted(l, calls, key), from) {
      assert Keep(Bucket(fallback, key), from) == Keep(Admitted(l, calls, key), from);
      if key in fallback { KeepKeep(fallback[key], from, from); }
    }
  }

  /** One call: the verdict is that of the full history, and both sides stay in step. */
  lemma StepAgrees(l: Limits, s: Buckets, calls: seq<Call>, c: Call)
    requires Agree(l, s.fallback, calls, Start(l, c.at))
    ensures MemoryVerdict(l, s, c.key, c.at).admitted <==> |Keep(Admitted(l, calls, c.key), Start(l, c.at))| < Cap(l)
    ensures Agree(l, AfterMemory(l, s, c.key, c.at).fallback, calls + [c], Start(l, c.at))
  {
    hide Keep, Swept, Judge, Cap, LimitAt;
    var start := Start(l, c.at);
    var fallback := if SweepDue(s, c.at) then Swept(s.fallback, start) else s.fallback;
    if SweepDue(s, c.at) { SweepAgrees(l, s.fallback, calls, start); }
    var bucket := Current(l, s, c.key, c.at);
    assert bucket == Keep(Admitted(l, calls, c.key), start);
    AdmittedIffBelowCap(l, |bucket|, c.at);
    var after := AfterMemory(l, s, c.key, c.at).fallback;
    assert (calls + [c])[..|calls|] == calls;
    forall key ensures Keep(Bucket(after, key), start) == Keep(Admitted(l, calls + [c], key), start) {
      assert Keep(Bucket(fallback, key), start) == Keep(Admitted(l, calls, key), start);
      if key == c.key {
        KeepKeep(Bucket(fallback, key), start, start);
        KeepAppend(bucket, c.at, start);
        KeepAppend(Admitted(l, calls, key), c.at, start);
      }
    }
  }

  lemma {:induction false} RunAgrees(l: Limits, calls: seq<Call>, now: real)
    requires Timely(calls) && forall c | c in calls :: c.at <= now
    ensures Agree(l, MemoryRun(l, calls).fallback, calls, Start(l, now))
  {
    if calls != [] {
      var before, last := calls[..|calls| - 1], calls[|calls| - 1];
      RunAgrees(l, before, last.at);
      StepAgrees(l, MemoryRun(l, before), before, last);
      assert calls == before + [last];
      AgreeLater(l, MemoryRun(l, calls).fallback, calls, Start(l, last.at), Start(l, now));
    }
  }

  /** Filtering, sweeping and dropping buckets never change a verdict. */
  lemma SweepInvisible(l: Limits, calls: seq<Call>, n: nat)
    requires Timely(calls) && n < |calls|
    ensures MemoryAdmits(l, calls, n) <==>
            |Keep(Admitted(l, calls[..n], calls[n].key), Start(l, calls[n].at))| < Cap(l)
  {
    RunAgrees(l, calls[..n], calls[n].at);
    StepAgrees(l, MemoryRun(l, calls[..n]), calls[..n], calls[n]);
  }

  function Within(ts: seq<real>, after: real, upTo: real): nat {
    if ts == [] then 0 else Within(ts[..|ts| - 1], after, upTo) + (if after < ts[|ts| - 1] <= upTo then 1 else 0)
  }

  lemma {:induction false} WithinAtMostKeep(ts: seq<real>, after: real, upTo: real, start: real)
    requires start <= after
    ensures Within(ts, after, upTo) <= |Keep(ts, start)|
  {
    if ts != [] {
      WithinAtMostKeep(ts[..|ts| - 1], after, upTo, start);
      KeepAppend(ts[..|ts| - 1], ts[|ts| - 1], start);
      assert ts == ts[..|ts| - 1] + [ts[|ts| - 1]];
    }
  }

  /** The times of one key's calls that the limiter let through, each judged in the state its run had reached. */
  function LetThrough(l: Limits, calls: seq<Call>, key: Key): seq<real> {
    if calls == [] then []
    else
      var n := |calls| - 1;
      LetThrough(l, calls[..n], key) + (if calls[n].key == key && MemoryAdmits(l, calls, n) then [calls[n].at] else [])
  }

  lemma {:induction false} LetThroughIsAdmitted(l: Limits, calls: seq<Call>, key: Key)
    requires Timely(calls)
    ensures LetThrough(l, calls, key) == Admitted(l, calls, key)
  {
    hide MemoryAdmits, Keep;
    if calls != [] {
      var n := |calls| - 1;
      LetThroughIsAdmitted(l, calls[..n], key);
      SweepInvisible(l, calls, n);
      assert LetThrough(l, calls[..n], key) + [] == LetThrough(l, calls[..n], key);
    }
  }

  lemma {:induction false} AdmittedWindow(l: Limits, calls: seq<Call>, key: Key, t: real)
    requires Timely(calls)
    ensures Within(Admitted(l, calls, key), Start(l, t), t) <= if Cap(l) > 0 then Cap(l) else 0
  {
    hide Keep, Cap, Within, Start;
    if calls == [] {
      NothingWithin(l, t);
    } else {
      var before, last := calls[..|calls| - 1], calls[|calls| - 1];
      AdmittedWindow(l, before, key, t);
      var history := Admitted(l, before, key);
      if last.key == key && |Keep(history, Start(l, last.at))| < Cap(l) { WindowStep(l, history, last.at, t); }
    }
  }

  /** In every window that ends at any instant t, the limiter lets through at most the cap. */
  lemma WindowBound(l: Limits, calls: seq<Call>, key: Key, t: real)
    requires Timely(calls)
    ensures Within(LetThrough(l, calls, key), Start(l, t), t) <= if Cap(l) > 0 then Cap(l) else 0
  {
    LetThroughIsAdmitted(l, calls, key);
    AdmittedWindow(l, calls, key, t);
  }

  // ---- the Redis limiter --------------------------------------------------------------

  /** A sorted set of attempt times and the instant the key expires. */
  datatype Entry = Entry(times: set<real>, expiresAt: real)
  type Redis = map<Key, Entry>

  /** What is left of the sorted set when a request arrives. */
  function Surviving(l: Limits, r: Redis, key: Key, now: real): set<real> {
    if key !in r || r[key].expiresAt <= now then {}
    else set t | t in r[key].times && t > Start(l, now)
  }

  function RedisVerdict(l: Limits, r: Redis, key: Key, now: real): Verdict {
    Judge(l, |Surviving(l, r, key, now)|, now)
  }

  /** The attempt is recorded whatever the verdict, and the key lives two windows more. */
  function AfterRedis(l: Limits, r: Redis, key: Key, now: real): Redis {
    r[key := Entry(Surviving(l, r, key, now) + {now}, now + (2 * l.window) as real)]
  }

  function RedisRun(l: Limits, calls: seq<Call>): Redis {
    if calls == [] then map[]
    else AfterRedis(l, RedisRun(l, calls[..|calls| - 1]), calls[|calls| - 1].key, calls[|calls| - 1].at)
  }

  predicate RedisAdmits(l: Limits, calls: seq<Call>, n: nat)
    requires n < |calls|
  {
    RedisVerdict(l, RedisRun(l, calls[..n]), calls[n].key, calls[n].at).admitted
  }

  function Attempts(calls: seq<Call>, key: Key): (r: seq<real>)
  {
    if calls == [] then []
    else Attempts(calls[..|calls| - 1], key) + (if calls[|calls| - 1].key == key then [calls[|calls| - 1].at] else [])
  }

  /** Requests of one key at strictly increasing times. */
  ghost predicate StrictPerKey(calls: seq<Call>) {
    forall i, j | 0 <= i < j < |calls| && calls[i].key == calls[j].key :: calls[i].at < calls[j].at
  }

  lemma {:induction false} AttemptsAreCalls(calls: seq<Call>, key: Key)
    ensures forall t | t in Attempts(calls, key) :: exists i ::
              0 <= i < |calls| && calls[i].key == key && calls[i].at == t
  {
    if calls != [] {
      var before, last := calls[..|calls| - 1], calls[|calls| - 1];
      AttemptsAreCalls(before, key);
      forall t | t in Attempts(calls, key)
        ensures exists i :: 0 <= i < |calls| && calls[i].key == key && calls[i].at == t
      {
        if t in Attempts(before, key) {
          var i :| 0 <= i < |before| && before[i].key == key && before[i].at == t;
          assert calls[i] == before[i];
        } else {
          assert calls[|calls| - 1].key == key && calls[|calls| - 1].at == t;
        }
      }
    }
  }

  lemma {:induction false} AttemptsStrict(calls: seq<Call>, key: Key)
    requires StrictPerKey(calls)
    ensures forall i, j | 0 <= i < j < |Attempts(calls, key)| :: Attempts(calls, key)[i] < Attempts(calls, key)[j]
  {
    if calls != [] {
      var before, last := calls[..|calls| - 1], calls[|calls| - 1];
      AttemptsStrict(before, key);
      AttemptsAreCalls(before, key);
      if last.key == key {
        forall t | t in Attempts(before, key) ensures t < last.at {
          var i :| 0 <= i < |before| && before[i].key == key && before[i].at == t;
          assert calls[i] == before[i];
        }
        assert forall i | 0 <= i < |Attempts(before, key)| :: Attempts(before, key)[i] in Attempts(before, key);
      }
    }
  }

  /** Expiring a key loses no attempt that is still inside the window. */
  lemma {:induction false} SurvivingAreAttempts(l: Limits, calls: seq<Call>, key: Key, now: real)
    requires Timely(calls) && forall c | c in calls :: c.at <= now
    ensures forall t :: t in Surviving(l, RedisRun(l, calls), key, now)
              <==> t in Attempts(calls, key) && t > Start(l, now)
  {
    if calls != [] {
      var before, last := calls[..|calls| - 1], calls[|calls| - 1];
      var r := RedisRun(l, before);
      if key == last.key {
        SurvivingAreAttempts(l, before, key, last.at);
        AttemptsAreCalls(calls, key);
        forall t
          ensures t in Surviving(l, RedisRun(l, calls), key, now) <==> t in Attempts(calls, key) && t > Start(l, now)
        {
          if t in Attempts(calls, key) {
            var i :| 0 <= i < |calls| && calls[i].key == key && calls[i].at == t;
            assert t <= last.at;
          }
        }
      } else {
        SurvivingAreAttempts(l, before, key, now);
      }
    }
  }

  lemma {:induction false} KeepStrict(ts: seq<real>, start: real)
    requires forall i, j | 0 <= i < j < |ts| :: ts[i] < ts[j]
    ensures forall i, j | 0 <= i < j < |Keep(ts, start)| :: Keep(ts, start)[i] < Keep(ts, start)[j]
  {
    if ts != [] {
      KeepStrict(ts[1..], start);
      var rest := Keep(ts[1..], start);
      assert forall t | t in rest :: ts[0] < t;
      assert forall i | 0 <= i < |rest| :: rest[i] in rest;
    }
  }

  lemma {:induction false} StrictCount(ts: seq<real>, s: set<real>)
    requires forall i, j | 0 <= i < j < |ts| :: ts[i] < ts[j]
    requires forall t :: t in s <==> t in ts
    ensures |s| == |ts|
  {
    if ts == [] {
      assert forall t :: t !in s;
      assert s == {};
    } else {
      var n := |ts| - 1;
      StrictCount(ts[..n], s - {ts[n]});
      assert ts == ts[..n] + [ts[n]];
    }
  }

  /** The Redis limiter admits a call exactly when fewer attempts than the cap, admitted or not, lie in the window. */
  lemma RedisCountsAttempts(l: Limits, calls: seq<Call>, n: nat)
    requires Timely(calls) && StrictPerKey(calls) && n < |calls|
    ensures RedisAdmits(l, calls, n) <==>
            |Keep(Attempts(calls[..n], calls[n].key), Start(l, calls[n].at))| < Cap(l)
  {
    var before, c := calls[..n], calls[n];
    var kept := Keep(Attempts(before, c.key), Start(l, c.at));
    var alive := Surviving(l, RedisRun(l, before), c.key, c.at);
    SurvivingAreAttempts(l, before, c.key, c.at);
    AttemptsStrict(before, c.key);
    KeepStrict(Attempts(before, c.key), Start(l, c.at));
    StrictCount(kept, alive);
    AdmittedIffBelowCap(l, |alive|, c.at);
  }

  lemma {:induction false} AdmittedAmongAttempts(l: Limits, calls: seq<Call>, key: Key, start: real)
    ensures |Keep(Admitted(l, calls, key), start)| <= |Keep(Attempts(calls, key), start)|
  {
    if calls != [] {
      var before, last := calls[..|calls| - 1], calls[|calls| - 1];
      AdmittedAmongAttempts(l, before, key, start);
      KeepAppend(Admitted(l, before, key), last.at, start);
      KeepAppend(Attempts(before, key), last.at, start);
      assert Attempts(before, key) + [] == Attempts(before, key);
    }
  }

  /** On the same calls, whatever Redis admits the in-memory limiter admits too. */
  lemma RedisStricter(l: Limits, calls: seq<Call>, n: nat)
    requires Timely(calls) && StrictPerKey(calls) && n < |calls| && RedisAdmits(l, calls, n)
    ensures MemoryAdmits(l, calls, n)
  {
    hide RedisAdmits, MemoryAdmits, Keep;
    SweepInvisible(l, calls, n);
    RedisCountsAttempts(l, calls, n);
    AdmittedAmongAttempts(l, calls[..n], calls[n].key, Start(l, calls[n].at));
  }

  /** The verdicts differ exactly when refused attempts fill the window up to the cap. */
  lemma VerdictsDifferIff(l: Limits, calls: seq<Call>, n: nat)
    requires Timely(calls) && StrictPerKey(calls) && n < |calls|
    ensures MemoryAdmits(l, calls, n) != RedisAdmits(l, calls, n) <==>
            var start := Start(l, calls[n].at);
            && |Keep(LetThrough(l, calls[..n], calls[n].key), start)| < Cap(l)
            && Cap(l) <= |Keep(Attempts(calls[..n], calls[n].key), start)|
  {
    hide RedisAdmits, MemoryAdmits, Keep;
    SweepInvisible(l, calls, n);
    RedisCountsAttempts(l, calls, n);
    LetThroughIsAdmitted(l, calls[..n], calls[n].key);
    AdmittedAmongAttempts(l, calls[..n], calls[n].key, Start(l, calls[n].at));
  }

  /** The times of one key's calls that Redis let through. */
  function RedisLetThrough(l: Limits, calls: seq<Call>, key: Key): seq<real> {
    if calls == [] then []
    else
      var n := |calls| - 1;
      RedisLetThrough(l, calls[..n], key)
      + (if calls[n].key == key && RedisAdmits(l, calls, n) then [calls[n].at] else [])
  }

  lemma {:induction false} RedisAmongAttempts(l: Limits, calls: seq<Call>, key: Key, start: real)
    ensures |Keep(RedisLetThrough(l, calls, key), start)| <= |Keep(Attempts(calls, key), start)|
  {
    hide RedisAdmits;
    if calls != [] {
      var before, last := calls[..|calls| - 1], calls[|calls| - 1];
      RedisAmongAttempts(l, before, key, start);
      KeepAppend(RedisLetThrough(l, before, key), last.at, start);
      KeepAppend(Attempts(before, key), last.at, start);
      assert Attempts(before, key) + [] == Attempts(before, key);
      assert RedisLetThrough(l, before, key) + [] == RedisLetThrough(l, before, key);
    }
  }

  /** One more time, let through while the window before it was below the cap. */
  lemma WindowStep(l: Limits, history: seq<real>, at: real, t: real)
    requires Within(history, Start(l, t), t) <= (if Cap(l) > 0 then Cap(l) else 0)
    requires |Keep(history, Start(l, at))| < Cap(l)
    ensures Within(history + [at], Start(l, t), t) <= (if Cap(l) > 0 then Cap(l) else 0)
  {
    hide Keep, Cap;
    assert (history + [at])[..|history|] == history;
    if at <= t { WithinAtMostKeep(history, Start(l, t), t, Start(l, at)); }
  }

  lemma NothingWithin(l: Limits, t: real)
    ensures Within([], Start(l, t), t) == 0
  {}

  /** Redis, too, lets through at most the cap in every window that ends at any instant. */
  lemma {:induction false} RedisWindowBound(l: Limits, calls: seq<Call>, key: Key, t: real)
    requires Timely(calls) && StrictPerKey(calls)
    ensures Within(RedisLetThrough(l, calls, key), Start(l, t), t) <= if Cap(l) > 0 then Cap(l) else 0
  {
    hide RedisAdmits, Keep, Cap, Within, Start, Attempts;
    if calls == [] {
      NothingWithin(l, t);
    } else {
      var n := |calls| - 1;
      var before, last := calls[..n], calls[n];
      RedisWindowBound(l, before, key, t);
      var history := RedisLetThrough(l, before, key);
      if last.key == key && RedisAdmits(l, calls, n) {
        RedisCountsAttempts(l, calls, n);
        RedisAmongAttempts(l, before, key, Start(l, last.at));
        WindowStep(l, history, last.at, t);
      } else {
        assert history + [] == history;
      }
    }
  }

  lemma KeepNone(start: real)
    ensures Keep([], start) == []
  {}

  /** The other way fails: hammering keeps a client out of Redis while memory lets it back in. */
  lemma RedisNotEqual()
    ensures var l := Limits(1, 1, 10);
            var calls := [Call("k", 0.0), Call("k", 9.0), Call("k", 11.0)];
            Timely(calls) && StrictPerKey(calls) && MemoryAdmits(l, calls, 2) && !RedisAdmits(l, calls, 2)
  {
    hide Keep, MemoryAdmits, RedisAdmits;
    var l := Limits(1, 1, 10);
    var calls := [Call("k", 0.0), Call("k", 9.0), Call("k", 11.0)];
    var one, two := [Call("k", 0.0)], [Call("k", 0.0), Call("k", 9.0)];
    assert calls[..2] == two && calls[..1] == two[..1] == one && calls[..0] == one[..0] == [];
    KeepNone(-10.0); KeepOne(0.0, -1.0); KeepOne(0.0, 1.0); KeepOne(9.0, 1.0);
    assert Attempts(one, "k") == [0.0] by { assert Attempts([], "k") == []; }
    assert Attempts(two, "k") == [0.0, 9.0];
    assert Admitted(l, one, "k") == [0.0] by { assert Admitted(l, [], "k") == []; }
    assert Admitted(l, two, "k") == [0.0];
    KeepAppend([0.0], 9.0, 1.0);
    SweepInvisible(l, calls, 2);
    RedisCountsAttempts(l, calls, 2);
  }

  // ---- what the headers say, and what is kept ---------------------------------------------------

  /**
   The limit is one of the two; what remains of it counts this request, so it is positive exactly where the request
   is let through.
   */
  lemma HeadersMean(l: Limits, count: nat, now: real)
    ensures var v := Judge(l, count, now);
      && (v.limit == l.burstLimit || v.limit == l.maxRequests) && (count < l.burstLimit ==> v.limit == l.burstLimit)
      && (v.remaining > 0 <==> v.admitted) && v.remaining >= 0 && (v.admitted ==> v.remaining + count == v.limit)
      && v.reset as real - l.window as real <= now < v.reset as real - l.window as real + 1.0
  {}

  /** A sweep, due after a minute, leaves no other key a bucket without a call inside the window. */
  lemma SweepForgets(l: Limits, s: Buckets, key: Key, now: real, other: Key)
    requires now - s.lastCleanup > 60.0 && other != key
    ensures var after := AfterMemory(l, s, key, now);
      && after.lastCleanup == now
      && (other in after.fallback ==> exists t :: t in after.fallback[other] && t > now - l.window as real)
  {
    var after := AfterMemory(l, s, key, now);
    if other in after.fallback {
      var kept := after.fallback[other];
      assert kept != [] && kept == Keep(s.fallback[other], Start(l, now));
      assert kept[0] in kept;
    }
  }

  /** Between sweeps no other key's bucket is touched. */
  lemma OthersUntouched(l: Limits, s: Buckets, key: Key, now: real, other: Key)
    requires now - s.lastCleanup <= 60.0 && other != key
    ensures var after := AfterMemory(l, s, key, now);
            after.lastCleanup == s.lastCleanup && Bucket(after.fallback, other) == Bucket(s.fallback, other)
  {}

  /** Redis forgets a key two windows after its last attempt. */
  lemma RedisForgets(l: Limits, r: Redis, key: Key, at: real, later: real)
    requires later >= at + (2 * l.window) as real
    ensures Surviving(l, AfterRedis(l, r, key, at), key, later) == {}
  {}
}
