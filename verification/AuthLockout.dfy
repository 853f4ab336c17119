/**
 Login throttling: the fifth failed password locks the account for fifteen minutes,
 and since the counter is only cleared by a success, so does every failure after it.
 */
module AuthLockout {
  import opened Prelude

  const MAX_FAILED_ATTEMPTS: nat := 5
  /** Fifteen minutes in microseconds. */
  const LOCKOUT: int := 15 * 60 * 1_000_000

  datatype Account = Account(failedAttempts: nat, lockedUntil: Option<int>)
  datatype Attempt = Attempt(at: int, passwordOk: bool)
  datatype Outcome = Locked | Rejected | Passed

  const CLEAN := Account(0, None)

  function Judge(acc: Account, a: Attempt): Outcome {
    if acc.lockedUntil.Some? && acc.lockedUntil.value > a.at then Locked
    else if a.passwordOk then Passed
    else Rejected
  }

  function After(acc: Account, a: Attempt): Account {
    match Judge(acc, a)
    case Locked => acc
    case Passed => CLEAN
    case Rejected =>
      var n := acc.failedAttempts + 1;
      Account(n, if n >= MAX_FAILED_ATTEMPTS then Some(a.at + LOCKOUT) else acc.lockedUntil)
  }

  /** The user row, as the login handler changes it. */
  class User {
    var failedAttempts: nat
    var lockedUntil: Option<int>

    constructor ()
      ensures State() == CLEAN
    {
      failedAttempts, lockedUntil := 0, None;
    }

    function State(): Account
      reads this
    {
      Account(failedAttempts, lockedUntil)
    }

    method Login(passwordOk: bool, now: int) returns (outcome: Outcome)
      modifies this
      ensures outcome == Judge(old(State()), Attempt(now, passwordOk))
      ensures State() == After(old(State()), Attempt(now, passwordOk))
    {
      if lockedUntil.Some? && lockedUntil.value > now { return Locked; }
      if !passwordOk {
        failedAttempts := failedAttempts + 1;
        if failedAttempts >= MAX_FAILED_ATTEMPTS { lockedUntil := Some(now + LOCKOUT); }
        return Rejected;
      }
      if failedAttempts != 0 || lockedUntil.Some? {
        failedAttempts, lockedUntil := 0, None;
      }
      return Passed;
    }
  }

  // ---- one attempt -----------------------------------------------------------

  /** A locked account refuses every attempt until the lock ends, the right password included, and stays as it is. */
  lemma LockedIff(acc: Account, a: Attempt)
    ensures Judge(acc, a) == Locked <==> acc.lockedUntil.Some? && a.at < acc.lockedUntil.value
    ensures Judge(acc, a) == Locked ==> After(acc, a) == acc
  {}

  /** Off the lock the right password passes, whatever the counter says, and the account is as new. */
  lemma SuccessResets(acc: Account, at: int)
    requires acc.lockedUntil.Some? ==> acc.lockedUntil.value <= at
    ensures Judge(acc, Attempt(at, true)) == Passed
    ensures After(acc, Attempt(at, true)).failedAttempts == 0 && After(acc, Attempt(at, true)).lockedUntil == None
  {}

  // ---- runs -------------------------------------------------------------------

  function Run(acc: Account, attempts: seq<Attempt>): Account {
    if attempts == [] then acc
    else After(Run(acc, attempts[..|attempts| - 1]), attempts[|attempts| - 1])
  }

  /** The times of the failures that were counted, in order. */
  function Counted(acc: Account, attempts: seq<Attempt>): (r: seq<int>)
    ensures |r| <= |attempts|
  {
    if attempts == [] then []
    else
      var before := attempts[..|attempts| - 1];
      var last := attempts[|attempts| - 1];
      Counted(acc, before) + (if Judge(Run(acc, before), last) == Rejected then [last.at] else [])
  }

  ghost predicate Timely(attempts: seq<Attempt>) {
    forall i, j | 0 <= i < j < |attempts| :: attempts[i].at <= attempts[j].at
  }

  ghost predicate NoSuccess(acc: Account, attempts: seq<Attempt>) {
    forall n | 0 <= n < |attempts| :: Judge(Run(acc, attempts[..n]), attempts[n]) != Passed
  }

  /** From the fifth failure on, each counted failure is a lockout away from the one before it. */
  ghost predicate Spaced(times: seq<int>) {
    && (forall k | MAX_FAILED_ATTEMPTS <= k < |times| :: times[k] >= times[k - 1] + LOCKOUT)
    && (forall i, j | 0 <= i < j < |times| :: times[i] <= times[j])
  }

  /** The account after counting the failures at these times. */
  ghost predicate Tracks(acc: Account, times: seq<int>) {
    && Spaced(times)
    && acc == Account(|times|, if |times| >= MAX_FAILED_ATTEMPTS then Some(times[|times| - 1] + LOCKOUT) else None)
  }

  lemma TracksStep(acc: Account, times: seq<int>, a: Attempt)
    requires Tracks(acc, times) && Judge(acc, a) != Passed && (times != [] ==> times[|times| - 1] <= a.at)
    ensures Tracks(After(acc, a), times + (if Judge(acc, a) == Rejected then [a.at] else []))
  {
    if Judge(acc, a) == Rejected {
      var more := times + [a.at];
      forall k | MAX_FAILED_ATTEMPTS <= k < |more| ensures more[k] >= more[k - 1] + LOCKOUT {
        assert k < |times| || (k == |times| && more[k - 1] == times[|times| - 1]);
      }
    } else {
      assert times + [] == times;
    }
  }

  lemma CountStep(acc: Account, before: seq<Attempt>, a: Attempt)
    ensures Run(acc, before + [a]) == After(Run(acc, before), a)
    ensures Counted(acc, before + [a]) == Counted(acc, before)
              + (if Judge(Run(acc, before), a) == Rejected then [a.at] else [])
  {
    hide Judge, After;
    assert (before + [a])[..|before|] == before;
  }

  lemma ShorterRun(attempts: seq<Attempt>)
    requires attempts != [] && Timely(attempts) && NoSuccess(CLEAN, attempts)
    ensures Timely(attempts[..|attempts| - 1]) && NoSuccess(CLEAN, attempts[..|attempts| - 1])
    ensures Judge(Run(CLEAN, attempts[..|attempts| - 1]), attempts[|attempts| - 1]) != Passed
  {
    hide Judge, Run;
    var before := attempts[..|attempts| - 1];
    forall m | 0 <= m < |before| ensures Judge(Run(CLEAN, before[..m]), before[m]) != Passed {
      assert before[..m] == attempts[..m];
    }
  }

  lemma NoRun()
    ensures Tracks(Run(CLEAN, []), Counted(CLEAN, [])) && Counted(CLEAN, []) == []
  {}

  lemma {:induction false} RunSpaced(attempts: seq<Attempt>)
    requires Timely(attempts) && NoSuccess(CLEAN, attempts)
    ensures Tracks(Run(CLEAN, attempts), Counted(CLEAN, attempts))
    ensures Counted(CLEAN, attempts) != [] ==>
              attempts != [] && Counted(CLEAN, attempts)[|Counted(CLEAN, attempts)| - 1] <= attempts[|attempts| - 1].at
  {
    hide Judge, After, Tracks, NoSuccess, Counted, Run;
    if attempts == [] {
      NoRun();
    } else {
      var n := |attempts| - 1;
      var before, a := attempts[..n], attempts[n];
      ShorterRun(attempts);
      RunSpaced(before);
      TracksStep(Run(CLEAN, before), Counted(CLEAN, before), a);
      CountStep(CLEAN, before, a);
      assert before + [a] == attempts;
    }
  }

  lemma {:induction false} RunConcat(acc: Account, a: seq<Attempt>, b: seq<Attempt>)
    ensures Run(acc, a + b) == Run(Run(acc, a), b)
  {
    hide After;
    if b == [] {
      assert a + b == a;
    } else {
      var n := |b| - 1;
      assert (a + b)[..|a| + n] == a + b[..n];
      RunConcat(acc, a, b[..n]);
    }
  }

  /**
   A success forgets everything before it: from any history, after an attempt that passed the
   account goes through any further attempts exactly like a new one.
   */
  lemma SuccessForgets(acc: Account, before: seq<Attempt>, success: Attempt, later: seq<Attempt>)
    requires Judge(Run(acc, before), success) == Passed
    ensures Run(acc, before + [success] + later) == Run(CLEAN, later)
  {
    hide After, Judge;
    RunConcat(acc, before + [success], later);
    CountStep(acc, before, success);
    PassedCleans(Run(acc, before), success);
  }

  lemma PassedCleans(acc: Account, a: Attempt)
    requires Judge(acc, a) == Passed
    ensures After(acc, a) == CLEAN
  {}

  /**
   The lock falls with the fifth failure, not before: after n failures at one time an account is locked iff n >= 5.
   */
  lemma {:induction false} FifthFailureLocks(n: nat, at: int)
    ensures var acc := Run(CLEAN, seq(n, _ => Attempt(at, false)));
            acc.lockedUntil == (if n < 5 then None else Some(at + 900_000_000)) && acc.failedAttempts == Min(n, 5)
  {
    var all := seq(n, _ => Attempt(at, false));
    if n > 0 {
      assert all[..n - 1] == seq(n - 1, _ => Attempt(at, false));
      FifthFailureLocks(n - 1, at);
    }
  }

  lemma {:induction false} SpanOf(times: seq<int>, i: nat, j: nat)
    requires Spaced(times) && i <= j < |times|
    ensures times[j] - times[i] >= (j - i + 1 - MAX_FAILED_ATTEMPTS) * LOCKOUT
    decreases j - i
  {
    if i < j {
      SpanOf(times, i, j - 1);
      if j >= MAX_FAILED_ATTEMPTS {
        assert times[j] >= times[j - 1] + LOCKOUT;
      }
    }
  }

  /**
   Without a success, the failures counted from the i-th to the j-th number at most
   five plus the whole lockouts that fit between them, wherever the window starts.
   */
  lemma LockoutBound(attempts: seq<Attempt>, i: nat, j: nat)
    requires Timely(attempts) && NoSuccess(CLEAN, attempts)
    requires i <= j < |Counted(CLEAN, attempts)|
    ensures var times := Counted(CLEAN, attempts);
            j - i + 1 <= MAX_FAILED_ATTEMPTS + (times[j] - times[i]) / LOCKOUT
  {
    hide Counted, Timely, NoSuccess, Run;
    RunSpaced(attempts);
    var times := Counted(CLEAN, attempts);
    SpanOf(times, i, j);
    WholeLockouts(j - i + 1 - MAX_FAILED_ATTEMPTS, times[j] - times[i]);
  }

  lemma WholeLockouts(n: int, span: int)
    requires span >= n * LOCKOUT
    ensures n <= span / LOCKOUT
  {}

  /** Five guesses at once, then one at the end of each lockout. */
  function GuessTime(n: nat): int { if n < MAX_FAILED_ATTEMPTS then 0 else (n + 1 - MAX_FAILED_ATTEMPTS) * LOCKOUT }

  function Patient(n: nat): (r: seq<Attempt>)
    ensures |r| == n && forall i | 0 <= i < n :: r[i] == Attempt(GuessTime(i), false)
  {
    if n == 0 then [] else Patient(n - 1) + [Attempt(GuessTime(n - 1), false)]
  }

  lemma GuessTimeGrows(i: nat, j: nat)
    requires i <= j
    ensures GuessTime(i) <= GuessTime(j)
  {}

  lemma PatientAllowed(n: nat)
    ensures Timely(Patient(n)) && NoSuccess(CLEAN, Patient(n))
  {
    hide Run, GuessTime;
    forall i, j | 0 <= i < j < n ensures GuessTime(i) <= GuessTime(j) { GuessTimeGrows(i, j); }
  }

  function AfterPatience(n: nat): Account {
    Account(n, if n < MAX_FAILED_ATTEMPTS then None else Some(GuessTime(n - 1) + LOCKOUT))
  }

  lemma PatientStep(n: nat)
    ensures var a := Attempt(GuessTime(n), false);
            Judge(AfterPatience(n), a) == Rejected && After(AfterPatience(n), a) == AfterPatience(n + 1)
  {}

  function Guesses(n: nat): seq<int> { seq(n, i requires 0 <= i < n => GuessTime(i)) }

  lemma NoPatience()
    ensures Counted(CLEAN, Patient(0)) == Guesses(0) && Run(CLEAN, Patient(0)) == AfterPatience(0)
  {}

  lemma {:induction false} PatientCounted(n: nat)
    ensures Counted(CLEAN, Patient(n)) == Guesses(n) && Run(CLEAN, Patient(n)) == AfterPatience(n)
  {
    hide Judge, After, GuessTime, AfterPatience, Counted, Run;
    if n == 0 {
      NoPatience();
    } else {
      PatientCounted(n - 1);
      PatientStep(n - 1);
      CountStep(CLEAN, Patient(n - 1), Attempt(GuessTime(n - 1), false));
      assert Guesses(n) == Guesses(n - 1) + [GuessTime(n - 1)];
    }
  }

  /** The bound is reached for every number of lockouts: there is a run with every guess counted, and they fill it. */
  lemma LockoutBoundTight(n: nat)
    requires n >= MAX_FAILED_ATTEMPTS
    ensures Timely(Patient(n)) && NoSuccess(CLEAN, Patient(n))
    ensures Counted(CLEAN, Patient(n)) == Guesses(n)
    ensures n == MAX_FAILED_ATTEMPTS + (Guesses(n)[n - 1] - Guesses(n)[0]) / LOCKOUT
  {
    hide Timely, NoSuccess, Counted, Patient;
    PatientAllowed(n);
    PatientCounted(n);
    assert GuessTime(n - 1) == (n - MAX_FAILED_ATTEMPTS) * LOCKOUT;
  }
}
