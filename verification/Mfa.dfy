/**
 Recovery codes and enrolment: codes are kept as hashes and each works once; a second factor is
 begun, activated, used and disabled on one record per user.
 */
module Mfa {
  import opened Prelude
  import Base32
  import Totp

  type UserId = nat
  type Hash = string -> string

  const CODE_COUNT: nat := 10

  // ---- recovery codes -------------------------------------------------------------------

  function Without(s: string, c: char): string {
    if s == "" then "" else Without(s[..|s| - 1], c) + if s[|s| - 1] == c then "" else [s[|s| - 1]]
  }

  function Normalize(code: string): string { Base32.Upper(Base32.Strip(Without(Without(code, '-'), ' '))) }

  function HashCode(H: Hash, code: string): string { H(Normalize(code)) }

  /** The alphabet: no 0, 1, I or O. */
  predicate Plain(c: char) { ('A' <= c <= 'Z' && c != 'I' && c != 'O') || '2' <= c <= '9' }

  /** The ten letters of a generated code, and the ten codes of a batch. */
  type Raw = s: string | |s| == 10 && forall i | 0 <= i < 10 :: Plain(s[i]) witness "AAAAAAAAAA"
  type Raws = s: seq<Raw> | |s| == CODE_COUNT witness seq(CODE_COUNT, _ => "AAAAAAAAAA")

  function OneCode(raw: Raw): string { raw[..5] + "-" + raw[5..] }

  function HashedCodes(H: Hash, raws: Raws): (r: seq<string>)
    ensures |r| == CODE_COUNT
  {
    seq(CODE_COUNT, i requires 0 <= i < CODE_COUNT => HashCode(H, OneCode(raws[i])))
  }

  /** The hashes left when the target is consumed: the last equal one goes. */
  function Consume(hashes: seq<string>, target: string): Option<seq<string>> {
    if hashes == [] then None
    else
      var n := |hashes| - 1;
      if hashes[n] == target then Some(hashes[..n])
      else match Consume(hashes[..n], target)
        case None => None
        case Some(left) => Some(left + [hashes[n]])
  }

  method VerifyAndConsume(H: Hash, code: string, hashes: seq<string>) returns (left: Option<seq<string>>)
    ensures left == Consume(hashes, HashCode(H, code))
  {
    var target := HashCode(H, code);
    var matched: Option<nat> := None;
    for i := 0 to |hashes|
      invariant matched.Some? ==> matched.value < i && hashes[matched.value] == target
      invariant forall j | 0 <= j < i && hashes[j] == target :: matched.Some? && j <= matched.value
    {
      if hashes[i] == target { matched := Some(i); }
    }
    ConsumeIs(hashes, target, matched);
    if matched == None { return None; }
    var kept: seq<string> := [];
    var m := matched.value;
    for i := 0 to |hashes|
      invariant kept == if i <= m then hashes[..i] else hashes[..m] + hashes[m + 1..i]
    {
      if i != m { kept := kept + [hashes[i]]; }
    }
    assert hashes[m + 1..|hashes|] == hashes[m + 1..];
    return Some(kept);
  }

  lemma {:induction false} ConsumeIs(hashes: seq<string>, target: string, matched: Option<nat>)
    requires matched.Some? ==> matched.value < |hashes| && hashes[matched.value] == target
    requires forall j | 0 <= j < |hashes| && hashes[j] == target :: matched.Some? && j <= matched.value
    ensures Consume(hashes, target) == if matched.None? then None
              else Some(hashes[..matched.value] + hashes[matched.value + 1..])
  {
    if hashes != [] {
      var n := |hashes| - 1;
      if hashes[n] == target {
        assert matched.value == n;
        assert hashes[..n] + hashes[n + 1..] == hashes[..n];
      } else {
        ConsumeIs(hashes[..n], target, matched);
        if matched.Some? {
          var m := matched.value;
          assert hashes[..n][..m] + hashes[..n][m + 1..] + [hashes[n]] == hashes[..m] + hashes[m + 1..];
        }
      }
    }
  }

  // ---- consuming over a run ----------------------------------------------------------------

  /** What is left and what was accepted, presenting one target after another. */
  function Presented(hashes: seq<string>, targets: seq<string>): (seq<string>, seq<string>) {
    if targets == [] then (hashes, [])
    else
      var n := |targets| - 1;
      var (left, accepted) := Presented(hashes, targets[..n]);
      match Consume(left, targets[n])
      case None => (left, accepted)
      case Some(rest) => (rest, accepted + [targets[n]])
  }

  lemma {:induction false} ConsumeTakesOne(hashes: seq<string>, target: string)
    ensures Consume(hashes, target).Some? <==> target in multiset(hashes)
    ensures Consume(hashes, target).Some? ==>
              multiset(Consume(hashes, target).value) + multiset{target} == multiset(hashes)
  {
    if hashes != [] {
      var n := |hashes| - 1;
      assert hashes == hashes[..n] + [hashes[n]];
      ConsumeTakesOne(hashes[..n], target);
    }
  }

  /** Nothing is consumed without being accepted, nothing accepted without being consumed. */
  lemma {:induction false} CodesConserved(hashes: seq<string>, targets: seq<string>)
    ensures var (left, accepted) := Presented(hashes, targets); multiset(left) + multiset(accepted) == multiset(hashes)
  {
    if targets != [] {
      var n := |targets| - 1;
      CodesConserved(hashes, targets[..n]);
      ConsumeTakesOne(Presented(hashes, targets[..n]).0, targets[n]);
    }
  }

  /** A hash is accepted as often as it is presented, up to the number of times it is stored. */
  lemma {:induction false} AcceptedTimes(hashes: seq<string>, targets: seq<string>, h: string)
    ensures multiset(Presented(hashes, targets).1)[h] == Min(multiset(targets)[h], multiset(hashes)[h])
  {
    if targets != [] {
      var n := |targets| - 1;
      AcceptedTimes(hashes, targets[..n], h);
      CodesConserved(hashes, targets[..n]);
      var (left, accepted) := Presented(hashes, targets[..n]);
      ConsumeTakesOne(left, targets[n]);
      assert targets == targets[..n] + [targets[n]];
      assert multiset(left)[h] + multiset(accepted)[h] == multiset(hashes)[h];
    }
  }

  ghost predicate Distinct(s: seq<string>) { forall i, j | 0 <= i < j < |s| :: s[i] != s[j] }

  lemma {:induction false} DistinctOnce(s: seq<string>, h: string)
    requires Distinct(s)
    ensures multiset(s)[h] <= 1
  {
    if s != [] {
      var n := |s| - 1;
      assert s == s[..n] + [s[n]];
      DistinctOnce(s[..n], h);
      if s[n] == h { assert h !in s[..n]; }
    }
  }

  /** n codes with distinct hashes: at most n successes however long the run, and each code once. */
  lemma EachCodeOnce(hashes: seq<string>, targets: seq<string>)
    ensures |Presented(hashes, targets).1| <= |hashes|
    ensures Distinct(hashes) ==> Distinct(Presented(hashes, targets).1)
  {
    var (left, accepted) := Presented(hashes, targets);
    CodesConserved(hashes, targets);
    assert |multiset(left)| + |multiset(accepted)| == |multiset(left) + multiset(accepted)| == |hashes|;
    if Distinct(hashes) {
      forall i, j | 0 <= i < j < |accepted| ensures accepted[i] != accepted[j] {
        DistinctOnce(hashes, accepted[i]);
        AcceptedTimes(hashes, targets, accepted[i]);
        assert accepted == accepted[..j] + [accepted[j]] + accepted[j + 1..];
        assert accepted[..j][i] == accepted[i];
        assert multiset(accepted)[accepted[i]] >= multiset(accepted[..j])[accepted[i]]
                 + multiset([accepted[j]])[accepted[i]];
      }
    }
  }

  // ---- normal form --------------------------------------------------------------------------

  lemma PlainIsKept(c: char)
    requires Plain(Base32.UpperChar(c))
    ensures c != '-' && c != ' ' && !Base32.Whitespace(c)
    ensures Plain(c) ==> Base32.UpperChar(c) == c
  {
  }

  /** The two differ by dashes, spaces and case only. */
  predicate Spells(typed: string, raw: string) {
    if typed == "" then raw == ""
    else
      var n, c := |typed| - 1, typed[|typed| - 1];
      if c == '-' || c == ' ' then Spells(typed[..n], raw)
      else raw != "" && Base32.UpperChar(c) == raw[|raw| - 1] && Spells(typed[..n], raw[..|raw| - 1])
  }

  lemma {:induction false} SpelledLetters(typed: string, raw: string)
    requires forall i | 0 <= i < |raw| :: Plain(raw[i])
    ensures Spells(typed, raw) <==> Base32.Upper(Without(Without(typed, '-'), ' ')) == raw
  {
    hide Plain;
    if typed != "" {
      var n, c := |typed| - 1, typed[|typed| - 1];
      var rest := Without(Without(typed[..n], '-'), ' ');
      var all := Without(Without(typed, '-'), ' ');
      if c == '-' || c == ' ' {
        SpelledLetters(typed[..n], raw);
        if c == ' ' { WithoutLast(Without(typed[..n], '-'), c, ' '); }
        else { assert Without(typed[..n], '-') + "" == Without(typed[..n], '-'); }
        assert rest + "" == rest && all == rest;
      } else {
        WithoutLast(Without(typed[..n], '-'), c, ' ');
        assert Base32.Upper(rest + [c]) == Base32.Upper(rest) + [Base32.UpperChar(c)];
        if raw != "" {
          SpelledLetters(typed[..n], raw[..|raw| - 1]);
          assert raw == raw[..|raw| - 1] + [raw[|raw| - 1]];
        }
      }
    }
  }

  lemma WithoutLast(s: string, c: char, d: char)
    ensures Without(s + [c], d) == Without(s, d) + if c == d then "" else [c]
  {
    assert (s + [c])[..|s|] == s;
  }

  /** However a generated code is typed (dashes, spaces, case), it normalizes to its letters. */
  lemma NormalizeTyped(raw: Raw, typed: string)
    requires Spells(typed, raw)
    ensures Normalize(typed) == raw
  {
    hide Plain, Base32.UpperChar, Base32.Whitespace, Without, Spells;
    SpelledLetters(typed, raw);
    var letters := Without(Without(typed, '-'), ' ');
    assert |letters| == 10;
    PlainIsKept(letters[0]) by { assert Base32.UpperChar(letters[0]) == raw[0]; }
    PlainIsKept(letters[9]) by { assert Base32.UpperChar(letters[9]) == raw[9]; }
    assert Base32.Strip(letters) == letters;
  }

  lemma {:induction false} SpellsItself(s: string)
    requires forall i | 0 <= i < |s| :: Plain(s[i])
    ensures Spells(s, s)
  {
    hide Plain;
    if s != "" {
      assert Plain(s[|s| - 1]);
      PlainIsItsUpper(s[|s| - 1]);
      SpellsItself(s[..|s| - 1]);
    }
  }

  lemma PlainIsItsUpper(c: char)
    requires Plain(c)
    ensures c != '-' && c != ' ' && Base32.UpperChar(c) == c
  {}

  lemma {:induction false} SpellsMore(a: string, b: string, typed: string)
    requires Spells(typed, a) && forall i | 0 <= i < |b| :: Plain(b[i])
    ensures Spells(typed + b, a + b)
  {
    hide Plain;
    if b == "" {
      assert typed + b == typed && a + b == a;
    } else {
      var m := |b| - 1;
      assert Plain(b[m]);
      PlainIsItsUpper(b[m]);
      SpellsMore(a, b[..m], typed);
      assert (typed + b)[..|typed| + m] == typed + b[..m] && (a + b)[..|a| + m] == a + b[..m];
    }
  }

  /** The code as shown and its ten letters normalize alike, and so hash alike. */
  lemma NormalizeShown(raw: Raw)
    ensures Normalize(OneCode(raw)) == raw && Normalize(raw) == raw
  {
    hide Plain, Normalize;
    SpellsItself(raw);
    NormalizeTyped(raw, raw);
    SpellsItself(raw[..5]);
    assert (raw[..5] + "-")[..5] == raw[..5];
    SpellsMore(raw[..5], raw[5..], raw[..5] + "-");
    assert raw[..5] + raw[5..] == raw;
    NormalizeTyped(raw, OneCode(raw));
  }

  /** So two codes of a batch have the same hash only where the hash collides. */
  lemma BatchDistinctIff(H: Hash, raws: Raws)
    ensures Distinct(HashedCodes(H, raws)) <==> forall i, j | 0 <= i < j < CODE_COUNT :: H(raws[i]) != H(raws[j])
  {
    hide Normalize, OneCode;
    forall i | 0 <= i < CODE_COUNT ensures HashedCodes(H, raws)[i] == H(raws[i]) { NormalizeShown(raws[i]); }
  }

  // ---- enrolment ------------------------------------------------------------------------------

  datatype Record = Record(secret: Option<string>, enabled: bool, codes: seq<string>)
  datatype MfaError = AlreadyEnabled | NoPending | InvalidCode | NotEnabled | Crash(error: Totp.TotpError)

  /** The functions a deployment fixes. */
  datatype Functions = Functions(H: Hash, hmac: Totp.HmacSha1)

  type Outcome = (Option<Record>, Option<MfaError>)

  predicate Present(secret: Option<string>) { secret.Some? && secret.value != "" }

  predicate Enabled(r: Option<Record>) { r.Some? && r.value.enabled }

  function Begun(r: Option<Record>, secret: string): Outcome {
    if Enabled(r) then (r, Some(AlreadyEnabled))
    else (Some(Record(Some(secret), false, if r.Some? then r.value.codes else [])), None)
  }

  function Activated(f: Functions, r: Option<Record>, code: string, at: real, raws: Raws): Outcome {
    if r.None? || !Present(r.value.secret) then (r, Some(NoPending))
    else if r.value.enabled then (r, Some(AlreadyEnabled))
    else match Totp.Verdicts(f.hmac, r.value.secret.value, code, 1, at)
      case Raised(e) => (r, Some(Crash(e)))
      case Refused => (r, Some(InvalidCode))
      case Accepted => (Some(Record(r.value.secret, true, HashedCodes(f.H, raws))), None)
  }

  function Regenerated(f: Functions, r: Option<Record>, raws: Raws): Outcome {
    if Enabled(r) then (Some(r.value.(codes := HashedCodes(f.H, raws))), None) else (r, Some(NotEnabled))
  }

  function TotpVerdict(f: Functions, r: Option<Record>, code: string, at: real): Totp.Verdict {
    if Enabled(r) && Present(r.value.secret) then Totp.Verdicts(f.hmac, r.value.secret.value, code, 1, at)
      else Totp.Refused
  }

  function RecoveryUsed(f: Functions, r: Option<Record>, code: string): Option<Record> {
    if r.None? || r.value.codes == [] then None
    else match Consume(r.value.codes, HashCode(f.H, code))
      case None => None
      case Some(left) => Some(r.value.(codes := left))
  }

  function Disabled(f: Functions, r: Option<Record>, code: string, at: real): Outcome {
    if !Enabled(r) then (r, Some(NotEnabled))
    else match TotpVerdict(f, r, code, at)
      case Raised(e) => (r, Some(Crash(e)))
      case Accepted => (Some(Record(None, false, [])), None)
      case Refused => if RecoveryUsed(f, r, code).Some? then (Some(Record(None, false, [])), None)
        else (r, Some(InvalidCode))
  }

  class MfaService {
    const f: Functions
    var records: map<UserId, Record>

    constructor (f: Functions)
      ensures this.f == f && records == map[]
    {
      this.f := f;
      records := map[];
    }

    function Get(user: UserId): Option<Record>
      reads this
    {
      if user in records then Some(records[user]) else None
    }

    /** One user's record is replaced, everybody else's stays. */
    twostate predicate OnlyUser(user: UserId, r: Option<Record>)
      reads this
    {
      && Get(user) == r
      && records.Keys == old(records.Keys) + (if r.Some? then {user} else {})
      && forall u | u in records && u != user :: records[u] == old(records)[u]
    }

    method BeginTotpEnroll(user: UserId, raw: Totp.Bytes) returns (error: Option<MfaError>, secret: string)
      modifies this
      ensures secret == Base32.Encode(raw) && OnlyUser(user, Begun(old(Get(user)), secret).0)
      ensures error == Begun(old(Get(user)), secret).1
    {
      secret := Base32.Encode(raw);
      var record := if user in records then records[user] else Record(None, false, []);
      if record.enabled { return Some(AlreadyEnabled), secret; }
      records := records[user := record.(secret := Some(secret))];
      return None, secret;
    }

    method ActivateTotp(user: UserId, code: string, at: real, raws: Raws) returns (error: Option<MfaError>)
      modifies this
      ensures var (r, e) := Activated(f, old(Get(user)), code, at, raws); OnlyUser(user, r) && error == e
    {
      if user !in records || !Present(records[user].secret) { return Some(NoPending); }
      var record := records[user];
      if record.enabled { return Some(AlreadyEnabled); }
      var verdict := Totp.Verify(f.hmac, record.secret.value, code, 1, at);
      match verdict {
        case Raised(e) => return Some(Crash(e));
        case Refused => return Some(InvalidCode);
        case Accepted =>
          records := records[user := Record(record.secret, true, HashedCodes(f.H, raws))];
          return None;
      }
    }

    method RegenerateRecoveryCodes(user: UserId, raws: Raws) returns (error: Option<MfaError>)
      modifies this
      ensures var (r, e) := Regenerated(f, old(Get(user)), raws); OnlyUser(user, r) && error == e
    {
      if user !in records || !records[user].enabled { return Some(NotEnabled); }
      records := records[user := records[user].(codes := HashedCodes(f.H, raws))];
      return None;
    }

    method VerifyTotp(user: UserId, code: string, at: real) returns (verdict: Totp.Verdict)
      ensures verdict == TotpVerdict(f, Get(user), code, at)
    {
      if user !in records || !records[user].enabled || !Present(records[user].secret) { return Totp.Refused; }
      verdict := Totp.Verify(f.hmac, records[user].secret.value, code, 1, at);
    }

    method VerifyRecovery(user: UserId, code: string) returns (ok: bool)
      modifies this
      ensures var r := RecoveryUsed(f, old(Get(user)), code);
              ok == r.Some?
                && OnlyUser(user, if ok then r else old(Get(user)))
    {
      if user !in records || records[user].codes == [] { return false; }
      var left := VerifyAndConsume(f.H, code, records[user].codes);
      if left == None { return false; }
      records := records[user := records[user].(codes := left.value)];
      return true;
    }

    method Disable(user: UserId, code: string, at: real) returns (error: Option<MfaError>)
      modifies this
      ensures var (r, e) := Disabled(f, old(Get(user)), code, at); OnlyUser(user, r) && error == e
      ensures error == None ==> user in records && records[user] == Record(None, false, [])
    {
      if user !in records || !records[user].enabled { return Some(NotEnabled); }
      var verdict := VerifyTotp(user, code, at);
      if verdict.Raised? { return Some(Crash(verdict.error)); }
      var ok := verdict == Totp.Accepted;
      if !ok { ok := VerifyRecovery(user, code); }
      if !ok { return Some(InvalidCode); }
      records := records[user := Record(None, false, [])];
      return None;
    }
  }

  // ---- runs of one user's record ----------------------------------------------------------------

  datatype Step =
    | Begin(raw: Totp.Bytes)
    | Activate(code: string, at: real, raws: Raws)
    | Regenerate(batch: Raws)
    | Recover(recovery: string)
    | TurnOff(proof: string, time: real)

  /** The record, with the hashes last generated and those accepted since. */
  datatype State = State(record: Option<Record>, generated: seq<string>, used: seq<string>)

  function Next(f: Functions, s: State, step: Step): State {
    match step
    case Begin(raw) => s.(record := Begun(s.record, Base32.Encode(raw)).0)
    case Activate(code, at, raws) =>
      var (r, e) := Activated(f, s.record, code, at, raws);
      if e == None then State(r, HashedCodes(f.H, raws), []) else s
    case Regenerate(raws) =>
      var (r, e) := Regenerated(f, s.record, raws);
      if e == None then State(r, HashedCodes(f.H, raws), []) else s
    case Recover(code) =>
      var r := RecoveryUsed(f, s.record, code);
      if r.Some? then State(r, s.generated, s.used + [HashCode(f.H, code)]) else s
    case TurnOff(code, at) =>
      var (r, e) := Disabled(f, s.record, code, at);
      if e == None then State(r, [], []) else s
  }

  function Run(f: Functions, steps: seq<Step>): State {
    if steps == [] then State(None, [], []) else Next(f, Run(f, steps[..|steps| - 1]), steps[|steps| - 1])
  }

  /**
   An enabled record has a secret; codes exist only on enabled records; every generated code is left or used, never
   both.
   */
  ghost predicate Inv(s: State) {
    && (Enabled(s.record) ==> s.record.value.secret.Some? && |s.generated| == CODE_COUNT)
    && (!Enabled(s.record) ==> s.generated == s.used == [])
    && multiset(if s.record.Some? then s.record.value.codes else []) + multiset(s.used) == multiset(s.generated)
  }

  lemma NextKeepsInv(f: Functions, s: State, step: Step)
    requires Inv(s)
    ensures Inv(Next(f, s, step))
  {
    hide Totp.Verdicts, HashedCodes, Consume, Base32.Encode, HashCode, TotpVerdict, RecoveryUsed;
    match step
    case Begin(raw) =>
    case Activate(code, at, raws) =>
    case Regenerate(raws) =>
    case Recover(code) => hide Inv; RecoverKeepsInv(f, s, code);
    case TurnOff(code, at) =>
  }

  lemma RecoverKeepsInv(f: Functions, s: State, code: string)
    requires Inv(s)
    ensures Inv(Next(f, s, Recover(code)))
  {
    hide Consume, HashCode;
    if s.record.Some? {
      NoneLeft(s);
      ConsumeTakesOne(s.record.value.codes, HashCode(f.H, code));
    }
  }

  lemma NoneLeft(s: State)
    requires Inv(s) && s.record.Some?
    ensures s.record.value.codes != [] ==> Enabled(s.record)
  {
    if !Enabled(s.record) { assert |multiset(s.record.value.codes)| == 0; }
  }

  lemma {:induction false} RunsKeepInv(f: Functions, steps: seq<Step>)
    ensures Inv(Run(f, steps))
  {
    if steps != [] {
      RunsKeepInv(f, steps[..|steps| - 1]);
      NextKeepsInv(f, Run(f, steps[..|steps| - 1]), steps[|steps| - 1]);
    }
  }

  /** In every run, at most ten codes are accepted between two generations, each once if their hashes differ. */
  lemma UsedAtMostOnce(f: Functions, steps: seq<Step>)
    ensures var s := Run(f, steps); |s.used| <= CODE_COUNT && (Distinct(s.generated) ==> Distinct(s.used))
  {
    RunsKeepInv(f, steps);
    var s := Run(f, steps);
    var left := if s.record.Some? then s.record.value.codes else [];
    assert |multiset(left)| + |multiset(s.used)| == |multiset(left) + multiset(s.used)| == |s.generated|;
    if Distinct(s.generated) {
      forall i, j | 0 <= i < j < |s.used| ensures s.used[i] != s.used[j] {
        DistinctOnce(s.generated, s.used[i]);
        if s.used[i] == s.used[j] { Twice(s.used, i, j); }
      }
    }
  }

  lemma Twice(s: seq<string>, i: nat, j: nat)
    requires i < j < |s| && s[i] == s[j]
    ensures multiset(s)[s[i]] >= 2
  {
    assert s == s[..j] + [s[j]] + s[j + 1..];
    assert s[..j][i] == s[i];
  }

  /**
   In every run a recovery code is accepted only from an enabled record, exactly when it is a generated code not used
   up.
   */
  lemma RecoveryAcceptedIff(f: Functions, steps: seq<Step>, code: string)
    ensures var s := Run(f, steps); var h := HashCode(f.H, code);
            RecoveryUsed(f, s.record, code).Some? <==> multiset(s.used)[h] < multiset(s.generated)[h]
    ensures RecoveryUsed(f, Run(f, steps).record, code).Some? ==> Enabled(Run(f, steps).record)
  {
    hide Run, HashCode, Consume;
    RunsKeepInv(f, steps);
    var s, h := Run(f, steps), HashCode(f.H, code);
    if s.record.Some? {
      NoneLeft(s);
      ConsumeTakesOne(s.record.value.codes, h);
      assert multiset(s.record.value.codes)[h] + multiset(s.used)[h] == multiset(s.generated)[h];
    } else {
      assert multiset(s.used)[h] == multiset(s.generated)[h];
    }
  }

  /**
   An enabled second factor ends, or changes its secret, only by disabling with a current code or an unused recovery
   code.
   */
  lemma OnlyProofDisables(f: Functions, s: State, step: Step)
    requires Inv(s) && Enabled(s.record)
    ensures var t := Next(f, s, step);
            (!Enabled(t.record) || t.record.value.secret != s.record.value.secret) <==>
            && step.TurnOff?
            && (|| TotpVerdict(f, s.record, step.proof, step.time) == Totp.Accepted
                || (&& TotpVerdict(f, s.record, step.proof, step.time) == Totp.Refused
                    && HashCode(f.H, step.proof) in s.record.value.codes))
  {
    hide Totp.Verdicts, HashedCodes, Consume, HashCode;
    match step
    case TurnOff(code, at) => ConsumeTakesOne(s.record.value.codes, HashCode(f.H, code));
    case _ =>
  }

  /**
   Begin, then activate with a code the authenticator made within 30 seconds: the second factor is on, with ten
   codes.
   */
  lemma EnrolmentActivates(f: Functions, s: State, raw: Totp.Bytes, made: real, at: real, raws: Raws)
    requires !Enabled(s.record) && raw != [] && Totp.InRange(at, 1) && -Totp.PERIOD <= made - at <= Totp.PERIOD
    ensures exists code :: Totp.NowCode(f.hmac, Base32.Encode(raw), made) == Ok(code)
              && var t := Next(f, Next(f, s, Begin(raw)), Activate(code, at, raws));
                 && t.record == Some(Record(Some(Base32.Encode(raw)), true, HashedCodes(f.H, raws)))
                 && t.generated == HashedCodes(f.H, raws) && t.used == []
  {
    hide Totp.Verdicts, Totp.NowCode, Totp.InRange, HashedCodes, Base32.Decode, Base32.DecodeQuanta;
    var secret := Base32.Encode(raw);
    Base32.DecodeStored(raw);
    Totp.SkewAccepted(f.hmac, secret, made, at);
    var code :| Totp.NowCode(f.hmac, secret, made) == Ok(code)
      && Totp.Verdicts(f.hmac, secret, code, 1, at) == Totp.Accepted;
    assert secret != "" by { NotEmpty(raw); }
    assert Next(f, Next(f, s, Begin(raw)), Activate(code, at, raws)).record
             == Some(Record(Some(secret), true, HashedCodes(f.H, raws)));
  }

  lemma NotEmpty(raw: Totp.Bytes)
    requires raw != []
    ensures Base32.Encode(raw) != ""
  {
    Base32.DecodeQuantaEncode(raw);
    Base32.EmptyDecodes();
  }

  // ---- what a code has to be ------------------------------------------------------------------

  /** The code of one of the three periods around the time, under the record's secret. */
  ghost predicate Current(f: Functions, secret: string, code: string, at: real) {
    exists c :: Totp.Counter(at) - 1 <= c <= Totp.Counter(at) + 1 && Totp.Hotp(f.hmac, secret, c) == Ok(code)
  }

  /** A code verifies exactly for an enabled record with a secret, and if it is current. */
  lemma TotpAcceptedIff(f: Functions, r: Option<Record>, code: string, at: real)
    requires Totp.InRange(at, 1) && (r.Some? && Present(r.value.secret) ==> Base32.Decode(r.value.secret.value).Some?)
    ensures TotpVerdict(f, r, code, at) == Totp.Accepted <==>
            && r.Some? && r.value.enabled && r.value.secret.Some? && r.value.secret.value != ""
            && Current(f, r.value.secret.value, code, at)
  {
    hide Totp.Verdicts, Totp.InRange, Totp.Hotp, Base32.Decode, Totp.Counter;
    if Enabled(r) && Present(r.value.secret) { Totp.AcceptedIff(f.hmac, r.value.secret.value, code, 1, at); }
  }

  /** A pending secret is activated exactly by a code that is current; otherwise the record stays. */
  lemma ActivatedIff(f: Functions, r: Option<Record>, code: string, at: real, raws: Raws)
    requires Totp.InRange(at, 1) && (r.Some? && Present(r.value.secret) ==> Base32.Decode(r.value.secret.value).Some?)
    ensures var (after, error) := Activated(f, r, code, at, raws);
      && (error == None <==>
            && r.Some? && r.value.secret.Some? && r.value.secret.value != "" && !r.value.enabled
            && Current(f, r.value.secret.value, code, at))
      && (error == None ==> after == Some(Record(r.value.secret, true, HashedCodes(f.H, raws))))
      && (error != None ==> after == r)
  {
    hide Totp.Verdicts, Totp.InRange, Totp.Hotp, Base32.Decode, Totp.Counter, HashedCodes;
    if r.Some? && Present(r.value.secret) { Totp.AcceptedIff(f.hmac, r.value.secret.value, code, 1, at); }
  }

  /** Enrolment is begun, or begun anew, exactly while not enabled. */
  lemma BegunIff(r: Option<Record>, secret: string)
    ensures var (after, error) := Begun(r, secret);
      && (error == None <==> r == None || !r.value.enabled)
      && (error == None ==> after.Some? && after.value.secret == Some(secret) && !after.value.enabled)
      && (error != None ==> after == r)
  {}
}
