/**
 Time-based one-time passwords: the truncation of section 5.3 of RFC 4226 over a counter of
 30-second periods, and verification with a window of drift (section 5.2 of RFC 6238).
 HMAC-SHA1 is any function with 20-byte results.
 */
module Totp {
  import opened Prelude
  import opened Utf8
  import CanonicalJson
  import Base32

  type Bytes = seq<byte>
  type Digest = d: Bytes | |d| == 20 witness seq(20, _ => 0)
  type HmacSha1 = (Bytes, Bytes) -> Digest

  const PERIOD: real := 30.0
  const DIGITS: nat := 6
  const COUNTERS: nat := 0x1_0000_0000_0000_0000

  /** The two errors raised: base32 that does not decode, a counter that is not an unsigned 64-bit number. */
  datatype TotpError = BadSecret | BadCounter
  datatype Verdict = Accepted | Refused | Raised(error: TotpError)

  // ---- codes ------------------------------------------------------------------------------

  function Truncate(d: Digest): nat {
    var offset := d[19] % 16;
    Base32.Number(d[offset..offset + 4], 256) % 0x8000_0000
  }

  function ZFill(s: string, width: nat): string
    decreases width - |s|
  {
    if |s| < width then ZFill("0" + s, width) else s
  }

  predicate IsDigits(s: string) { s != "" && forall i | 0 <= i < |s| :: CanonicalJson.IsDigit(s[i]) }

  function Code(d: Digest): string { ZFill(CanonicalJson.Digits(Truncate(d) % 1_000_000), DIGITS) }

  function Message(counter: nat): Bytes
    requires counter < COUNTERS
  {
    Base32.AsBytes(Base32.Digits(counter, 256, 8))
  }

  function Hotp(hmac: HmacSha1, secret: string, counter: int): Result<string, TotpError> {
    match Base32.Decode(secret)
    case None => Err(BadSecret)
    case Some(key) => if 0 <= counter < COUNTERS then Ok(Code(hmac(key, Message(counter)))) else Err(BadCounter)
  }

  function Counter(at: real): int { (at / PERIOD).Floor }

  function NowCode(hmac: HmacSha1, secret: string, at: real): Result<string, TotpError> {
    Hotp(hmac, secret, Counter(at))
  }

  // ---- verification -----------------------------------------------------------------------

  /** What the loop finds from one counter to another. */
  function Search(hmac: HmacSha1, secret: string, code: string, lo: int, hi: int): Verdict
    decreases hi - lo
  {
    if lo >= hi then Refused
    else match Hotp(hmac, secret, lo)
      case Err(e) => Raised(e)
      case Ok(candidate) => if candidate == code then Accepted else Search(hmac, secret, code, lo + 1, hi)
  }

  function Verdicts(hmac: HmacSha1, secret: string, code: string, window: nat, at: real): Verdict {
    if IsDigits(code) then Search(hmac, secret, code, Counter(at) - window, Counter(at) + window + 1) else Refused
  }

  method Verify(hmac: HmacSha1, secret: string, code: string, window: nat, at: real) returns (r: Verdict)
    ensures r == Verdicts(hmac, secret, code, window, at)
  {
    hide Hotp;
    if !IsDigits(code) { return Refused; }
    var counter := Counter(at);
    var w: int := window;
    for drift := -w to w + 1
      invariant Search(hmac, secret, code, counter - window, counter + window + 1)
                  == Search(hmac, secret, code, counter + drift, counter + window + 1)
    {
      var candidate := Hotp(hmac, secret, counter + drift);
      if candidate.Err? { return Raised(candidate.error); }
      if candidate.value == code { return Accepted; }
    }
    return Refused;
  }

  // ---- truncation ---------------------------------------------------------------------------

  function Quad(a: nat, b: nat, c: nat, d: nat): nat { a * 0x100_0000 + b * 0x1_0000 + c * 0x100 + d }

  /**
   The four bytes lie inside the digest, and masking the number is masking its first byte: the form of the standard.
   */
  lemma TruncationInBounds(d: Digest)
    ensures var o := d[19] % 16; o + 4 <= 19
    ensures var o := d[19] % 16;
            Truncate(d) == Quad(d[o] % 128, d[o + 1], d[o + 2], d[o + 3])
  {
    hide Base32.Number;
    var o := d[19] % 16;
    NumberOfFour(d[o..o + 4]);
    MaskTop(d[o], d[o + 1], d[o + 2], d[o + 3]);
  }

  lemma MaskTop(a: nat, b: nat, c: nat, d: nat)
    requires a < 256 && b < 256 && c < 256 && d < 256
    ensures Quad(a, b, c, d) % 0x8000_0000 == Quad(a % 128, b, c, d)
  {
    assert Quad(a, b, c, d) == (a / 128) * 0x8000_0000 + Quad(a % 128, b, c, d);
    assert Quad(a % 128, b, c, d) < 0x8000_0000;
  }

  lemma NumberOfFour(b: Bytes)
    requires |b| == 4
    ensures Base32.Number(b, 256) == Quad(b[0], b[1], b[2], b[3])
  {
    assert b[..3][..2] == b[..2] && b[..2][..1] == b[..1] && b[..1][..0] == [];
    assert Base32.Number(b[..1], 256) == b[0];
    assert Base32.Number(b[..2], 256) == Quad(0, 0, b[0], b[1]);
    assert Base32.Number(b[..3], 256) == Quad(0, b[0], b[1], b[2]);
  }

  /** The number a decimal string stands for. */
  function Decimal(s: string): nat
    requires IsDigits(s)
  {
    CanonicalJson.DigitsValue(s)
  }

  lemma {:induction false} DigitsFit(n: nat, width: nat)
    requires 0 < width && n < Base32.Pow(10, width)
    ensures |CanonicalJson.Digits(n)| <= width
  {
    if n >= 10 {
      assert Base32.Pow(10, 1) == Base32.Pow(10, 0) * 10;
      DigitsFit(n / 10, width - 1);
    }
  }

  lemma {:induction false} LeadingZero(s: string)
    requires IsDigits(s)
    ensures IsDigits("0" + s) && Decimal("0" + s) == Decimal(s)
  {
    var z := "0" + s;
    var init := s[..|s| - 1];
    assert CanonicalJson.IsDigit('0');
    assert z[..|z| - 1] == "0" + init;
    if init == "" {
      assert z[..1] == "0" && "0"[..0] == "";
      assert CanonicalJson.DigitsValue("0") == 0;
    } else {
      LeadingZero(init);
    }
  }

  lemma {:induction false} ZFillIs(s: string, width: nat)
    requires IsDigits(s) && |s| <= width
    ensures var z := ZFill(s, width); IsDigits(z) && |z| == width && Decimal(z) == Decimal(s)
    decreases width - |s|
  {
    if |s| < width {
      LeadingZero(s);
      ZFillIs("0" + s, width);
    }
  }

  /** A code is exactly six digits, and they are the truncated digest modulo a million. */
  lemma SixDigits(d: Digest)
    ensures var c := Code(d); |c| == DIGITS && IsDigits(c) && Decimal(c) == Truncate(d) % 1_000_000
  {
    hide Truncate, CanonicalJson.Digits, CanonicalJson.DigitsValue, ZFill;
    assert Base32.Pow(10, 6) == 1_000_000;
    var n := Truncate(d) % 1_000_000;
    CanonicalJson.DigitsAreCanonical(n);
    DigitsFit(n, DIGITS);
    ZFillIs(CanonicalJson.Digits(n), DIGITS);
  }

  /** Different counters hash different messages. */
  lemma MessagesDiffer(c: nat, d: nat)
    requires c < COUNTERS && d < COUNTERS && Message(c) == Message(d)
    ensures c == d
  {
    hide Base32.Digits;
    assert Base32.Pow(256, 8) == COUNTERS;
    Base32.NumberOfDigits(c, 256, 8);
    Base32.NumberOfDigits(d, 256, 8);
    var x, y := Base32.Digits(c, 256, 8), Base32.Digits(d, 256, 8);
    forall i | 0 <= i < 8 ensures x[i] == y[i] { assert Message(c)[i] == x[i] && Message(d)[i] == y[i]; }
    assert x == y;
  }

  // ---- the window -----------------------------------------------------------------------------

  lemma HotpOkIff(hmac: HmacSha1, secret: string, counter: int)
    ensures Hotp(hmac, secret, counter).Ok? <==> Base32.Decode(secret).Some? && 0 <= counter < COUNTERS
  {
    hide Base32.Decode, Code, Message;
  }

  ghost predicate Reaches(hmac: HmacSha1, secret: string, code: string, lo: int, hi: int) {
    exists c :: lo <= c < hi && Hotp(hmac, secret, c) == Ok(code)
  }

  lemma {:induction false} SearchIs(hmac: HmacSha1, secret: string, code: string, lo: int, hi: int)
    requires forall c | lo <= c < hi :: Hotp(hmac, secret, c).Ok?
    ensures Search(hmac, secret, code, lo, hi) == (if Reaches(hmac, secret, code, lo, hi) then Accepted else Refused)
    decreases hi - lo
  {
    hide Hotp;
    if lo < hi {
      assert Hotp(hmac, secret, lo).Ok?;
      SearchIs(hmac, secret, code, lo + 1, hi);
    }
  }

  /** Times at which no counter of the window leaves the unsigned 64-bit range. */
  predicate InRange(at: real, window: nat) { window <= Counter(at) && Counter(at) + window < COUNTERS }

  /** Inside the range a digit string is accepted exactly when it is the code of a counter of the window. */
  lemma AcceptedIff(hmac: HmacSha1, secret: string, code: string, window: nat, at: real)
    requires Base32.Decode(secret).Some? && InRange(at, window)
    ensures var v := Verdicts(hmac, secret, code, window, at);
            && (v == Accepted
              <==> exists c :: Counter(at) - window <= c <= Counter(at) + window && Hotp(hmac, secret, c) == Ok(code))
            && !v.Raised?
  {
    hide Hotp, Base32.Decode, Counter;
    if IsDigits(code) {
      var lo, hi := Counter(at) - window, Counter(at) + window + 1;
      forall c | lo <= c < hi ensures Hotp(hmac, secret, c).Ok? { HotpOkIff(hmac, secret, c); }
      SearchIs(hmac, secret, code, lo, hi);
    } else if c :| Counter(at) - window <= c <= Counter(at) + window && Hotp(hmac, secret, c) == Ok(code) {
      HotpIsDigits(hmac, secret, c);
    }
  }

  lemma HotpIsDigits(hmac: HmacSha1, secret: string, counter: int)
    ensures Hotp(hmac, secret, counter).Ok? ==>
              IsDigits(Hotp(hmac, secret, counter).value) && |Hotp(hmac, secret, counter).value| == DIGITS
  {
    hide Code, Message, IsDigits, Base32.Decode;
    match Base32.Decode(secret)
    case None =>
    case Some(key) => if 0 <= counter < COUNTERS { SixDigits(hmac(key, Message(counter))); }
  }

  lemma CountersNear(t: real, u: real)
    ensures -PERIOD <= t - u <= PERIOD ==> -1 <= Counter(t) - Counter(u) <= 1
    ensures t - u >= 2.0 * PERIOD ==> Counter(t) - Counter(u) >= 2
  {
    assert t / PERIOD - u / PERIOD == (t - u) / PERIOD;
  }

  /** A code is accepted up to 30 seconds before or after it was made. */
  lemma SkewAccepted(hmac: HmacSha1, secret: string, made: real, at: real)
    requires Base32.Decode(secret).Some? && InRange(at, 1) && -PERIOD <= made - at <= PERIOD
    ensures exists code :: NowCode(hmac, secret, made) == Ok(code) && Verdicts(hmac, secret, code, 1, at) == Accepted
  {
    hide Base32.Decode, Code, Message, Counter;
    CountersNear(made, at);
    var code := NowCode(hmac, secret, made).value;
    AcceptedIff(hmac, secret, code, 1, at);
  }

  /** From 60 seconds on it is accepted only if the code of another counter happens to be the same. */
  lemma SkewRefused(hmac: HmacSha1, secret: string, made: real, at: real)
    requires Base32.Decode(secret).Some? && InRange(at, 1) && NowCode(hmac, secret, made).Ok?
    requires (made - at >= 2.0 * PERIOD || at - made >= 2.0 * PERIOD)
    ensures Verdicts(hmac, secret, NowCode(hmac, secret, made).value, 1, at) == Accepted
            <==> exists c ::
              c != Counter(made) && Counter(at) - 1 <= c <= Counter(at) + 1
                && Hotp(hmac, secret, c) == NowCode(hmac, secret, made)
  {
    hide Base32.Decode, Hotp, Counter;
    CountersNear(made, at);
    CountersNear(at, made);
    AcceptedIff(hmac, secret, NowCode(hmac, secret, made).value, 1, at);
  }

  /** In the first 30 seconds of the epoch, and before it, checking any digits raises; from then on it does not. */
  lemma RaisesIffEarly(hmac: HmacSha1, secret: string, code: string, at: real)
    requires Base32.Decode(secret).Some? && IsDigits(code) && Counter(at) + 1 < COUNTERS
    ensures Verdicts(hmac, secret, code, 1, at).Raised? <==> at < PERIOD
  {
    hide Base32.Decode, Code, Message;
    assert at < PERIOD <==> Counter(at) < 1;
    if at >= PERIOD {
      AcceptedIff(hmac, secret, code, 1, at);
    } else {
      assert Hotp(hmac, secret, Counter(at) - 1) == Err(BadCounter);
    }
  }

  /** A generated secret works however it is typed back: same codes, same verdicts. */
  lemma TypedSecretSameCodes(hmac: HmacSha1, raw: Bytes, typed: string, counter: int)
    requires Base32.Letters(typed) == Base32.Encode(raw)
    ensures Hotp(hmac, typed, counter) == Hotp(hmac, Base32.Encode(raw), counter)
    ensures Hotp(hmac, typed, counter).Ok? <==> 0 <= counter < COUNTERS
  {
    hide Base32.Decode, Base32.Encode, Base32.Letters, Code, Message;
    Base32.DecodeEncode(raw, typed);
    Base32.DecodeStored(raw);
  }

  // ---- what a code stands for ------------------------------------------------------------------

  /** The digest of a counter: HMAC under the secret's bytes of the counter as eight bytes. */
  ghost predicate DigestOf(hmac: HmacSha1, raw: Bytes, counter: nat, d: Digest) {
    exists m: Bytes :: |m| == 8 && Base32.Number(m, 256) == counter && d == hmac(raw, m)
  }

  /** The code of a counter is the six-digit form of the truncated digest of that counter under that secret. */
  lemma CodeMeans(hmac: HmacSha1, raw: Bytes, counter: nat)
    requires counter < COUNTERS
    ensures Hotp(hmac, Base32.Encode(raw), counter).Ok?
    ensures exists d: Digest :: DigestOf(hmac, raw, counter, d)
              && var code := Hotp(hmac, Base32.Encode(raw), counter).value;
                 var o := d[19] % 16;
                 && |code| == 6 && IsDigits(code)
                 && Decimal(code) == Quad(d[o] % 128, d[o + 1], d[o + 2], d[o + 3]) % 1_000_000
  {
    hide Base32.Encode, Base32.Decode, Code, Truncate, Base32.Digits, Base32.Number, Quad, IsDigits, Decimal;
    Base32.DecodeStored(raw);
    assert Base32.Pow(256, 8) == COUNTERS;
    Base32.NumberOfDigits(counter, 256, 8);
    var m := Message(counter);
    assert m == Base32.Digits(counter, 256, 8);
    var d := hmac(raw, m);
    assert DigestOf(hmac, raw, counter, d);
    SixDigits(d);
    TruncationInBounds(d);
  }
}
