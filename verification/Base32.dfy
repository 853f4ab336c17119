/** Numerals in a base, and the unpadded base32 of section 6 of RFC 4648 with the lenient reader of shared secrets. */
module Base32 {
  import opened Prelude
  import opened Utf8

  type Bytes = seq<byte>

  // ---- numerals, most significant digit first ---------------------------------------------

  function Pow(base: nat, k: nat): nat { if k == 0 then 1 else Pow(base, k - 1) * base }

  /** Floor division, with the remainder it leaves. */
  function Quot(n: nat, base: nat): (q: nat)
    requires base > 0
    ensures n == q * base + Rem(n, base)
  {
    n / base
  }

  function Rem(n: nat, base: nat): (r: nat)
    requires base > 0
    ensures r < base
  {
    n % base
  }

  /** A number with k zero digits behind it. */
  function Scaled(n: nat, base: nat, k: nat): nat { n * Pow(base, k) }

  function Digits(n: nat, base: nat, k: nat): (r: seq<nat>)
    requires base > 0
    ensures |r| == k && forall i | 0 <= i < k :: r[i] < base
    decreases k
  {
    if k == 0 then [] else Digits(Quot(n, base), base, k - 1) + [Rem(n, base)]
  }

  function Number(d: seq<nat>, base: nat): nat {
    if d == [] then 0 else Number(d[..|d| - 1], base) * base + d[|d| - 1]
  }

  lemma {:induction false} NumberOfDigits(n: nat, base: nat, k: nat)
    requires base > 0 && n < Pow(base, k)
    ensures Number(Digits(n, base, k), base) == n
    decreases k
  {
    hide Quot, Rem;
    if k > 0 {
      QuotientBelow(n, base, Pow(base, k - 1));
      NumberOfDigits(Quot(n, base), base, k - 1);
      var d := Digits(n, base, k);
      assert d[..k - 1] == Digits(Quot(n, base), base, k - 1);
    }
  }

  lemma QuotientBelow(n: nat, base: nat, p: nat)
    requires base > 0 && n < p * base
    ensures Quot(n, base) < p
  {
    hide Quot, Rem;
    var q := Quot(n, base);
    if q >= p { Monotone(base, p, q); }
  }

  lemma Monotone(base: nat, a: nat, b: nat)
    requires a <= b
    ensures a * base <= b * base
  {
  }

  lemma {:induction false} DigitsOfNumber(d: seq<nat>, base: nat)
    requires base > 0 && forall i | 0 <= i < |d| :: d[i] < base
    ensures Digits(Number(d, base), base, |d|) == d && Number(d, base) < Pow(base, |d|)
  {
    hide Quot, Rem;
    if d != [] {
      var init, last := d[..|d| - 1], d[|d| - 1];
      DigitsOfNumber(init, base);
      var m := Number(init, base);
      SplitOff(m, base, last, m * base + last);
      Monotone(base, m + 1, Pow(base, |d| - 1));
    }
  }

  /** Quotient and remainder are unique. */
  lemma SplitOff(m: nat, base: nat, r: nat, n: nat)
    requires base > 0 && r < base && n == m * base + r
    ensures Quot(n, base) == m && Rem(n, base) == r && n < (m + 1) * base
  {
    hide Quot, Rem;
    var q, s := Quot(n, base), Rem(n, base);
    Distributes(base, m, 1);
    if q > m { Monotone(base, m + 1, q); }
    if q < m { Monotone(base, q + 1, m); Distributes(base, q, 1); }
  }

  lemma Distributes(base: nat, a: nat, b: nat)
    ensures (a + b) * base == a * base + b * base
  {
  }

  /** The first digits of a number are those of what is left after dividing the others away. */
  lemma {:induction false} LeadingDigits(m: nat, base: nat, c: nat, k: nat)
    requires base > 0 && c <= k
    ensures Digits(Scaled(m, base, k - c), base, k)[..c] == Digits(m, base, c)
    decreases k
  {
    hide Quot, Rem;
    if c < k {
      var p := Pow(base, k - c - 1);
      var n := Scaled(m, base, k - c);
      Associates(m, p, base);
      SplitOff(m * p, base, 0, n);
      LeadingDigits(m, base, c, k - 1);
      assert Digits(n, base, k)[..c] == Digits(Scaled(m, base, k - c - 1), base, k - 1)[..c];
    }
  }

  lemma Associates(n: nat, f: nat, q: nat)
    ensures n * (f * q) == (n * f) * q
  {
  }

  // ---- base32 -----------------------------------------------------------------------------

  function Glyph(v: nat): char
    requires v < 32
  {
    if v < 26 then 'A' + v as char else '2' + (v - 26) as char
  }

  function Value(c: char): (r: Option<nat>)
    ensures r.Some? ==> r.value < 32
  {
    if 'A' <= c <= 'Z' then Some((c - 'A') as nat)
    else if '2' <= c <= '7' then Some((c - '2') as nat + 26)
    else None
  }

  function Glyphs(d: seq<nat>): (r: string)
    requires forall i | 0 <= i < |d| :: d[i] < 32
    ensures |r| == |d|
  {
    seq(|d|, i requires 0 <= i < |d| => Glyph(d[i]))
  }

  predicate AllGlyphs(s: string) { forall i | 0 <= i < |s| :: Value(s[i]).Some? }

  function Values(s: string): (r: seq<nat>)
    requires AllGlyphs(s)
    ensures |r| == |s| && forall i | 0 <= i < |r| :: r[i] < 32
  {
    seq(|s|, i requires 0 <= i < |s| => Value(s[i]).value)
  }

  lemma ValuesOfGlyphs(d: seq<nat>)
    requires forall i | 0 <= i < |d| :: d[i] < 32
    ensures AllGlyphs(Glyphs(d)) && Values(Glyphs(d)) == d
  {
  }

  /** Base32 without its trailing "=" signs. */
  function Encode(b: Bytes): string {
    if b == [] then ""
    else if |b| < 5 then Glyphs(Digits(Scaled(Number(b, 256), 256, 5 - |b|), 32, 8))[..CeilDiv(8 * |b|, 5)]
    else Glyphs(Digits(Number(b[..5], 256), 32, 8)) + Encode(b[5..])
  }

  function AsBytes(d: seq<nat>): Bytes
    requires forall i | 0 <= i < |d| :: d[i] < 256
  {
    seq(|d|, i requires 0 <= i < |d| => d[i] as byte)
  }

  /** The quanta of eight characters; the last may be cut. */
  function DecodeQuanta(s: string): Option<Bytes> {
    if s == "" then Some([])
    else if |s| < 8 then
      var cut := 8 - |s|;
      if AllGlyphs(s) && cut in {1, 3, 4, 6}
      then Some(AsBytes(Digits(Scaled(Number(Values(s), 32), 32, cut), 256, 5))[..(43 - 5 * cut) / 8])
      else None
    else if AllGlyphs(s[..8]) && DecodeQuanta(s[8..]).Some? then
      Some(AsBytes(Digits(Number(Values(s[..8]), 32), 256, 5)) + DecodeQuanta(s[8..]).value)
    else None
  }

  predicate Whitespace(c: char) {
    c in {' ', '\t', '\n', '\r'} || c == 11 as char || c == 12 as char || 28 as char <= c <= 31 as char
  }

  function Strip(s: string): string {
    if s == "" then ""
    else if Whitespace(s[0]) then Strip(s[1..])
    else if Whitespace(s[|s| - 1]) then Strip(s[..|s| - 1])
    else s
  }

  function NoSpaces(s: string): string {
    if s == "" then "" else NoSpaces(s[..|s| - 1]) + if s[|s| - 1] == ' ' then "" else [s[|s| - 1]]
  }

  function UpperChar(c: char): char { if 'a' <= c <= 'z' then 'A' + (c - 'a') else c }

  function Upper(s: string): (r: string)
    ensures |r| == |s|
  {
    seq(|s|, i requires 0 <= i < |s| => UpperChar(s[i]))
  }

  function StripPadding(s: string): (r: string)
    ensures |r| <= |s| && (r == "" || r[|r| - 1] != '=')
  {
    if s == "" || s[|s| - 1] != '=' then s else StripPadding(s[..|s| - 1])
  }

  function Padding(n: nat): string { seq(n, _ => '=') }

  /** The bytes of a secret as typed or stored; None stands for the raised error. */
  function Decode(secret: string): Option<Bytes> {
    var s := Upper(NoSpaces(Strip(secret)));
    var padded := s + Padding((8 - |s| % 8) % 8);
    var body := StripPadding(padded);
    if |padded| - |body| in {0, 1, 3, 4, 6} then DecodeQuanta(body) else None
  }

  // ---- round trip -------------------------------------------------------------------------

  lemma Powers()
    ensures Pow(32, 8) == Pow(256, 5) == 0x100_0000_0000
    ensures Pow(256, 4) == 4 * Pow(32, 6) && Pow(256, 3) == 16 * Pow(32, 4)
    ensures Pow(256, 2) == 2 * Pow(32, 3) && Pow(256, 1) == 8 * Pow(32, 1)
  {
  }

  lemma BytesAsDigits(b: Bytes)
    ensures Number(b, 256) < Pow(256, |b|)
    ensures AsBytes(Digits(Number(b, 256), 256, |b|)) == b
  {
    DigitsOfNumber(b, 256);
  }

  lemma FullQuantum(b: Bytes)
    requires |b| == 5
    ensures var g := Glyphs(Digits(Number(b, 256), 32, 8));
            AllGlyphs(g) && |g| == 8 && AsBytes(Digits(Number(Values(g), 32), 256, 5)) == b
  {
    hide Pow, Digits, Number;
    Powers();
    BytesAsDigits(b);
    ValuesOfGlyphs(Digits(Number(b, 256), 32, 8));
    NumberOfDigits(Number(b, 256), 32, 8);
  }

  /** A number that fits the bytes fits the characters once shifted. */
  lemma CutFits(n: nat, size: nat, c: nat, factor: nat)
    requires 0 < size < 5 && c <= 8 && n < Pow(256, size) && Pow(256, 5 - size) == factor * Pow(32, 8 - c)
    ensures n * factor < Pow(32, c)
    ensures Scaled(n * factor, 32, 8 - c) == Scaled(n, 256, 5 - size)
  {
    hide Pow;
    Powers();
    var p, q := Pow(256, 5 - size), Pow(32, 8 - c);
    PowPositive(256, 5 - size); PowPositive(32, 8 - c);
    Associates(n, factor, q);
    PowAdds(256, size, 5 - size);
    PowAdds(32, c, 8 - c);
    Below(n, Pow(256, size), factor, q, Pow(32, c), p);
  }

  /** A cut quantum: the characters left out are all zero digits. */
  lemma CutQuantum(b: Bytes, c: nat, factor: nat)
    requires 0 < |b| < 5 && c <= 8 && Pow(256, 5 - |b|) == factor * Pow(32, 8 - c)
    ensures var g := Glyphs(Digits(Scaled(Number(b, 256), 256, 5 - |b|), 32, 8))[..c];
            AllGlyphs(g) && |g| == c && AsBytes(Digits(Scaled(Number(Values(g), 32), 32, 8 - c), 256, 5))[..|b|] == b
  {
    hide Pow, Digits, Number, Scaled, Value, Glyph;
    BytesAsDigits(b);
    var n := Number(b, 256);
    CutFits(n, |b|, c, factor);
    var m: nat := n * factor;
    var v := Scaled(n, 256, 5 - |b|);
    LeadingDigits(m, 32, c, 8);
    NumberOfDigits(m, 32, c);
    var d := Digits(v, 32, 8);
    assert Glyphs(d)[..c] == Glyphs(d[..c]);
    ValuesOfGlyphs(d[..c]);
    LeadingDigits(n, 256, |b|, 5);
    assert AsBytes(Digits(v, 256, 5))[..|b|] == AsBytes(Digits(v, 256, 5)[..|b|]);
  }

  lemma {:induction false} PowPositive(base: nat, k: nat)
    requires base > 0
    ensures Pow(base, k) > 0
  {
    if k > 0 { PowPositive(base, k - 1); }
  }

  lemma {:induction false} PowAdds(base: nat, i: nat, j: nat)
    ensures Pow(base, i + j) == Pow(base, i) * Pow(base, j)
  {
    if j > 0 {
      PowAdds(base, i, j - 1);
      assert i + j - 1 == i + (j - 1);
      Associates(Pow(base, i), Pow(base, j - 1), base);
    }
  }

  /** n * f fits c characters because n * f * q fits the whole quantum. */
  lemma Below(n: nat, bound: nat, f: nat, q: nat, limit: nat, p: nat)
    requires n < bound && p == f * q && p > 0 && q > 0 && bound * p == limit * q
    ensures n * f < limit
  {
    Associates(n, f, q);
    assert n * p < bound * p by { StrictlyMonotone(p, n, bound); }
    if n * f >= limit { Monotone(q, limit, n * f); }
  }

  lemma StrictlyMonotone(p: nat, a: nat, b: nat)
    requires p > 0 && a < b
    ensures a * p < b * p
  {
  }

  lemma ShortRoundTrip(b: Bytes)
    requires 0 < |b| < 5
    ensures DecodeQuanta(Encode(b)) == Some(b)
    ensures AllGlyphs(Encode(b)) && |Encode(b)| in {2, 4, 5, 7}
  {
    hide Pow, Digits, Number, AsBytes;
    Powers();
    CutQuantum(b, CeilDiv(8 * |b|, 5), if |b| == 1 then 4 else if |b| == 2 then 16 else if |b| == 3 then 2 else 8);
  }

  lemma QuantumFirst(g: string, rest: string, bytes: Bytes)
    requires |g| == 8 && AllGlyphs(g) && DecodeQuanta(rest) == Some(bytes)
    ensures DecodeQuanta(g + rest) == Some(AsBytes(Digits(Number(Values(g), 32), 256, 5)) + bytes)
  {
    hide Pow, Digits, Number, AsBytes, Value;
    assert (g + rest)[..8] == g && (g + rest)[8..] == rest;
  }

  lemma LongEncode(b: Bytes)
    requires |b| >= 5
    ensures Encode(b) == Glyphs(Digits(Number(b[..5], 256), 32, 8)) + Encode(b[5..])
  {}

  lemma {:induction false} DecodeQuantaEncode(b: Bytes)
    ensures DecodeQuanta(Encode(b)) == Some(b)
    ensures AllGlyphs(Encode(b)) && |Encode(b)| % 8 in {0, 2, 4, 5, 7}
  {
    hide Pow, Digits, Number, AsBytes, Values, Glyphs, DecodeQuanta, Value, Encode;
    if b == [] {
      EmptyDecodes();
    } else if |b| < 5 {
      ShortRoundTrip(b);
    } else {
      LongEncode(b);
      FullQuantum(b[..5]);
      DecodeQuantaEncode(b[5..]);
      var g, rest := Glyphs(Digits(Number(b[..5], 256), 32, 8)), Encode(b[5..]);
      QuantumFirst(g, rest, b[5..]);
      assert b[..5] + b[5..] == b;
    }
  }

  lemma EmptyDecodes()
    ensures DecodeQuanta("") == Some([]) && Encode([]) == ""
  {
  }

  lemma {:induction false} StripPaddingOf(s: string, n: nat)
    requires s == "" || s[|s| - 1] != '='
    ensures StripPadding(s + Padding(n)) == s
  {
    if n == 0 { assert s + Padding(0) == s; }
    else {
      var padded := s + Padding(n);
      assert padded[..|padded| - 1] == s + Padding(n - 1);
      StripPaddingOf(s, n - 1);
    }
  }

  /** What a user typed, read letter by letter: spaces dropped, case ignored. */
  function Letters(s: string): string { Upper(NoSpaces(s)) }

  lemma {:induction false} NoSpacesFront(s: string)
    requires s != "" && s[0] == ' '
    ensures NoSpaces(s) == NoSpaces(s[1..])
  {
    if |s| > 1 {
      assert s[1..][..|s| - 2] == s[..|s| - 1][1..];
      NoSpacesFront(s[..|s| - 1]);
    }
  }

  lemma {:induction false} InNoSpaces(s: string, i: nat)
    requires i < |s| && s[i] != ' '
    ensures s[i] in NoSpaces(s)
  {
    if i < |s| - 1 { InNoSpaces(s[..|s| - 1], i); }
  }

  /** Stripping white space does not matter where the only white space is spaces. */
  lemma {:induction false} StripIsNoSpaces(s: string)
    requires forall i | 0 <= i < |s| :: Whitespace(s[i]) ==> s[i] == ' '
    ensures NoSpaces(Strip(s)) == NoSpaces(s)
  {
    if s == "" {
    } else if Whitespace(s[0]) {
      NoSpacesFront(s);
      StripIsNoSpaces(s[1..]);
    } else if Whitespace(s[|s| - 1]) {
      StripIsNoSpaces(s[..|s| - 1]);
    }
  }

  lemma OnlySpaces(typed: string, e: string)
    requires Letters(typed) == e && AllGlyphs(e)
    ensures forall i | 0 <= i < |typed| :: Whitespace(typed[i]) ==> typed[i] == ' '
  {
    forall i | 0 <= i < |typed| && typed[i] != ' ' ensures !Whitespace(typed[i]) {
      InNoSpaces(typed, i);
      var k :| 0 <= k < |NoSpaces(typed)| && NoSpaces(typed)[k] == typed[i];
      assert e[k] == UpperChar(typed[i]) && Value(e[k]).Some?;
    }
  }

  /** A secret is read back from its base32 however it is spaced and whatever its case. */
  lemma DecodeEncode(b: Bytes, typed: string)
    requires Letters(typed) == Encode(b)
    ensures Decode(typed) == Some(b)
  {
    hide Encode, DecodeQuanta, NoSpaces, Strip, StripPadding, Upper, UpperChar, Whitespace;
    DecodeQuantaEncode(b);
    var e := Encode(b);
    OnlySpaces(typed, e);
    StripIsNoSpaces(typed);
    if e != "" { assert Value(e[|e| - 1]).Some?; }
    StripPaddingOf(e, (8 - |e| % 8) % 8);
  }

  lemma {:induction false} NoSpacesKeeps(s: string)
    requires forall i | 0 <= i < |s| :: s[i] != ' '
    ensures NoSpaces(s) == s
  {
    if s != "" { NoSpacesKeeps(s[..|s| - 1]); }
  }

  /** As stored, too. */
  lemma DecodeStored(b: Bytes)
    ensures Decode(Encode(b)) == Some(b)
  {
    hide Encode;
    DecodeQuantaEncode(b);
    var e := Encode(b);
    forall i | 0 <= i < |e| ensures e[i] != ' ' && UpperChar(e[i]) == e[i] { assert Value(e[i]).Some?; }
    NoSpacesKeeps(e);
    assert Upper(e) == e;
    DecodeEncode(b, e);
  }

  /** The alphabet in its order: capital letters, then the digits 2 to 7. */
  lemma Alphabet(v: nat)
    requires v < 32
    ensures v < 26 ==> Glyph(v) == 'A' + v as char
    ensures 26 <= v ==> Glyph(v) == '2' + (v - 26) as char
    ensures Value(Glyph(v)) == Some(v)
  {}

  /**
   Eight characters are the five-bit digits of the five bytes read as one number: "fooba" is MZXW6YTB (section 10 of
   RFC 4648).
   */
  lemma StandardExample()
    ensures Encode([0x66, 0x6F, 0x6F, 0x62, 0x61]) == "MZXW6YTB"
  {
    hide Number, Digits, Pow, Glyph;
    var b: Bytes := [0x66, 0x6F, 0x6F, 0x62, 0x61];
    assert b[..5] == b && b[5..] == [];
    LongEncode(b);
    EmptyDecodes();
    FoobaDigits();
    FoobaGlyphs();
  }

  /** The five bytes as five-bit digits. */
  const FOOBA: seq<nat> := [12, 25, 23, 22, 30, 24, 19, 1]

  lemma FoobaDigits()
    ensures Digits(Number([0x66, 0x6F, 0x6F, 0x62, 0x61], 256), 32, 8) == FOOBA
  {
    hide Digits;
    FiveBytes([0x66, 0x6F, 0x6F, 0x62, 0x61]);
    FoobaNumber();
    DigitsOfNumber(FOOBA, 32);
  }

  lemma FoobaNumber()
    ensures Number(FOOBA, 32) == 0x66_6F_6F_62_61
  {
    var d := FOOBA;
    NextDigit(d, 0); NextDigit(d, 1); NextDigit(d, 2); NextDigit(d, 3);
    NextDigit(d, 4); NextDigit(d, 5); NextDigit(d, 6); NextDigit(d, 7);
    assert d[..0] == [] && d[..8] == d;
    hide Number;
  }

  lemma FoobaGlyphs()
    ensures Glyphs(FOOBA) == "MZXW6YTB"
  {}

  lemma FiveBytes(b: Bytes)
    requires |b| == 5
    ensures Number(b, 256) == Join(Join(Join(Join(b[0], b[1]), b[2]), b[3]), b[4])
  {
    assert b[..4][..3] == b[..3] && b[..3][..2] == b[..2] && b[..2][..1] == b[..1] && b[..1][..0] == [];
    assert Number(b[..1], 256) == b[0];
    assert Number(b[..2], 256) == Join(b[0], b[1]);
    assert Number(b[..3], 256) == Join(Join(b[0], b[1]), b[2]);
    assert Number(b[..4], 256) == Join(Join(Join(b[0], b[1]), b[2]), b[3]);
  }

  function Join(high: nat, low: nat): nat { high * 256 + low }

  lemma NextDigit(d: seq<nat>, k: nat)
    requires k < |d|
    ensures Number(d[..k + 1], 32) == Number(d[..k], 32) * 32 + d[k]
  {
    assert d[..k + 1][..k] == d[..k];
  }
}
