/** Base64 (section 4 of RFC 4648) with Python's lenient decoder. */
module Base64 {
  import opened Prelude
  import opened CanonicalJson
  import opened Utf8

  const PAD: CodePoint := 61

  function Glyph(v: int): CodePoint
    requires 0 <= v < 64
  {
    if v < 26 then 65 + v
    else if v < 52 then 97 + (v - 26)
    else if v < 62 then 48 + (v - 52)
    else if v == 62 then 43
    else 47
  }

  function Value(c: CodePoint): (r: Option<int>)
    ensures r.Some? ==> 0 <= r.value < 64
  {
    if 65 <= c < 91 then Some(c - 65)
    else if 97 <= c < 123 then Some(c - 97 + 26)
    else if 48 <= c < 58 then Some(c - 48 + 52)
    else if c == 43 then Some(62)
    else if c == 47 then Some(63)
    else None
  }

  function Encode(b: seq<byte>): (r: Text)
    ensures |r| == 4 * CeilDiv(|b|, 3)
    ensures forall i | 0 <= i < |r| :: r[i] < 128
  {
    if |b| == 0 then []
    else if |b| == 1 then [Glyph(b[0] / 4), Glyph(b[0] % 4 * 16), PAD, PAD]
    else if |b| == 2 then [Glyph(b[0] / 4), Glyph(b[0] % 4 * 16 + b[1] / 16), Glyph(b[1] % 16 * 4), PAD]
    else
      [Glyph(b[0] / 4), Glyph(b[0] % 4 * 16 + b[1] / 16), Glyph(b[1] % 16 * 4 + b[2] / 64), Glyph(b[2] % 64)]
      + Encode(b[3..])
  }

  function Put(b: byte, rest: Option<seq<byte>>): Option<seq<byte>> {
    match rest case None => None case Some(bs) => Some([b] + bs)
  }

  /** The left-over bits in each position of a quadruple. */
  ghost predicate Leftover(quad: int, left: int) {
    match quad
    case 0 => left == 0
    case 1 => 0 <= left < 64
    case 2 => 0 <= left < 16
    case 3 => 0 <= left < 4
    case _ => false
  }

  /**
   The scanner: characters outside the alphabet are skipped, enough padding ends the
   input, and input that ends inside a quadruple is an error.
   */
  function Scan(s: Text, quad: int, left: int, pads: nat): (r: Option<seq<byte>>)
    requires Leftover(quad, left)
    ensures r.Some? ==> |r.value| <= |s|
  {
    if s == [] then (if quad == 0 then Some([]) else None)
    else if s[0] == PAD then
      if quad < 2 then Scan(s[1..], quad, left, pads)
      else if quad + pads + 1 >= 4 then Some([])
      else Scan(s[1..], quad, left, pads + 1)
    else
      match Value(s[0])
      case None => Scan(s[1..], quad, left, pads)
      case Some(v) =>
        match quad
        case 0 => Scan(s[1..], 1, v, 0)
        case 1 => Put(left * 4 + v / 16, Scan(s[1..], 2, v % 16, 0))
        case 2 => Put(left * 16 + v / 4, Scan(s[1..], 3, v % 4, 0))
        case _ => Put(left * 64 + v, Scan(s[1..], 0, 0, 0))
  }

  predicate Ascii(s: Text) { forall i | 0 <= i < |s| :: s[i] < 128 }

  /** None stands for binascii.Error, or ValueError for text that is not ASCII. */
  function Decode(s: Text): (r: Option<seq<byte>>)
    ensures r.Some? ==> |r.value| <= |s|
  {
    if Ascii(s) then Scan(s, 0, 0, 0) else None
  }

  lemma ValueOfGlyph(v: int)
    requires 0 <= v < 64
    ensures Value(Glyph(v)) == Some(v) && Glyph(v) != PAD
  {}

  /** Reading one glyph at each position of a quadruple. */
  lemma ScanGlyph(v: int, rest: Text, quad: int, left: int, pads: nat)
    requires 0 <= v < 64 && Leftover(quad, left)
    ensures Scan([Glyph(v)] + rest, quad, left, pads) ==
            match quad
            case 0 => Scan(rest, 1, v, 0)
            case 1 => Put(left * 4 + v / 16, Scan(rest, 2, v % 16, 0))
            case 2 => Put(left * 16 + v / 4, Scan(rest, 3, v % 4, 0))
            case _ => Put(left * 64 + v, Scan(rest, 0, 0, 0))
  {
    ValueOfGlyph(v);
    assert ([Glyph(v)] + rest)[1..] == rest;
  }

  lemma ScanFull(a: byte, b: byte, c: byte, rest: Text)
    ensures var quad := [Glyph(a / 4), Glyph(a % 4 * 16 + b / 16), Glyph(b % 16 * 4 + c / 64), Glyph(c % 64)];
            Scan(quad + rest, 0, 0, 0) ==
            Put(a, Put(b, Put(c, Scan(rest, 0, 0, 0))))
  {
    hide Scan, Glyph;
    var (v0, v1, v2, v3) := (a / 4, a % 4 * 16 + b / 16, b % 16 * 4 + c / 64, c % 64);
    var t3 := [Glyph(v3)] + rest;
    var t2 := [Glyph(v2)] + t3;
    var t1 := [Glyph(v1)] + t2;
    assert [Glyph(v0), Glyph(v1), Glyph(v2), Glyph(v3)] + rest == [Glyph(v0)] + t1;
    ScanGlyph(v0, t1, 0, 0, 0);
    ScanGlyph(v1, t2, 1, v0, 0);
    ScanGlyph(v2, t3, 2, v1 % 16, 0);
    ScanGlyph(v3, rest, 3, v2 % 4, 0);
  }

  lemma PaddingEnds()
    ensures Scan([PAD, PAD], 2, 0, 0) == Some([]) && Scan([PAD], 3, 0, 0) == Some([])
  {
    assert [PAD, PAD][1..] == [PAD];
    assert Scan([PAD], 2, 0, 1) == Some([]);
  }

  lemma ScanOne(a: byte)
    ensures Scan([Glyph(a / 4), Glyph(a % 4 * 16), PAD, PAD], 0, 0, 0) == Some([a])
  {
    hide Scan, Glyph;
    var (v0, v1) := (a / 4, a % 4 * 16);
    var t1 := [Glyph(v1)] + [PAD, PAD];
    assert [Glyph(v0), Glyph(v1), PAD, PAD] == [Glyph(v0)] + t1;
    ScanGlyph(v0, t1, 0, 0, 0);
    ScanGlyph(v1, [PAD, PAD], 1, v0, 0);
    PaddingEnds();
    assert v1 / 16 == a % 4 && v1 % 16 == 0;
    assert [a] + [] == [a];
  }

  lemma ScanTwo(a: byte, b: byte)
    ensures Scan([Glyph(a / 4), Glyph(a % 4 * 16 + b / 16), Glyph(b % 16 * 4), PAD], 0, 0, 0) == Some([a, b])
  {
    hide Scan, Glyph;
    var (v0, v1, v2) := (a / 4, a % 4 * 16 + b / 16, b % 16 * 4);
    var t2 := [Glyph(v2)] + [PAD];
    var t1 := [Glyph(v1)] + t2;
    assert [Glyph(v0), Glyph(v1), Glyph(v2), PAD] == [Glyph(v0)] + t1;
    ScanGlyph(v0, t1, 0, 0, 0);
    ScanGlyph(v1, t2, 1, v0, 0);
    ScanGlyph(v2, [PAD], 2, v1 % 16, 0);
    PaddingEnds();
    assert v1 / 16 == a % 4 && v1 % 16 == b / 16 && v2 / 4 == b % 16 && v2 % 4 == 0;
    assert [a] + ([b] + []) == [a, b];
  }

  lemma EmptyScan()
    ensures Scan([], 0, 0, 0) == Some([])
  {}

  /** Decoding undoes encoding. */
  lemma {:induction false} DecodeEncode(b: seq<byte>)
    ensures Decode(Encode(b)) == Some(b)
  {
    hide Scan, Glyph;
    EmptyScan();
    if |b| == 1 {
      ScanOne(b[0]);
      assert b == [b[0]];
    } else if |b| == 2 {
      ScanTwo(b[0], b[1]);
      assert b == [b[0], b[1]];
    } else if |b| >= 3 {
      DecodeEncode(b[3..]);
      ScanFull(b[0], b[1], b[2], Encode(b[3..]));
      assert b == [b[0]] + ([b[1]] + ([b[2]] + b[3..]));
    }
  }

  /** The examples of section 10 of RFC 4648, as ASCII codes. */
  lemma StandardExamples()
    ensures Encode([0x66]) == [90, 103, 61, 61]                                            // f      Zg==
    ensures Encode([0x66, 0x6F]) == [90, 109, 56, 61]                                      // fo     Zm8=
    ensures Encode([0x66, 0x6F, 0x6F]) == [90, 109, 57, 118]                               // foo    Zm9v
    ensures Encode([0x66, 0x6F, 0x6F, 0x62, 0x61, 0x72]) == [90, 109, 57, 118, 89, 109, 70, 121]  // foobar Zm9vYmFy
  {
    var bar: seq<byte> := [0x62, 0x61, 0x72];
    assert bar[3..] == [];
    assert Encode(bar) == [89, 109, 70, 121];
    assert [0x66, 0x6F, 0x6F, 0x62, 0x61, 0x72][3..] == bar;
  }

  /** The alphabet in its order: capital letters, small letters, digits, plus and slash. */
  lemma Alphabet(v: int)
    requires 0 <= v < 64
    ensures v < 26 ==> Glyph(v) == 'A' as int + v
    ensures 26 <= v < 52 ==> Glyph(v) == 'a' as int + (v - 26)
    ensures 52 <= v < 62 ==> Glyph(v) == '0' as int + (v - 52)
    ensures v == 62 ==> Glyph(v) == '+' as int
    ensures v == 63 ==> Glyph(v) == '/' as int
  {}

  /** A character that is neither of the alphabet nor padding: a line break, say. */
  predicate Foreign(c: CodePoint) { c < 128 && c != PAD && Value(c) == None }

  lemma {:induction false} ScanSkips(a: Text, c: CodePoint, b: Text, quad: int, left: int, pads: nat)
    requires Foreign(c) && Leftover(quad, left)
    ensures Scan(a + [c] + b, quad, left, pads) == Scan(a + b, quad, left, pads)
    decreases |a|
  {
    if a == [] {
      assert [] + [c] + b == [c] + b && ([c] + b)[1..] == b && [] + b == b;
    } else {
      assert (a + [c] + b)[1..] == a[1..] + [c] + b && (a + b)[1..] == a[1..] + b;
      var rest := a[1..];
      if a[0] == PAD {
        if quad < 2 { ScanSkips(rest, c, b, quad, left, pads); }
        else if quad + pads + 1 < 4 { ScanSkips(rest, c, b, quad, left, pads + 1); }
      } else {
        match Value(a[0])
        case None => ScanSkips(rest, c, b, quad, left, pads);
        case Some(v) =>
          if quad == 0 { ScanSkips(rest, c, b, 1, v, 0); }
          else if quad == 1 { ScanSkips(rest, c, b, 2, v % 16, 0); }
          else if quad == 2 { ScanSkips(rest, c, b, 3, v % 4, 0); }
          else { ScanSkips(rest, c, b, 0, 0, 0); }
      }
    }
  }

  /** Foreign characters anywhere in a text make no difference; one that is not ASCII makes it an error. */
  lemma ForeignIgnored(a: Text, c: CodePoint, b: Text)
    ensures Foreign(c) ==> Decode(a + [c] + b) == Decode(a + b)
    ensures c >= 128 ==> Decode(a + [c] + b) == None
  {
    AsciiWithout(a, c, b);
    if Foreign(c) {
      hide Scan;
      ScanSkips(a, c, b, 0, 0, 0);
    }
  }

  lemma AsciiWithout(a: Text, c: CodePoint, b: Text)
    ensures Ascii(a + [c] + b) <==> Ascii(a + b) && c < 128
  {
    var s, t := a + [c] + b, a + b;
    if Ascii(s) {
      assert s[|a|] == c;
      forall i | 0 <= i < |t| ensures t[i] < 128 { assert t[i] == if i < |a| then s[i] else s[i + 1]; }
    }
    if Ascii(t) && c < 128 {
      forall i | 0 <= i < |s| ensures s[i] < 128 {
        assert s[i] == if i < |a| then t[i] else if i == |a| then c else t[i - 1];
      }
    }
  }
}
