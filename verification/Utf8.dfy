/** UTF-8 as Python's strict codec has it (section 3 of RFC 3629). */
module Utf8 {
  import opened Prelude
  import opened CanonicalJson

  type byte = b: int | 0 <= b < 256

  function EncodeChar(c: CodePoint): (r: seq<byte>)
    ensures 1 <= |r| <= 4
  {
    if c < 0x80 then [c]
    else if c < 0x800 then [0xC0 + c / 64, 0x80 + c % 64]
    else if c < 0x1_0000 then [0xE0 + c / 4096, 0x80 + c / 64 % 64, 0x80 + c % 64]
    else [0xF0 + c / 262144, 0x80 + c / 4096 % 64, 0x80 + c / 64 % 64, 0x80 + c % 64]
  }

  /** None stands for UnicodeEncodeError: a surrogate has no encoding. */
  function Encode(s: Text): (r: Option<seq<byte>>)
    ensures r.Some? <==> Scalar(s)
    ensures r.Some? ==> |r.value| >= |s|
  {
    if s == [] then Some([])
    else if IsSurrogate(s[0]) then None
    else
      match Encode(s[1..])
      case None => None
      case Some(rest) => Some(EncodeChar(s[0]) + rest)
  }

  predicate Tail(b: byte) { 0x80 <= b < 0xC0 }

  /** Six more bits behind the ones read so far. */
  function Append(high: int, b: byte): int { high * 64 + (b - 0x80) }

  /** The first character and its length: no overlong form, no surrogate, nothing above 10FFFF. */
  function DecodeChar(b: seq<byte>): (r: Option<(CodePoint, nat)>)
    ensures r.Some? ==> 1 <= r.value.1 <= |b|
  {
    if b == [] then None
    else if b[0] < 0x80 then Some((b[0], 1))
    else if 0xC2 <= b[0] < 0xE0 && |b| >= 2 && Tail(b[1]) then
      Some((Append(b[0] - 0xC0, b[1]), 2))
    else if 0xE0 <= b[0] < 0xF0 && |b| >= 3 && Tail(b[1]) && Tail(b[2]) then
      var c := Append(Append(b[0] - 0xE0, b[1]), b[2]);
      if c < 0x800 || IsSurrogate(c) then None else Some((c, 3))
    else if 0xF0 <= b[0] < 0xF5 && |b| >= 4 && Tail(b[1]) && Tail(b[2]) && Tail(b[3]) then
      var c := Append(Append(Append(b[0] - 0xF0, b[1]), b[2]), b[3]);
      if c < 0x1_0000 || c >= 0x11_0000 then None else Some((c, 4))
    else None
  }

  /** None stands for UnicodeDecodeError. */
  function Decode(b: seq<byte>): (r: Option<Text>)
    ensures r.Some? ==> |r.value| <= |b|
  {
    if b == [] then Some([])
    else
      match DecodeChar(b)
      case None => None
      case Some((c, n)) =>
        match Decode(b[n..])
        case None => None
        case Some(rest) => Some([c] + rest)
  }

  lemma DecodeCharOfEncode(c: CodePoint, rest: seq<byte>)
    requires !IsSurrogate(c)
    ensures DecodeChar(EncodeChar(c) + rest) == Some((c, |EncodeChar(c)|))
  {
    var b := EncodeChar(c) + rest;
    var e := EncodeChar(c);
    assert forall i | 0 <= i < |e| :: b[i] == e[i];
    if c >= 0x1_0000 {
      SplitBits(c);
      SplitBits(c / 64);
      SplitBits(c / 4096);
    } else if c >= 0x800 {
      SplitBits(c);
      SplitBits(c / 64);
    }
  }

  lemma SplitBits(c: nat)
    ensures c == 64 * (c / 64) + c % 64 && c / 64 / 64 == c / 4096 && c / 64 / 64 / 64 == c / 262144
  {}

  lemma EncodeCharOfDecode(b: seq<byte>)
    requires DecodeChar(b).Some?
    ensures var (c, n) := DecodeChar(b).value; !IsSurrogate(c) && EncodeChar(c) == b[..n]
  {
    var n := DecodeChar(b).value.1;
    if n == 3 { EncodeThree(b); }
    else if n == 4 { EncodeFour(b); }
  }

  lemma EncodeThree(b: seq<byte>)
    requires DecodeChar(b).Some? && DecodeChar(b).value.1 == 3
    ensures EncodeChar(DecodeChar(b).value.0) == b[..3]
  {
    Digits64(b[0] - 0xE0, b[1] - 0x80, b[2] - 0x80);
  }

  lemma EncodeFour(b: seq<byte>)
    requires DecodeChar(b).Some? && DecodeChar(b).value.1 == 4
    ensures EncodeChar(DecodeChar(b).value.0) == b[..4]
  {
    var x, y, z, w := b[0] - 0xF0, b[1] - 0x80, b[2] - 0x80, b[3] - 0x80;
    var c := DecodeChar(b).value.0;
    FourBytes(b);
    hide DecodeChar, Append;
    EncodeDigits(x, y, z, w, c);
  }

  /** What four decoded bytes stand for. */
  lemma FourBytes(b: seq<byte>)
    requires DecodeChar(b).Some? && DecodeChar(b).value.1 == 4
    ensures 4 <= |b| && 0xF0 <= b[0] < 0xF5 && Tail(b[1]) && Tail(b[2]) && Tail(b[3])
    ensures var c := DecodeChar(b).value.0;
            c >= 0x1_0000 && c == Joined(b[0] - 0xF0, b[1] - 0x80, b[2] - 0x80, b[3] - 0x80)
  {
    hide IsSurrogate;
  }

  function Joined(x: int, y: int, z: int, w: int): int { ((x * 64 + y) * 64 + z) * 64 + w }

  lemma EncodeDigits(x: nat, y: nat, z: nat, w: nat, c: CodePoint)
    requires x < 5 && y < 64 && z < 64 && w < 64 && c >= 0x1_0000 && c == Joined(x, y, z, w)
    ensures EncodeChar(c) == [0xF0 + x, 0x80 + y, 0x80 + z, 0x80 + w]
  {
    FourDigits(x, y, z, w);
  }

  lemma Digits64(x: nat, y: nat, z: nat)
    requires y < 64 && z < 64
    ensures var c := (x * 64 + y) * 64 + z; c % 64 == z && c / 64 == x * 64 + y && c / 64 % 64 == y && c / 4096 == x
  {}

  lemma FourDigits(x: nat, y: nat, z: nat, w: nat)
    requires y < 64 && z < 64 && w < 64
    ensures var c := ((x * 64 + y) * 64 + z) * 64 + w;
            c % 64 == w && c / 64 % 64 == z && c / 4096 % 64 == y && c / 262144 == x
  {
    Digits64(x * 64 + y, z, w);
    Digits64(x, y, z);
    SplitBits(((x * 64 + y) * 64 + z) * 64 + w);
  }

  /** Decoding undoes encoding. */
  lemma {:induction false} DecodeEncode(s: Text)
    requires Scalar(s)
    ensures Decode(Encode(s).value) == Some(s)
  {
    if s != [] {
      var rest := Encode(s[1..]).value;
      var b := EncodeChar(s[0]) + rest;
      DecodeEncode(s[1..]);
      DecodeCharOfEncode(s[0], rest);
      assert b[|EncodeChar(s[0])|..] == rest;
      assert s == [s[0]] + s[1..];
    }
  }

  /** Encoding undoes decoding: valid UTF-8 spells each string in one way. */
  lemma {:induction false} EncodeDecode(b: seq<byte>)
    requires Decode(b).Some?
    ensures Encode(Decode(b).value) == Some(b)
    decreases |b|
  {
    hide DecodeChar, EncodeChar;
    if b != [] {
      var (c, n) := DecodeChar(b).value;
      EncodeCharOfDecode(b);
      EncodeDecode(b[n..]);
      var s := Decode(b).value;
      assert s[1..] == Decode(b[n..]).value;
      assert b == b[..n] + b[n..];
    }
  }

  /** The examples of section 7 of RFC 3629: A, not identical to, Alpha; and the ideograph U+233B4. */
  lemma StandardExamples()
    ensures EncodeChar(0x41) == [0x41] && EncodeChar(0x391) == [0xCE, 0x91]
    ensures EncodeChar(0x2262) == [0xE2, 0x89, 0xA2] && EncodeChar(0x233B4) == [0xF0, 0xA3, 0x8E, 0xB4]
  {}
}
