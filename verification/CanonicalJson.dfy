/**
 The canonical JSON text that the audit chain hashes, and a reader for that text
 written from the grammar of RFC 8259. A Python string is any sequence of code
 points, lone surrogates included; with `ensure_ascii` the printer works on its
 UTF-16 code units.
 */
module CanonicalJson {
  import opened Prelude

  type CodePoint = c: int | 0 <= c < 0x11_0000
  type Unit = u: int | 0 <= u < 0x1_0000
  type Text = seq<CodePoint>

  predicate IsSurrogate(c: int) { 0xD800 <= c < 0xE000 }

  /** The strings that UTF-8, and so the database, can hold. */
  ghost predicate Scalar(s: Text) {
    forall i | 0 <= i < |s| :: !IsSurrogate(s[i])
  }

  function UnitsOf(c: CodePoint): (r: seq<Unit>)
    ensures 1 <= |r| <= 2
  {
    if c < 0x1_0000 then [c]
    else [0xD800 + (c - 0x1_0000) / 0x400, 0xDC00 + (c - 0x1_0000) % 0x400]
  }

  function Utf16(s: Text): seq<Unit> {
    if s == [] then [] else UnitsOf(s[0]) + Utf16(s[1..])
  }

  predicate IsAscii(s: string) { forall i | 0 <= i < |s| :: s[i] as int < 0x80 }

  /** The code units of an ASCII name of the source. */
  function Key(s: string): seq<Unit>
    requires IsAscii(s)
  {
    seq(|s|, i requires 0 <= i < |s| => s[i] as int)
  }

  // ---- printing ----------------------------------------------------------

  datatype Json = JNull | JInt(n: int) | JString(units: seq<Unit>)
  datatype Member = Member(key: seq<Unit>, value: Json)

  function HexDigit(d: int): char
    requires 0 <= d < 16
  {
    "0123456789abcdef"[d]
  }

  function Hex4(u: Unit): (r: string)
    ensures |r| == 4
  {
    var (a, b, c) := (u / 16, u / 16 / 16, u / 16 / 16 / 16);
    [HexDigit(c), HexDigit(b % 16), HexDigit(a % 16), HexDigit(u % 16)]
  }

  function EscapeUnit(u: Unit): string {
    if u == 0x22 then "\\\""
    else if u == 0x5C then "\\\\"
    else if u == 8 then "\\b"
    else if u == 9 then "\\t"
    else if u == 10 then "\\n"
    else if u == 12 then "\\f"
    else if u == 13 then "\\r"
    else if 0x20 <= u <= 0x7E then [u as char]
    else "\\u" + Hex4(u)
  }

  function Escape(us: seq<Unit>): string {
    if us == [] then "" else EscapeUnit(us[0]) + Escape(us[1..])
  }

  function Quote(us: seq<Unit>): string { "\"" + Escape(us) + "\"" }

  function Digits(n: nat): string {
    if n < 10 then [HexDigit(n)] else Digits(n / 10) + [HexDigit(n % 10)]
  }

  function PrintInt(n: int): string {
    if n < 0 then "-" + Digits(-n) else Digits(n)
  }

  function PrintValue(v: Json): string {
    match v
    case JNull => "null"
    case JInt(n) => PrintInt(n)
    case JString(us) => Quote(us)
  }

  function PrintMember(m: Member): string { Quote(m.key) + ":" + PrintValue(m.value) }

  /** The members after the first, each behind a comma, then the closing brace. */
  function PrintRest(ms: seq<Member>): string {
    if ms == [] then "}" else "," + PrintMember(ms[0]) + PrintRest(ms[1..])
  }

  function PrintObject(ms: seq<Member>): string {
    if ms == [] then "{}" else "{" + PrintMember(ms[0]) + PrintRest(ms[1..])
  }

  // ---- reading (RFC 8259) --------------------------------------------------

  function HexValue(c: char): (r: Option<int>)
    ensures r.Some? ==> 0 <= r.value < 16
  {
    if '0' <= c <= '9' then Some(c as int - '0' as int)
    else if 'a' <= c <= 'f' then Some(c as int - 'a' as int + 10)
    else if 'A' <= c <= 'F' then Some(c as int - 'A' as int + 10)
    else None
  }

  function ReadHex4(c3: char, c2: char, c1: char, c0: char): Option<Unit> {
    match (HexValue(c3), HexValue(c2), HexValue(c1), HexValue(c0))
    case (Some(d), Some(c), Some(b), Some(a)) => Some(((d * 16 + c) * 16 + b) * 16 + a)
    case _ => None
  }

  /** The two-character escapes of section 7. */
  function ShortEscape(c: char): Option<Unit> {
    if c == '"' then Some(0x22)
    else if c == '\\' then Some(0x5C)
    else if c == '/' then Some(0x2F)
    else if c == 'b' then Some(8)
    else if c == 'f' then Some(12)
    else if c == 'n' then Some(10)
    else if c == 'r' then Some(13)
    else if c == 't' then Some(9)
    else None
  }

  /** Reads up to and including the closing quotation mark. */
  function ReadString(t: string): (r: Option<(seq<Unit>, string)>)
    ensures r.Some? ==> |r.value.1| < |t|
  {
    if t == "" then None
    else if t[0] == '"' then Some(([], t[1..]))
    else if t[0] == '\\' then
      if |t| >= 2 && ShortEscape(t[1]).Some? then
        match ReadString(t[2..])
        case None => None
        case Some((us, rest)) => Some(([ShortEscape(t[1]).value] + us, rest))
      else if |t| >= 6 && t[1] == 'u' && ReadHex4(t[2], t[3], t[4], t[5]).Some? then
        match ReadString(t[6..])
        case None => None
        case Some((us, rest)) => Some(([ReadHex4(t[2], t[3], t[4], t[5]).value] + us, rest))
      else None
    else if t[0] < ' ' then None
    else
      match ReadString(t[1..])
      case None => None
      case Some((us, rest)) => Some((UnitsOf(t[0] as int) + us, rest))
  }

  predicate IsDigit(c: char) { '0' <= c <= '9' }

  function TakeDigits(t: string): (r: string)
    ensures |r| <= |t| && r == t[..|r|]
  {
    if t != "" && IsDigit(t[0]) then [t[0]] + TakeDigits(t[1..]) else ""
  }

  function DigitsValue(ds: string): nat
    requires forall i | 0 <= i < |ds| :: IsDigit(ds[i])
  {
    if ds == "" then 0
    else
      assert IsDigit(ds[|ds| - 1]);
      DigitsValue(ds[..|ds| - 1]) * 10 + (ds[|ds| - 1] as int - '0' as int)
  }

  lemma TakeDigitsAreDigits(t: string)
    ensures forall i | 0 <= i < |TakeDigits(t)| :: IsDigit(TakeDigits(t)[i])
  {}

  /** An unsigned number: no leading zero unless it is the only digit. */
  function ReadNat(t: string): (r: Option<(nat, string)>)
    ensures r.Some? ==> |r.value.1| < |t|
  {
    TakeDigitsAreDigits(t);
    var ds := TakeDigits(t);
    if ds == "" || (|ds| > 1 && ds[0] == '0') then None
    else Some((DigitsValue(ds), t[|ds|..]))
  }

  function ReadValue(t: string): (r: Option<(Json, string)>)
    ensures r.Some? ==> |r.value.1| < |t|
  {
    if t == "" then None
    else if t[0] == '"' then
      match ReadString(t[1..])
      case None => None
      case Some((us, rest)) => Some((JString(us), rest))
    else if t[0] == '-' then
      match ReadNat(t[1..])
      case None => None
      case Some((n, rest)) => Some((JInt(0 - n), rest))
    else if IsDigit(t[0]) then
      match ReadNat(t)
      case None => None
      case Some((n, rest)) => Some((JInt(n), rest))
    else if |t| >= 4 && t[..4] == "null" then Some((JNull, t[4..]))
    else None
  }

  function ReadMember(t: string): (r: Option<(Member, string)>)
    ensures r.Some? ==> |r.value.1| < |t|
  {
    if t == "" || t[0] != '"' then None
    else
      match ReadString(t[1..])
      case None => None
      case Some((key, rest)) =>
        if rest == "" || rest[0] != ':' then None
        else
          match ReadValue(rest[1..])
          case None => None
          case Some((v, rest2)) => Some((Member(key, v), rest2))
  }

  function ReadRest(t: string): Option<seq<Member>>
    decreases |t|
  {
    if t == "}" then Some([])
    else if t == "" || t[0] != ',' then None
    else
      match ReadMember(t[1..])
      case None => None
      case Some((m, rest)) =>
        match ReadRest(rest)
        case None => None
        case Some(ms) => Some([m] + ms)
  }

  function ReadMembers(t: string): Option<seq<Member>> {
    match ReadMember(t)
    case None => None
    case Some((m, rest)) =>
      match ReadRest(rest)
      case None => None
      case Some(ms) => Some([m] + ms)
  }

  /** A whole text that is one object of null, integer and string members. */
  function ReadObject(t: string): Option<seq<Member>> {
    if t == "" || t[0] != '{' then None
    else if t[1..] == "}" then Some([])
    else ReadMembers(t[1..])
  }

  // ---- reading undoes printing ---------------------------------------------

  lemma ReadHex4OfHex4(u: Unit)
    ensures var h := Hex4(u); ReadHex4(h[0], h[1], h[2], h[3]) == Some(u)
  {
    hide HexDigit, HexValue;
    var (a, b, c) := (u / 16, u / 16 / 16, u / 16 / 16 / 16);
    HexValueOfDigit(c);
    HexValueOfDigit(b % 16);
    HexValueOfDigit(a % 16);
    HexValueOfDigit(u % 16);
  }

  lemma HexValueOfDigit(d: int)
    requires 0 <= d < 16
    ensures HexValue(HexDigit(d)) == Some(d)
    ensures d < 10 ==> IsDigit(HexDigit(d)) && HexDigit(d) as int - '0' as int == d
    ensures d >= 10 ==> !IsDigit(HexDigit(d))
  {
    if d < 10 { assert HexDigit(d) == ('0' as int + d) as char by { DecimalGlyph(d); } }
    else { assert HexDigit(d) == ('a' as int + d - 10) as char by { LetterGlyph(d); } }
  }

  lemma DecimalGlyph(d: int)
    requires 0 <= d < 10
    ensures HexDigit(d) == (48 + d) as char
  {
    assert d == 0 || d == 1 || d == 2 || d == 3 || d == 4 || d == 5 || d == 6 || d == 7 || d == 8 || d == 9;
  }

  lemma LetterGlyph(d: int)
    requires 10 <= d < 16
    ensures HexDigit(d) == (87 + d) as char
  {
    assert d == 10 || d == 11 || d == 12 || d == 13 || d == 14 || d == 15;
  }

  function Prepend(us: seq<Unit>, read: Option<(seq<Unit>, string)>): Option<(seq<Unit>, string)> {
    match read case None => None case Some((rest, t)) => Some((us + rest, t))
  }

  lemma ReadShort(c: char, rest: string)
    requires ShortEscape(c).Some?
    ensures ReadString("\\" + [c] + rest) == Prepend([ShortEscape(c).value], ReadString(rest))
  {
    hide ShortEscape, ReadHex4;
    var t := "\\" + [c] + rest;
    assert t[0] == '\\' && t[1] == c && t[2..] == rest;
  }

  lemma ReadUnicode(h: string, u: Unit, rest: string)
    requires |h| == 4 && ReadHex4(h[0], h[1], h[2], h[3]) == Some(u)
    ensures ReadString("\\u" + h + rest) == Prepend([u], ReadString(rest))
  {
    hide ReadHex4;
    var t := "\\u" + h + rest;
    assert t[0] == '\\' && t[1] == 'u' && ShortEscape('u') == None && t[6..] == rest;
    assert t[2] == h[0] && t[3] == h[1] && t[4] == h[2] && t[5] == h[3];
  }

  lemma ReadPlain(c: char, rest: string)
    requires ' ' <= c <= '~' && c != '"' && c != '\\'
    ensures ReadString([c] + rest) == Prepend([c as int], ReadString(rest))
  {
    hide ShortEscape, ReadHex4;
    var t := [c] + rest;
    assert t[0] == c && t[1..] == rest;
  }

  /** One printed unit is read back as that unit, whatever follows. */
  lemma ReadEscapedUnit(u: Unit, rest: string)
    ensures ReadString(EscapeUnit(u) + rest) == Prepend([u], ReadString(rest))
  {
    hide ReadString, ReadHex4, Hex4, Prepend;
    if u in {0x22, 0x5C, 8, 9, 10, 12, 13} {
      var c := EscapeUnit(u)[1];
      assert EscapeUnit(u) == "\\" + [c] && ShortEscape(c) == Some(u);
      ReadShort(c, rest);
    } else if 0x20 <= u <= 0x7E {
      ReadPlain(u as char, rest);
    } else {
      ReadHex4OfHex4(u);
      ReadUnicode(Hex4(u), u, rest);
    }
  }

  lemma {:induction false} ReadEscaped(us: seq<Unit>, rest: string)
    ensures ReadString(Escape(us) + ("\"" + rest)) == Some((us, rest))
  {
    hide EscapeUnit, ShortEscape, ReadHex4;
    var tail := "\"" + rest;
    if us == [] {
      assert Escape(us) + tail == tail;
      assert tail[1..] == rest;
    } else {
      ReadEscaped(us[1..], rest);
      assert Escape(us) + tail == EscapeUnit(us[0]) + (Escape(us[1..]) + tail);
      ReadEscapedUnit(us[0], Escape(us[1..]) + tail);
      assert us == [us[0]] + us[1..];
    }
  }

  lemma {:induction false} DigitsAreCanonical(n: nat)
    ensures Digits(n) != "" && (n >= 10 ==> |Digits(n)| > 1 && Digits(n)[0] != '0')
    ensures n > 0 ==> Digits(n)[0] != '0'
    ensures forall i | 0 <= i < |Digits(n)| :: IsDigit(Digits(n)[i])
    ensures DigitsValue(Digits(n)) == n
  {
    HexValueOfDigit(n % 10);
    if n < 10 {
      assert Digits(n)[..0] == "";
      assert DigitsValue("") == 0;
    } else {
      DigitsAreCanonical(n / 10);
      assert Digits(n)[..|Digits(n)| - 1] == Digits(n / 10);
    }
  }

  lemma {:induction false} TakeDigitsStops(ds: string, rest: string)
    requires forall i | 0 <= i < |ds| :: IsDigit(ds[i])
    requires rest == "" || !IsDigit(rest[0])
    ensures TakeDigits(ds + rest) == ds
  {
    if ds == "" {
      assert ds + rest == rest;
    } else {
      TakeDigitsStops(ds[1..], rest);
      assert (ds + rest)[1..] == ds[1..] + rest;
    }
  }

  lemma ReadPrintedNat(n: nat, rest: string)
    requires rest == "" || !IsDigit(rest[0])
    ensures ReadNat(Digits(n) + rest) == Some((n, rest))
  {
    DigitsAreCanonical(n);
    TakeDigitsStops(Digits(n), rest);
    assert (Digits(n) + rest)[|Digits(n)|..] == rest;
  }

  lemma ReadUnsigned(ds: string, n: nat, rest: string)
    requires ds != "" && IsDigit(ds[0]) && ReadNat(ds + rest) == Some((n, rest))
    ensures ReadValue(ds + rest) == Some((JInt(n), rest))
    ensures ReadValue("-" + (ds + rest)) == Some((JInt(0 - n), rest))
  {
    var t := "-" + (ds + rest);
    assert t[0] == '-' && t[1..] == ds + rest;
    assert (ds + rest)[0] == ds[0];
  }

  lemma ReadPrintedInt(n: int, rest: string)
    requires rest == "" || !IsDigit(rest[0])
    ensures ReadValue(PrintInt(n) + rest) == Some((JInt(n), rest))
  {
    hide ReadNat, ReadValue, Digits, DigitsValue;
    var m: nat := if n < 0 then -n else n;
    var ds := Digits(m);
    DigitsAreCanonical(m);
    ReadPrintedNat(m, rest);
    ReadUnsigned(ds, m, rest);
    if n < 0 { assert PrintInt(n) + rest == "-" + (ds + rest); }
  }

  lemma ReadQuoted(us: seq<Unit>, rest: string)
    ensures var t := Quote(us) + rest;
            t[0] == '"' && ReadString(t[1..]) == Some((us, rest))
  {
    var t := Quote(us) + rest;
    assert t[1..] == Escape(us) + ("\"" + rest);
    ReadEscaped(us, rest);
  }

  lemma ReadPrintedValue(v: Json, rest: string)
    requires rest == "" || !IsDigit(rest[0])
    ensures ReadValue(PrintValue(v) + rest) == Some((v, rest))
  {
    match v
    case JNull =>
      var t := "null" + rest;
      assert t[0] == 'n' && t[..4] == "null" && t[4..] == rest;
    case JInt(n) => ReadPrintedInt(n, rest);
    case JString(us) => ReadQuoted(us, rest);
  }

  lemma ReadMemberStep(q: string, pv: string, m: Member, rest: string)
    requires q != "" && q[0] == '"'
    requires ReadString((q + (":" + (pv + rest)))[1..]) == Some((m.key, ":" + (pv + rest)))
    requires ReadValue(pv + rest) == Some((m.value, rest))
    ensures ReadMember(q + ":" + pv + rest) == Some((m, rest))
  {
    hide ReadString, ReadValue;
    var afterKey := ":" + (pv + rest);
    assert q + ":" + pv + rest == q + afterKey;
    assert afterKey[0] == ':' && afterKey[1..] == pv + rest;
  }

  lemma ReadPrintedMember(m: Member, rest: string)
    requires rest == "" || !IsDigit(rest[0])
    ensures ReadMember(PrintMember(m) + rest) == Some((m, rest))
  {
    ReadQuoted(m.key, ":" + (PrintValue(m.value) + rest));
    ReadPrintedValue(m.value, rest);
    ReadMemberStep(Quote(m.key), PrintValue(m.value), m, rest);
  }

  lemma ReadRestStep(head: string, m: Member, tail: string, ms: seq<Member>)
    requires ReadMember(head + tail) == Some((m, tail)) && ReadRest(tail) == Some(ms)
    ensures ReadRest("," + head + tail) == Some([m] + ms)
  {
    hide ReadMember;
    var t := "," + head + tail;
    assert t[0] == ',' && t[1..] == head + tail;
  }

  lemma ReadObjectStep(head: string, tail: string, ms: seq<Member>)
    requires head != "" && head[0] == '"' && ReadMembers(head + tail) == Some(ms)
    ensures ReadObject("{" + head + tail) == Some(ms)
  {
    hide ReadMembers;
    var t := "{" + head + tail;
    assert t[0] == '{' && t[1..] == head + tail;
    assert (head + tail)[0] == '"';
  }

  lemma {:induction false} ReadPrintedRest(ms: seq<Member>)
    ensures PrintRest(ms) != "" && !IsDigit(PrintRest(ms)[0])
    ensures ReadRest(PrintRest(ms)) == Some(ms)
  {
    if ms != [] {
      ReadPrintedRest(ms[1..]);
      ReadPrintedMember(ms[0], PrintRest(ms[1..]));
      ReadRestStep(PrintMember(ms[0]), ms[0], PrintRest(ms[1..]), ms[1..]);
      assert ms == [ms[0]] + ms[1..];
    }
  }

  /** Every printed object reads back as the members it was printed from. */
  lemma ReadPrintedObject(ms: seq<Member>)
    ensures ReadObject(PrintObject(ms)) == Some(ms)
  {
    if ms != [] {
      ReadPrintedRest(ms[1..]);
      ReadPrintedMember(ms[0], PrintRest(ms[1..]));
      assert ms == [ms[0]] + ms[1..];
      assert ReadMembers(PrintMember(ms[0]) + PrintRest(ms[1..])) == Some(ms);
      ReadObjectStep(PrintMember(ms[0]), PrintRest(ms[1..]), ms);
    }
  }

  // ---- UTF-16 --------------------------------------------------------------

  /** Two scalar strings with the same code units are the same string. */
  lemma {:induction false} Utf16Injective(s: Text, t: Text)
    requires Scalar(s) && Scalar(t) && Utf16(s) == Utf16(t)
    ensures s == t
  {
    if s != [] && t != [] {
      var us, ut := UnitsOf(s[0]), UnitsOf(t[0]);
      assert Utf16(s)[0] == us[0] && Utf16(t)[0] == ut[0];
      assert |us| == |ut|;
      if |us| == 2 { assert Utf16(s)[1] == us[1] && Utf16(t)[1] == ut[1]; }
      assert s[0] == t[0];
      assert Utf16(s)[|us|..] == Utf16(s[1..]) && Utf16(t)[|ut|..] == Utf16(t[1..]);
      Utf16Injective(s[1..], t[1..]);
      assert s == [s[0]] + s[1..] && t == [t[0]] + t[1..];
    }
  }
}
