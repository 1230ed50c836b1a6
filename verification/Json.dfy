/** JSON strings as the canonical writer prints them, and a reader that takes them back. */
module Json {
  import opened Basics
  import Text

  const HEX := "0123456789abcdef"

  function HexValue(c: char): Option<nat> {
    if '0' <= c <= '9' then Some(c as int - '0' as int)
    else if 'a' <= c <= 'f' then Some(c as int - 'a' as int + 10)
    else None
  }

  function Hex2(b: nat): (s: string)
    requires b < 0x100
    ensures |s| == 2
  {
    [HEX[b / 0x10], HEX[b % 0x10]]
  }

  function ReadHex2(high: char, low: char): Option<nat> {
    match (HexValue(high), HexValue(low))
    case (Some(h), Some(l)) => Some(0x10 * h + l)
    case _ => None
  }

  /** `{:04x}` of a UTF-16 code unit. */
  function Hex4(u: nat): (s: string)
    requires u < 0x1_0000
    ensures |s| == 4
  {
    Hex2(u / 0x100) + Hex2(u % 0x100)
  }

  function ReadHex4(s: string): Option<nat>
    requires |s| == 4
  {
    match (ReadHex2(s[0], s[1]), ReadHex2(s[2], s[3]))
    case (Some(h), Some(l)) => Some(0x100 * h + l)
    case _ => None
  }

  lemma HexDigit(d: nat)
    requires d < 16
    ensures HexValue(HEX[d]) == Some(d)
  {
  }

  lemma ReadHex2Back(b: nat)
    requires b < 0x100
    ensures ReadHex2(Hex2(b)[0], Hex2(b)[1]) == Some(b)
  {
    HexDigit(b / 0x10);
    HexDigit(b % 0x10);
  }

  lemma ReadHalves(high: string, low: string, h: nat, l: nat)
    requires |high| == |low| == 2
    requires ReadHex2(high[0], high[1]) == Some(h) && ReadHex2(low[0], low[1]) == Some(l)
    ensures ReadHex4(high + low) == Some(0x100 * h + l)
  {
    var s := high + low;
    assert s[0] == high[0] && s[1] == high[1] && s[2] == low[0] && s[3] == low[1];
  }

  lemma ReadHex4Back(u: nat)
    requires u < 0x1_0000
    ensures ReadHex4(Hex4(u)) == Some(u)
  {
    var h, l := u / 0x100, u % 0x100;
    ReadHex2Back(h);
    ReadHex2Back(l);
    ReadHalves(Hex2(h), Hex2(l), h, l);
  }

  /** `char::encode_utf16`: one unit, or a surrogate pair. */
  function Utf16(c: char): (units: seq<nat>)
    ensures forall k :: 0 <= k < |units| ==> units[k] < 0x1_0000
  {
    var n := c as int;
    if n < 0x1_0000 then [n]
    else
      var v := n - 0x1_0000;
      [0xD800 + v / 0x400, 0xDC00 + v % 0x400]
  }

  function UnitText(u: nat): (s: string)
    requires u < 0x1_0000
    ensures |s| == 6 && s[0] == '\\' && s[1] == 'u'
  {
    "\\u" + Hex4(u)
  }

  function UnicodeText(c: char): string {
    var units := Utf16(c);
    if |units| == 1 then UnitText(units[0]) else UnitText(units[0]) + UnitText(units[1])
  }

  /** The text of one character. */
  function CharText(c: char): string {
    var n := c as int;
    if c == '\"' then "\\\""
    else if c == '\\' then "\\\\"
    else if c == '\n' then "\\n"
    else if c == '\r' then "\\r"
    else if c == '\t' then "\\t"
    else if n == 0x08 then "\\b"
    else if n == 0x0c then "\\f"
    else if n < 0x20 then UnitText(n)
    else if n < 0x80 then [c]
    else UnicodeText(c)
  }

  function CharsThen(s: string, k: string): string {
    if s == [] then k else CharText(s[0]) + CharsThen(s[1..], k)
  }

  /** `s` as a JSON string, followed by `k`. */
  function StringThen(s: string, k: string): string {
    "\"" + CharsThen(s, "\"" + k)
  }

  // ---------------------------------------------------------------------------------------
  // The reader, after section 7 of RFC 8259, with hexadecimal digits in lower case

  /** A `\uXXXX` escape at the head, with what follows it. */
  function ReadUnit(t: string): Option<(nat, string)> {
    if |t| < 6 || t[0] != '\\' || t[1] != 'u' then None
    else
      match ReadHex4(t[2..6])
      case None => None
      case Some(u) => Some((u, t[6..]))
  }

  /** One escaped character at the head; a surrogate must come with its partner. */
  function ReadUnicode(t: string): Option<(char, string)> {
    match ReadUnit(t)
    case None => None
    case Some((u, rest)) =>
      if u < 0xD800 || 0xE000 <= u < 0x1_0000 then Some((u as char, rest))
      else if u < 0xDC00 then
        match ReadUnit(rest)
        case None => None
        case Some((low, after)) =>
          if 0xDC00 <= low < 0xE000
          then Some(((0x1_0000 + 0x400 * (u - 0xD800) + (low - 0xDC00)) as char, after))
          else None
      else None
  }

  function ReadChar(t: string): Option<(char, string)> {
    if t == [] || t[0] == '\"' || (t[0] as int) < 0x20 then None
    else if t[0] != '\\' then Some((t[0], t[1..]))
    else if |t| < 2 then None
    else if t[1] == '\"' || t[1] == '\\' || t[1] == '/' then Some((t[1], t[2..]))
    else if t[1] == 'n' then Some(('\n', t[2..]))
    else if t[1] == 'r' then Some(('\r', t[2..]))
    else if t[1] == 't' then Some(('\t', t[2..]))
    else if t[1] == 'b' then Some((0x08 as char, t[2..]))
    else if t[1] == 'f' then Some((0x0c as char, t[2..]))
    else ReadUnicode(t)
  }

  /** Characters up to the closing quote. */
  function ReadChars(t: string): Option<(string, string)>
    decreases |t|
  {
    if t != [] && t[0] == '\"' then Some(([], t[1..]))
    else
      match ReadChar(t)
      case None => None
      case Some((c, rest)) =>
        if |rest| >= |t| then None
        else
          match ReadChars(rest)
          case None => None
          case Some((s, after)) => Some(([c] + s, after))
  }

  function ReadString(t: string): Option<(string, string)> {
    if t != [] && t[0] == '\"' then ReadChars(t[1..]) else None
  }

  lemma ReadUnitBack(u: nat, k: string)
    requires u < 0x1_0000
    ensures ReadUnit(UnitText(u) + k) == Some((u, k))
  {
    var t := UnitText(u) + k;
    assert t[2..6] == Hex4(u) && t[6..] == k;
    ReadHex4Back(u);
  }

  /** Both halves of a surrogate pair are surrogates, and put together they give the character. */
  lemma SurrogatesBack(c: char)
    requires c as int >= 0x1_0000
    ensures var u := Utf16(c);
            && 0xD800 <= u[0] < 0xDC00 && 0xDC00 <= u[1] < 0xE000
            && 0x1_0000 + 0x400 * (u[0] - 0xD800) + (u[1] - 0xDC00) == c as int
  {
  }

  lemma ReadUnicodeBack(c: char, k: string)
    ensures ReadUnicode(UnicodeText(c) + k) == Some((c, k))
  {
    var u := Utf16(c);
    if |u| == 1 {
      ReadUnitBack(u[0], k);
    } else {
      SurrogatesBack(c);
      assert UnitText(u[0]) + UnitText(u[1]) + k == UnitText(u[0]) + (UnitText(u[1]) + k);
      ReadUnitBack(u[0], UnitText(u[1]) + k);
      ReadUnitBack(u[1], k);
    }
  }

  lemma ReadNamedEscape(c: char, k: string)
    requires c in "\"\\\n\r\t" || c as int == 0x08 || c as int == 0x0c
    ensures ReadChar(CharText(c) + k) == Some((c, k))
  {
    var t := CharText(c) + k;
    assert |CharText(c)| == 2 && t[0] == '\\' && t[1] == CharText(c)[1];
    assert t[2..] == k;
  }

  lemma CharTextIsUnicode(c: char)
    requires c !in "\"\\\n\r\t" && c as int != 0x08 && c as int != 0x0c && (c as int < 0x20 || c as int >= 0x80)
    ensures CharText(c) == UnicodeText(c)
  {
  }

  lemma ReadEscapedUnit(c: char, k: string)
    requires CharText(c) == UnicodeText(c)
    ensures ReadChar(CharText(c) + k) == Some((c, k))
  {
    ReadUnicodeBack(c, k);
    ReadCharIsUnicode(UnicodeText(c) + k);
  }

  lemma ReadCharIsUnicode(t: string)
    requires |t| >= 2 && t[0] == '\\' && t[1] == 'u'
    ensures ReadChar(t) == ReadUnicode(t)
  {
  }

  lemma ReadCharBack(c: char, k: string)
    ensures ReadChar(CharText(c) + k) == Some((c, k))
  {
    if c in "\"\\\n\r\t" || c as int == 0x08 || c as int == 0x0c {
      ReadNamedEscape(c, k);
    } else if c as int < 0x20 || c as int >= 0x80 {
      CharTextIsUnicode(c);
      ReadEscapedUnit(c, k);
    } else {
      assert ([c] + k)[1..] == k;
    }
  }

  lemma {:induction false} ReadCharsBack(s: string, k: string)
    ensures ReadChars(CharsThen(s, "\"" + k)) == Some((s, k))
  {
    if s == [] {
      assert ("\"" + k)[1..] == k;
    } else {
      ReadCharBack(s[0], CharsThen(s[1..], "\"" + k));
      assert CharText(s[0]) != [] && CharText(s[0])[0] != '\"';
      ReadCharsBack(s[1..], k);
      assert [s[0]] + s[1..] == s;
    }
  }

  /** Every string is read back exactly, whatever characters it has and whatever follows. */
  lemma ReadStringBack(s: string, k: string)
    ensures ReadString(StringThen(s, k)) == Some((s, k))
  {
    ReadCharsBack(s, k);
    assert StringThen(s, k)[1..] == CharsThen(s, "\"" + k);
  }

  lemma StringUnique(a: string, x: string, b: string, y: string)
    requires StringThen(a, x) == StringThen(b, y)
    ensures a == b && x == y
  {
    ReadStringBack(a, x);
    ReadStringBack(b, y);
  }

  // ---------------------------------------------------------------------------------------
  // The text is the canonical one

  predicate Ascii(t: string) {
    forall i :: 0 <= i < |t| ==> (t[i] as int) < 0x80
  }

  /** Neither a quote, nor a backslash, nor a control character, nor anything outside ASCII. */
  predicate Plain(c: char) {
    0x20 <= c as int < 0x80 && c != '\"' && c != '\\'
  }

  /** A plain string is printed as it is, between quotes. */
  lemma {:induction false} PlainPrintsAsItself(s: string, k: string)
    requires forall i :: 0 <= i < |s| ==> Plain(s[i])
    ensures StringThen(s, k) == "\"" + s + "\"" + k
  {
    PlainChars(s, "\"" + k);
    Text.Assoc("\"", s, "\"" + k);
    Text.Assoc("\"" + s, "\"", k);
  }

  lemma {:induction false} PlainChars(s: string, k: string)
    requires forall i :: 0 <= i < |s| ==> Plain(s[i])
    ensures CharsThen(s, k) == s + k
  {
    if s != [] {
      PlainChars(s[1..], k);
      PlainText(s[0]);
      Text.Assoc([s[0]], s[1..], k);
      assert s == [s[0]] + s[1..];
    } else {
      assert s + k == k;
    }
  }

  lemma PlainText(c: char)
    requires Plain(c)
    ensures CharText(c) == [c]
  {
  }

  lemma HexDigitBack(c: char)
    requires HexValue(c).Some?
    ensures HexValue(c).value < 16 && HEX[HexValue(c).value] == c
  {
  }

  lemma ReadHex2Unique(high: char, low: char)
    requires ReadHex2(high, low).Some?
    ensures ReadHex2(high, low).value < 0x100 && Hex2(ReadHex2(high, low).value) == [high, low]
  {
    HexDigitBack(high);
    HexDigitBack(low);
    Halves(HexValue(high).value, HexValue(low).value);
  }

  lemma Halves(h: nat, l: nat)
    requires h < 0x10 && l < 0x10
    ensures 0x10 * h + l < 0x100 && (0x10 * h + l) / 0x10 == h && (0x10 * h + l) % 0x10 == l
  {
  }

  lemma ReadHex4Unique(x: string)
    requires |x| == 4 && ReadHex4(x).Some?
    ensures ReadHex4(x).value < 0x1_0000 && Hex4(ReadHex4(x).value) == x
  {
    ReadHex2Unique(x[0], x[1]);
    ReadHex2Unique(x[2], x[3]);
    var u := ReadHex4(x).value;
    assert u / 0x100 == ReadHex2(x[0], x[1]).value && u % 0x100 == ReadHex2(x[2], x[3]).value;
    assert x == [x[0], x[1]] + [x[2], x[3]];
  }

  lemma ReadUnitUnique(t: string)
    requires ReadUnit(t).Some?
    ensures var (u, rest) := ReadUnit(t).value; u < 0x1_0000 && t == UnitText(u) + rest
  {
    ReadHex4Unique(t[2..6]);
    assert t == t[..2] + t[2..6] + t[6..];
  }

  lemma PairUnits(u: nat, low: nat)
    requires 0xD800 <= u < 0xDC00 && 0xDC00 <= low < 0xE000
    ensures Utf16((0x1_0000 + 0x400 * (u - 0xD800) + (low - 0xDC00)) as char) == [u, low]
  {
  }

  lemma ReadUnicodeUnique(t: string)
    requires ReadUnicode(t).Some?
    ensures var (c, rest) := ReadUnicode(t).value; t == UnicodeText(c) + rest
  {
    var (u, rest) := ReadUnit(t).value;
    ReadUnitUnique(t);
    if 0xD800 <= u < 0xDC00 {
      var (low, after) := ReadUnit(rest).value;
      ReadUnitUnique(rest);
      PairUnits(u, low);
      Text.Assoc(UnitText(u), UnitText(low), after);
    } else {
      assert Utf16(u as char) == [u];
    }
  }

  /** `head` is a spelling of `c` that is longer than the printed one, or is that one. */
  predicate NoBetter(head: string, c: char) {
    |CharText(c)| < |head| || CharText(c) == head
  }

  /** The characters that have an escape of two characters. */
  predicate Named(c: char) {
    c in "\"\\\n\r\t" || c as int == 0x08 || c as int == 0x0c
  }

  lemma UnicodeLength(c: char)
    ensures |UnicodeText(c)| >= 6
  {
  }

  lemma UnicodeIsLongest(c: char)
    ensures NoBetter(UnicodeText(c), c)
  {
    UnicodeLength(c);
    if Named(c) {
      assert |CharText(c)| == 2;
    } else if Plain(c) {
      assert CharText(c) == [c];
    } else {
      CharTextIsUnicode(c);
    }
  }

  lemma ReadPlain(t: string)
    requires Ascii(t) && ReadChar(t).Some? && t[0] != '\\'
    ensures ReadChar(t).value == (t[0], t[1..]) && Plain(t[0]) && CharText(t[0]) == [t[0]]
  {
  }

  lemma ReadNamed(t: string)
    requires ReadChar(t).Some? && t[0] == '\\' && t[1] in "\"\\/nrtbf"
    ensures ReadChar(t).value.1 == t[2..] && NoBetter(t[..2], ReadChar(t).value.0)
  {
    var c := ReadChar(t).value.0;
    if t[1] == '/' {
      assert c == '/' && CharText(c) == [c];
    } else {
      assert Named(c) && CharText(c) == ['\\', t[1]];
      assert t[..2] == ['\\', t[1]];
    }
  }

  /** The spelling of the first character, which is no better than the printed one. */
  predicate IsHead(t: string, head: string)
    requires ReadChar(t).Some?
  {
    var (c, rest) := ReadChar(t).value;
    t == head + rest && head != [] && NoBetter(head, c)
  }

  lemma PlainHead(t: string)
    requires Ascii(t) && ReadChar(t).Some? && t[0] != '\\'
    ensures IsHead(t, [t[0]])
  {
    ReadPlain(t);
    assert t == [t[0]] + t[1..];
  }

  lemma NamedHead(t: string)
    requires ReadChar(t).Some? && t[0] == '\\' && t[1] in "\"\\/nrtbf"
    ensures IsHead(t, t[..2])
  {
    ReadNamed(t);
    assert t == t[..2] + t[2..];
  }

  lemma ReadOther(t: string)
    requires ReadChar(t).Some? && t[0] == '\\' && t[1] !in "\"\\/nrtbf"
    ensures ReadChar(t) == ReadUnicode(t)
  {
  }

  lemma UnicodeHead(t: string)
    requires ReadChar(t).Some? && t[0] == '\\' && t[1] !in "\"\\/nrtbf"
    ensures IsHead(t, UnicodeText(ReadChar(t).value.0))
  {
    ReadOther(t);
    ReadUnicodeUnique(t);
    UnicodeLength(ReadChar(t).value.0);
    UnicodeIsLongest(ReadChar(t).value.0);
  }

  lemma ReadCharCanonical(t: string) returns (head: string)
    requires Ascii(t) && ReadChar(t).Some?
    ensures IsHead(t, head)
  {
    if t[0] != '\\' {
      head := [t[0]];
      PlainHead(t);
    } else if t[1] in "\"\\/nrtbf" {
      head := t[..2];
      NamedHead(t);
    } else {
      head := UnicodeText(ReadChar(t).value.0);
      UnicodeHead(t);
    }
  }

  lemma {:induction false} CharsCanonical(t: string)
    requires Ascii(t) && ReadChars(t).Some?
    ensures var (s, after) := ReadChars(t).value;
            |CharsThen(s, "\"" + after)| < |t| || CharsThen(s, "\"" + after) == t
    decreases |t|
  {
    if t[0] == '\"' {
      assert t == "\"" + t[1..];
    } else {
      var head := ReadCharCanonical(t);
      var (c, rest) := ReadChar(t).value;
      var (s, after) := ReadChars(rest).value;
      assert forall i :: 0 <= i < |rest| ==> rest[i] == t[|head| + i];
      CharsCanonical(rest);
      assert ReadChars(t).value == ([c] + s, after);
      assert ([c] + s)[1..] == s;
    }
  }

  /** Of all the ASCII texts that are read as a string, the printed one is the only shortest. */
  lemma StringIsCanonical(s: string, after: string, t: string)
    requires Ascii(t) && ReadString(t) == Some((s, after))
    ensures |StringThen(s, after)| < |t| || StringThen(s, after) == t
  {
    CharsCanonical(t[1..]);
    assert t == "\"" + t[1..];
  }

  /** ... and it is ASCII itself. */
  lemma StringIsAscii(s: string, after: string)
    requires Ascii(after)
    ensures Ascii(StringThen(s, after))
  {
    CharsAscii(s, "\"" + after);
  }

  lemma {:induction false} CharsAscii(s: string, k: string)
    ensures Ascii(k) ==> Ascii(CharsThen(s, k))
  {
    if s != [] {
      CharAscii(s[0]);
      CharsAscii(s[1..], k);
    }
  }

  lemma CharAscii(c: char)
    ensures Ascii(CharText(c))
  {
    if Named(c) {
      assert |CharText(c)| == 2;
    } else if Plain(c) {
      assert CharText(c) == [c];
    } else {
      CharTextIsUnicode(c);
      var units := Utf16(c);
      UnitAscii(units[0]);
      UnitAscii(units[|units| - 1]);
    }
  }

  lemma UnitAscii(u: nat)
    requires u < 0x1_0000
    ensures Ascii(UnitText(u))
  {
    assert Ascii(HEX);
    assert Ascii(Hex2(u / 0x100)) && Ascii(Hex2(u % 0x100));
  }

  lemma {:induction false} CharsThenAppends(s: string, x: string, y: string)
    ensures CharsThen(s, x + y) == CharsThen(s, x) + y
  {
    if s != [] {
      CharsThenAppends(s[1..], x, y);
      assert CharText(s[0]) + (CharsThen(s[1..], x) + y) == CharText(s[0]) + CharsThen(s[1..], x) + y;
    }
  }
}
