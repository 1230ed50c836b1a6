/** Splitting, joining and decimal numbers, as the Rust string functions do them. */
module Text {
  import opened Basics

  lemma Assoc(a: string, b: string, c: string)
    ensures a + b + c == a + (b + c)
  {
  }

  /** `str::split` at a character: always at least one part. */
  function Split(s: string, c: char): (parts: seq<string>)
    ensures |parts| > 0
  {
    if s == [] then [[]]
    else
      var rest := Split(s[1..], c);
      if s[0] == c then [[]] + rest else [[s[0]] + rest[0]] + rest[1..]
  }

  function Join(parts: seq<string>, c: char): string {
    if parts == [] then []
    else if |parts| == 1 then parts[0]
    else parts[0] + [c] + Join(parts[1..], c)
  }

  predicate Free(s: string, c: char) {
    c !in s
  }

  ghost predicate AllFree(parts: seq<string>, c: char) {
    forall i :: 0 <= i < |parts| ==> Free(parts[i], c)
  }

  lemma SplitFree(s: string, c: char)
    requires Free(s, c)
    ensures Split(s, c) == [s]
  {
    if s != [] {
      SplitFree(s[1..], c);
      assert s == [s[0]] + s[1..];
    }
  }

  lemma {:induction false} SplitHead(s: string, c: char, rest: string)
    requires Free(s, c)
    ensures Split(s + [c] + rest, c) == [s] + Split(rest, c)
  {
    var all := s + [c] + rest;
    if s == [] {
      assert all[1..] == rest;
    } else {
      assert all[1..] == s[1..] + [c] + rest;
      SplitHead(s[1..], c, rest);
      assert s == [s[0]] + s[1..];
    }
  }

  /** Parts that are free of the separator are read back as they were printed. */
  lemma {:induction false} SplitJoin(parts: seq<string>, c: char)
    requires parts != [] && AllFree(parts, c)
    ensures Split(Join(parts, c), c) == parts
  {
    if |parts| == 1 {
      SplitFree(parts[0], c);
    } else {
      SplitJoin(parts[1..], c);
      SplitHead(parts[0], c, Join(parts[1..], c));
    }
  }

  lemma {:induction false} JoinSplit(s: string, c: char)
    ensures AllFree(Split(s, c), c) && Join(Split(s, c), c) == s
  {
    if s != [] {
      var rest := Split(s[1..], c);
      JoinSplit(s[1..], c);
      if s[0] == c {
        assert ([[]] + rest)[1..] == rest;
      } else {
        assert ([[s[0]] + rest[0]] + rest[1..])[1..] == rest[1..];
        assert Join(Split(s, c), c) == [s[0]] + Join(rest, c);
      }
    }
  }

  /** `str::split_once`: at the first occurrence. */
  function SplitOnce(s: string, c: char): (r: Option<(string, string)>)
    ensures r.None? <==> Free(s, c)
    ensures r.Some? ==> s == r.value.0 + [c] + r.value.1 && Free(r.value.0, c)
  {
    if s == [] then None
    else if s[0] == c then Some(([], s[1..]))
    else
      match SplitOnce(s[1..], c)
      case None => None
      case Some((a, b)) => Some(([s[0]] + a, b))
  }

  /** `str::rsplit_once`: at the last occurrence. */
  function RSplitOnce(s: string, c: char): (r: Option<(string, string)>)
    ensures r.None? <==> Free(s, c)
    ensures r.Some? ==> s == r.value.0 + [c] + r.value.1 && Free(r.value.1, c)
    decreases |s|
  {
    if s == [] then None
    else
      var last := |s| - 1;
      if s[last] == c then Some((s[..last], []))
      else
        match RSplitOnce(s[..last], c)
        case None => None
        case Some((a, b)) => Some((a, b + [s[last]]))
  }

  /** Two ways to cut the same string: the shorter left part is a prefix of the longer one. */
  lemma Overlap(a: string, x: string, b: string, y: string)
    requires a + x == b + y && |a| <= |b|
    ensures a == b[..|a|] && (|a| == |b| ==> a == b && x == y)
    ensures |a| < |b| ==> x != [] && x[0] == b[|a|]
  {
    var s, t := a + x, b + y;
    assert a == s[..|a|] == t[..|a|] == b[..|a|];
    assert x == s[|a|..] == t[|a|..];
    if |a| < |b| {
      assert s[|a|] == x[0] && t[|a|] == b[|a|];
    }
  }

  /** A string splits in only one way at the first occurrence of a character. */
  lemma FirstSplitUnique(a: string, x: string, b: string, y: string, c: char)
    requires Free(a, c) && Free(b, c) && a + [c] + x == b + [c] + y
    ensures a == b && x == y
  {
    assert a + ([c] + x) == a + [c] + x && b + ([c] + y) == b + [c] + y;
    if |a| <= |b| {
      Overlap(a, [c] + x, b, [c] + y);
    } else {
      Overlap(b, [c] + y, a, [c] + x);
    }
    assert x == ([c] + x)[1..] && y == ([c] + y)[1..];
  }

  /** ... and in only one way at the last. */
  lemma LastSplitUnique(a: string, x: string, b: string, y: string, c: char)
    requires Free(x, c) && Free(y, c) && a + [c] + x == b + [c] + y
    ensures a == b && x == y
  {
    var s, t := a + [c] + x, b + [c] + y;
    assert s[|a|] == c && t[|b|] == c;
    assert forall k :: |a| < k < |s| ==> s[k] == x[k - |a| - 1];
    assert forall k :: |b| < k < |t| ==> t[k] == y[k - |b| - 1];
    assert |a| == |b|;
    assert a == s[..|a|] && b == t[..|b|];
    assert x == s[|a| + 1..] && y == t[|b| + 1..];
  }

  // ---------------------------------------------------------------------------------------
  // The order of strings

  /** `str::cmp`: byte order of UTF-8 is code-point order. */
  predicate NameLe(a: string, b: string) {
    if a == [] then true
    else if b == [] then false
    else if a[0] != b[0] then a[0] < b[0]
    else NameLe(a[1..], b[1..])
  }

  lemma {:induction false} NameLeTotal(a: string, b: string)
    ensures NameLe(a, b) || NameLe(b, a)
    ensures NameLe(a, b) && NameLe(b, a) ==> a == b
  {
    if a != [] && b != [] && a[0] == b[0] {
      NameLeTotal(a[1..], b[1..]);
      assert a == [a[0]] + a[1..] && b == [b[0]] + b[1..];
    }
  }

  lemma {:induction false} NameLeTransitive(a: string, b: string, c: string)
    requires NameLe(a, b) && NameLe(b, c)
    ensures NameLe(a, c)
  {
    if a != [] && a[0] == b[0] == c[0] {
      NameLeTransitive(a[1..], b[1..], c[1..]);
    }
  }

  /** Lexicographic: a prefix comes first, and otherwise the first difference decides. */
  lemma {:induction false} NameLeIsLexicographic(a: string, b: string)
    ensures NameLe(a, b) <==>
              a <= b || exists k :: 0 <= k < |a| && k < |b| && a[..k] == b[..k] && a[k] < b[k]
  {
    if a == [] || b == [] {
    } else if a[0] != b[0] {
      if a[0] < b[0] {
        assert a[..0] == b[..0];
      } else {
        forall k | 0 < k < |a| && k < |b| ensures a[..k] != b[..k] {
          assert a[..k][0] != b[..k][0];
        }
      }
    } else {
      NameLeIsLexicographic(a[1..], b[1..]);
      var x, y := a[1..], b[1..];
      assert a == [a[0]] + x && b == [b[0]] + y;
      if k :| 0 <= k < |x| && k < |y| && x[..k] == y[..k] && x[k] < y[k] {
        assert a[..k + 1] == [a[0]] + x[..k] && b[..k + 1] == [b[0]] + y[..k];
        assert a[k + 1] < b[k + 1];
      }
      if k :| 0 <= k < |a| && k < |b| && a[..k] == b[..k] && a[k] < b[k] {
        assert x[..k - 1] == a[..k][1..] && y[..k - 1] == b[..k][1..];
        assert x[k - 1] < y[k - 1];
      }
    }
  }

  // ---------------------------------------------------------------------------------------
  // Decimal numbers

  const DIGITS := "0123456789"

  predicate IsDigit(c: char) {
    '0' <= c <= '9'
  }

  function DigitValue(c: char): nat
    requires IsDigit(c)
  {
    c as int - '0' as int
  }

  /** `to_string` of an unsigned number. */
  function Dec(n: nat): (s: string)
    ensures s != [] && forall k :: 0 <= k < |s| ==> IsDigit(s[k])
  {
    if n < 10 then [DIGITS[n]] else Dec(n / 10) + [DIGITS[n % 10]]
  }

  function ParseDigits(s: string): nat
    requires forall k :: 0 <= k < |s| ==> IsDigit(s[k])
  {
    if s == [] then 0 else 10 * ParseDigits(s[..|s| - 1]) + DigitValue(s[|s| - 1])
  }

  /** `str::parse` to an unsigned type with the given maximum: an optional plus sign and at
      least one digit. */
  function ParseUnsigned(s: string, max: nat): Option<nat> {
    var digits := if s != [] && s[0] == '+' then s[1..] else s;
    if digits == [] || exists k :: 0 <= k < |digits| && !IsDigit(digits[k]) then None
    else
      var n := ParseDigits(digits);
      if n <= max then Some(n) else None
  }

  lemma {:induction false} ParseDec(n: nat)
    ensures ParseDigits(Dec(n)) == n
  {
    if n >= 10 {
      ParseDec(n / 10);
      assert Dec(n)[..|Dec(n)| - 1] == Dec(n / 10);
    } else {
      assert ParseDigits([]) == 0;
      assert Dec(n)[..0] == [];
    }
  }

  /** A printed number is read back, and rejected only if it is too large for the type. */
  lemma ParseUnsignedDec(n: nat, max: nat)
    ensures ParseUnsigned(Dec(n), max) == if n <= max then Some(n) else None
  {
    ParseDec(n);
  }

  /** One plus sign is allowed in front; a sign alone, or nothing, is no number. */
  lemma ParseUnsignedSign(n: nat, max: nat)
    ensures ParseUnsigned("+" + Dec(n), max) == ParseUnsigned(Dec(n), max)
    ensures ParseUnsigned("+", max) == None && ParseUnsigned("", max) == None
  {
    assert ("+" + Dec(n))[1..] == Dec(n);
  }

  lemma DecInjective(m: nat, n: nat)
    requires Dec(m) == Dec(n)
    ensures m == n
  {
    ParseDec(m);
    ParseDec(n);
  }

  /** Followed by something that is not a digit, a printed number can be told from any other. */
  lemma DecUnique(m: nat, x: string, n: nat, y: string)
    requires x != [] && y != [] && !IsDigit(x[0]) && !IsDigit(y[0])
    requires Dec(m) + x == Dec(n) + y
    ensures m == n && x == y
  {
    if |Dec(m)| <= |Dec(n)| {
      Overlap(Dec(m), x, Dec(n), y);
    } else {
      Overlap(Dec(n), y, Dec(m), x);
    }
    DecInjective(m, n);
  }
}
