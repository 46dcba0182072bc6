/**
  Bytes and the small string rules the scripts rely on: Python's `strip`, `lower`,
  `isalnum`, `capitalize`, `endswith`, `replace`, `str(int)`, substring search
  (`tag in data`) and UTF-8 encoding (`str.encode("utf-8")`).
  Character classes are restricted to ASCII: `isspace`, `isalnum`, `lower` and
  `upper` treat every non-ASCII character as neither space, letter nor digit,
  and leave it unchanged.
*/
module Text {

  newtype byte = b: int | 0 <= b < 256

  // ---------------------------------------------------------------------------
  // Substring search (`t in s` on str and bytes)
  // ---------------------------------------------------------------------------

  /** `t` occurs in `s` starting at index `i`. */
  predicate OccursAt<T(==)>(s: seq<T>, t: seq<T>, i: int)
  {
    0 <= i <= |s| - |t| && s[i..i + |t|] == t
  }

  /** `t` occurs in `s` as a contiguous run. */
  predicate Contains<T(==)>(s: seq<T>, t: seq<T>)
  {
    exists i :: 0 <= i <= |s| - |t| && OccursAt(s, t, i)
  }

  /** Whatever occurs in the middle part occurs in the whole. */
  lemma ContainsInMiddle<T>(a: seq<T>, b: seq<T>, c: seq<T>, t: seq<T>)
    requires Contains(b, t)
    ensures Contains(a + b + c, t)
  {
    var i :| 0 <= i <= |b| - |t| && OccursAt(b, t, i);
    var s := a + b + c;
    assert s[|a| + i..|a| + i + |t|] == b[i..i + |t|];
    assert OccursAt(s, t, |a| + i);
  }

  /** A sequence occurs in any sequence that has it as a middle part. */
  lemma ContainsSelf<T>(a: seq<T>, t: seq<T>, c: seq<T>)
    ensures Contains(a + t + c, t)
  {
    assert OccursAt(t, t, 0);
    ContainsInMiddle(a, t, c, t);
  }

  /** What occurs in a part occurs in the whole. */
  lemma ContainsTransitive<T>(s: seq<T>, m: seq<T>, t: seq<T>)
    requires Contains(s, m) && Contains(m, t)
    ensures Contains(s, t)
  {
    var i :| 0 <= i <= |s| - |m| && OccursAt(s, m, i);
    assert s == s[..i] + m + s[i + |m|..];
    ContainsInMiddle(s[..i], m, s[i + |m|..], t);
  }

  // ---------------------------------------------------------------------------
  // Character classes (ASCII)
  // ---------------------------------------------------------------------------

  /** `str.isspace` on one character, ASCII range: space, \t \n \v \f \r and the
      four separators \x1c..\x1f. */
  predicate IsSpace(c: char)
  {
    c == ' ' || c == '\t' || c == '\n' || c == '\r' || c == '\U{0B}' || c == '\U{0C}'
    || ('\U{1C}' <= c <= '\U{1F}')
  }

  predicate IsUpper(c: char) { 'A' <= c <= 'Z' }

  predicate IsLower(c: char) { 'a' <= c <= 'z' }

  predicate IsDigit(c: char) { '0' <= c <= '9' }

  predicate IsAlnumChar(c: char) { IsUpper(c) || IsLower(c) || IsDigit(c) }

  /** `str.isalnum`: non-empty and every character a letter or digit. */
  predicate IsAlnum(s: string)
  {
    |s| > 0 && forall i :: 0 <= i < |s| ==> IsAlnumChar(s[i])
  }

  function LowerChar(c: char): (r: char)
    ensures IsUpper(c) ==> r as int == c as int + 32
    ensures !IsUpper(c) ==> r == c
    ensures !IsUpper(r)
  {
    if IsUpper(c) then (c as int + 32) as char else c
  }

  function UpperChar(c: char): (r: char)
    ensures IsLower(c) ==> r as int == c as int - 32
    ensures !IsLower(c) ==> r == c
    ensures !IsLower(r)
  {
    if IsLower(c) then (c as int - 32) as char else c
  }

  /** `str.lower` (ASCII letters only). */
  function Lower(s: string): (r: string)
    ensures |r| == |s|
    ensures forall i :: 0 <= i < |s| ==> r[i] == LowerChar(s[i])
  {
    seq(|s|, i requires 0 <= i < |s| => LowerChar(s[i]))
  }

  lemma LowerKeepsAlnum(s: string)
    ensures IsAlnum(Lower(s)) <==> IsAlnum(s)
  {
    if IsAlnum(s) {
      assert forall i :: 0 <= i < |s| ==> IsAlnumChar(Lower(s)[i]);
    }
  }

  lemma LowerIdempotent(s: string)
    ensures Lower(Lower(s)) == Lower(s)
  {
  }

  /** `str.capitalize`: first character upper-cased, the rest lower-cased. */
  function Capitalize(s: string): (r: string)
    ensures |r| == |s|
    ensures |s| > 0 ==> r[0] == UpperChar(s[0]) && r[1..] == Lower(s[1..])
  {
    if |s| == 0 then "" else [UpperChar(s[0])] + Lower(s[1..])
  }

  /** `s.replace(from, to)` for single characters. */
  function ReplaceChar(s: string, from: char, to: char): (r: string)
    ensures |r| == |s|
    ensures forall i :: 0 <= i < |s| ==> r[i] == if s[i] == from then to else s[i]
  {
    seq(|s|, i requires 0 <= i < |s| => if s[i] == from then to else s[i])
  }

  predicate EndsWith(s: string, suffix: string)
  {
    |suffix| <= |s| && s[|s| - |suffix|..] == suffix
  }

  // ---------------------------------------------------------------------------
  // strip
  // ---------------------------------------------------------------------------

  /** Drops the leading characters that satisfy `drop`. */
  function DropLeading(s: string, drop: char -> bool): (r: string)
    ensures |r| <= |s| && r == s[|s| - |r|..]
    ensures forall i :: 0 <= i < |s| - |r| ==> drop(s[i])
    ensures |r| > 0 ==> !drop(r[0])
  {
    if |s| > 0 && drop(s[0]) then DropLeading(s[1..], drop) else s
  }

  /** Drops the trailing characters that satisfy `drop`. */
  function DropTrailing(s: string, drop: char -> bool): (r: string)
    ensures |r| <= |s| && r == s[..|r|]
    ensures forall i :: |r| <= i < |s| ==> drop(s[i])
    ensures |r| > 0 ==> !drop(r[|r| - 1])
  {
    if |s| > 0 && drop(s[|s| - 1]) then DropTrailing(s[..|s| - 1], drop) else s
  }

  /** `r` is `s[lo..lo + |r|]` and everything cut away on either side satisfies `drop`. */
  predicate StrippedAt(s: string, r: string, lo: int, drop: char -> bool)
  {
    0 <= lo <= |s| - |r| && r == s[lo..lo + |r|]
    && (forall i :: 0 <= i < lo ==> drop(s[i]))
    && (forall i :: lo + |r| <= i < |s| ==> drop(s[i]))
  }

  /** `s.strip(chars)`: the longest middle part whose two ends do not satisfy `drop`,
      everything cut away on either side satisfying it. */
  function StripBy(s: string, drop: char -> bool): (r: string)
    ensures exists lo :: 0 <= lo <= |s| - |r| && StrippedAt(s, r, lo, drop)
    ensures |r| > 0 ==> !drop(r[0]) && !drop(r[|r| - 1])
    ensures |r| == 0 ==> forall i :: 0 <= i < |s| ==> drop(s[i])
  {
    var a := DropLeading(s, drop);
    var r := DropTrailing(a, drop);
    var lo := |s| - |a|;
    assert StrippedAt(s, r, lo, drop);
    r
  }

  function IsSpaceFn(): char -> bool { c => IsSpace(c) }

  function IsCommaFn(): char -> bool { c => c == ',' }

  /** `s.strip()` (ASCII whitespace). */
  function Strip(s: string): string
  {
    StripBy(s, IsSpaceFn())
  }

  /** `s.strip(',')`. */
  function StripCommas(s: string): string
  {
    StripBy(s, IsCommaFn())
  }

  /** Nothing is stripped from a string whose two ends are kept. */
  lemma StripByKeeps(s: string, drop: char -> bool)
    requires |s| > 0 && !drop(s[0]) && !drop(s[|s| - 1])
    ensures StripBy(s, drop) == s
  {
    assert DropLeading(s, drop) == s;
  }

  /** A final dropped character goes, when what precedes it has kept ends. */
  lemma StripByDropsEnd(s: string, c: char, drop: char -> bool)
    requires |s| > 0 && !drop(s[0]) && !drop(s[|s| - 1]) && drop(c)
    ensures StripBy(s + [c], drop) == s
  {
    var t := s + [c];
    assert DropLeading(t, drop) == t;
    assert t[..|t| - 1] == s;
    assert DropTrailing(s, drop) == s;
  }

  lemma StripIdempotent(s: string, drop: char -> bool)
    ensures StripBy(StripBy(s, drop), drop) == StripBy(s, drop)
  {
    var r := StripBy(s, drop);
    var a := DropLeading(r, drop);
    assert |r| > 0 ==> a == r;
    assert |r| == 0 ==> a == r;
    var b := DropTrailing(a, drop);
    assert |a| > 0 ==> b == a;
  }

  // ---------------------------------------------------------------------------
  // Searching for one character
  // ---------------------------------------------------------------------------

  /** `s.rfind(c)`: the last index holding `c`, or -1. */
  function LastIndexOf(s: string, c: char): (r: int)
    ensures -1 <= r < |s|
    ensures r >= 0 ==> s[r] == c
    ensures forall i :: r < i < |s| ==> s[i] != c
  {
    if |s| == 0 then -1
    else if s[|s| - 1] == c then |s| - 1
    else LastIndexOf(s[..|s| - 1], c)
  }

  /** `s.find(c)`: the first index holding `c`, or -1. */
  function FirstIndexOf(s: string, c: char): (r: int)
    ensures -1 <= r < |s|
    ensures r >= 0 ==> s[r] == c
    ensures forall i :: 0 <= i < |s| && (r < 0 || i < r) ==> s[i] != c
  {
    if |s| == 0 then -1
    else if s[0] == c then 0
    else var k := FirstIndexOf(s[1..], c); if k < 0 then -1 else k + 1
  }

  /** `s.split(c)[-1]`: what follows the last `c` (all of `s` when there is none). */
  function AfterLast(s: string, c: char): (r: string)
    ensures forall i :: 0 <= i < |r| ==> r[i] != c
    ensures EndsWith(s, r)
    ensures |r| < |s| ==> s[|s| - |r| - 1] == c
  {
    if |s| == 0 || s[|s| - 1] == c then [] else AfterLast(s[..|s| - 1], c) + [s[|s| - 1]]
  }

  /** `s.split(c)[0]`: what precedes the first `c` (all of `s` when there is none). */
  function BeforeFirst(s: string, c: char): (r: string)
    ensures forall i :: 0 <= i < |r| ==> r[i] != c
    ensures |r| <= |s| && r == s[..|r|]
    ensures |r| < |s| ==> s[|r|] == c
  {
    if |s| == 0 || s[0] == c then [] else [s[0]] + BeforeFirst(s[1..], c)
  }

  /** What follows the last `c` of `a + [c] + t` is `t` when `t` has no `c`. */
  lemma AfterLastOf(a: string, c: char, t: string)
    requires forall i :: 0 <= i < |t| ==> t[i] != c
    ensures AfterLast(a + [c] + t, c) == t
  {
    var s := a + [c] + t;
    var r := AfterLast(s, c);
    assert s[|a|] == c;
  }

  /** What precedes the first `c` of `e + q` is `e` when `e` has no `c` and `q`
      is empty or starts with `c`. */
  lemma BeforeFirstOf(e: string, c: char, q: string)
    requires forall i :: 0 <= i < |e| ==> e[i] != c
    requires q == [] || q[0] == c
    ensures BeforeFirst(e + q, c) == e
  {
    var s := e + q;
    assert s[..|e|] == e;
    assert |s| > |e| ==> s[|e|] == c;
  }

  // ---------------------------------------------------------------------------
  // str(n) for n >= 0
  // ---------------------------------------------------------------------------

  function DigitChar(d: nat): (c: char)
    requires d < 10
    ensures IsDigit(c) && c as int - '0' as int == d
  {
    ('0' as int + d) as char
  }

  /** Decimal digits of `n`, most significant first, no leading zero. */
  function NatToString(n: nat): (s: string)
    ensures |s| > 0 && forall i :: 0 <= i < |s| ==> IsDigit(s[i])
    ensures |s| > 1 ==> s[0] != '0'
    decreases n
  {
    if n < 10 then [DigitChar(n)] else NatToString(n / 10) + [DigitChar(n % 10)]
  }

  /** Reads decimal digits back: the inverse of NatToString. */
  function DigitsValue(s: string): int
  {
    if |s| == 0 then 0 else 10 * DigitsValue(s[..|s| - 1]) + (s[|s| - 1] as int - '0' as int)
  }

  lemma {:induction false} NatToStringRoundTrip(n: nat)
    ensures DigitsValue(NatToString(n)) == n
    decreases n
  {
    if n >= 10 {
      var s := NatToString(n);
      assert s[..|s| - 1] == NatToString(n / 10);
      NatToStringRoundTrip(n / 10);
    }
  }

  lemma NatToStringInjective(m: nat, n: nat)
    requires NatToString(m) == NatToString(n)
    ensures m == n
  {
    NatToStringRoundTrip(m);
    NatToStringRoundTrip(n);
  }

  // ---------------------------------------------------------------------------
  // UTF-8 (`str.encode("utf-8")`); a Dafny char is a Unicode scalar value
  // ---------------------------------------------------------------------------

  function EncodeChar(c: char): (r: seq<byte>)
    ensures 1 <= |r| <= 4
    ensures c as int < 0x80 <==> |r| == 1
    ensures c as int < 0x80 ==> r[0] as int == c as int
    ensures forall i :: 1 <= i < |r| ==> 0x80 <= r[i] < 0xC0
  {
    var n := c as int;
    if n < 0x80 then [n as byte]
    else if n < 0x800 then [(0xC0 + n / 64) as byte, (0x80 + n % 64) as byte]
    else if n < 0x10000 then
      [(0xE0 + n / 4096) as byte, (0x80 + (n / 64) % 64) as byte, (0x80 + n % 64) as byte]
    else
      [(0xF0 + n / 262144) as byte, (0x80 + (n / 4096) % 64) as byte,
       (0x80 + (n / 64) % 64) as byte, (0x80 + n % 64) as byte]
  }

  /** The code point that one encoded character carries. */
  function DecodeChar(r: seq<byte>): int
    requires 1 <= |r| <= 4
  {
    if |r| == 1 then r[0] as int
    else if |r| == 2 then (r[0] as int - 0xC0) * 64 + (r[1] as int - 0x80)
    else if |r| == 3 then (r[0] as int - 0xE0) * 4096 + (r[1] as int - 0x80) * 64 + (r[2] as int - 0x80)
    else (r[0] as int - 0xF0) * 262144 + (r[1] as int - 0x80) * 4096
         + (r[2] as int - 0x80) * 64 + (r[3] as int - 0x80)
  }

  /** Base-64 digits of a number below 64^k, for the multi-byte forms. */
  lemma Digits64(n: int)
    requires 0 <= n
    ensures n / 4096 == (n / 64) / 64 && n / 262144 == ((n / 64) / 64) / 64
    ensures n == (n / 64) * 64 + n % 64
  {
    var q1 := n / 64;
    var q2 := q1 / 64;
    var q3 := q2 / 64;
    assert n == q2 * 4096 + (q1 % 64) * 64 + n % 64;
    assert n == q3 * 262144 + (q2 % 64) * 4096 + (q1 % 64) * 64 + n % 64;
  }

  lemma EncodeCharRoundTrip(c: char)
    ensures DecodeChar(EncodeChar(c)) == c as int
  {
    var n := c as int;
    Digits64(n);
    var q1 := n / 64;
    var q2 := q1 / 64;
    if n >= 0x10000 {
      assert n == (q2 / 64) * 262144 + (q2 % 64) * 4096 + (q1 % 64) * 64 + n % 64;
    } else if n >= 0x800 {
      assert n == q2 * 4096 + (q1 % 64) * 64 + n % 64;
    }
  }

  function Utf8(s: string): (r: seq<byte>)
    ensures |r| >= |s|
  {
    if |s| == 0 then [] else Utf8(s[..|s| - 1]) + EncodeChar(s[|s| - 1])
  }

  lemma {:induction false} Utf8Concat(a: string, b: string)
    ensures Utf8(a + b) == Utf8(a) + Utf8(b)
    decreases |b|
  {
    if |b| > 0 {
      var b' := b[..|b| - 1];
      assert (a + b)[..|a + b| - 1] == a + b';
      Utf8Concat(a, b');
    } else {
      assert a + b == a;
    }
  }

  /** A substring of the text is a substring of its encoding. */
  lemma Utf8PreservesContains(s: string, t: string)
    requires Contains(s, t)
    ensures Contains(Utf8(s), Utf8(t))
  {
    var i :| 0 <= i <= |s| - |t| && OccursAt(s, t, i);
    var a, c := s[..i], s[i + |t|..];
    assert s == a + t + c;
    Utf8Concat(a + t, c);
    Utf8Concat(a, t);
    ContainsSelf(Utf8(a), Utf8(t), Utf8(c));
  }

  /** ASCII text is encoded one byte per character, byte = code point. */
  lemma {:induction false} Utf8Ascii(s: string)
    requires forall i :: 0 <= i < |s| ==> s[i] as int < 0x80
    ensures |Utf8(s)| == |s|
    ensures forall i :: 0 <= i < |s| ==> Utf8(s)[i] as int == s[i] as int
  {
    if |s| > 0 {
      Utf8Ascii(s[..|s| - 1]);
    }
  }
}
