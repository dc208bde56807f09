/** The .NET string operations the collector relies on, stated over
    `seq<char>`: trimming, ordinal search, replacement, splitting and joining,
    and the decimal conversions of `int.ToString()` and `int.Parse`. Every
    comparison here is ordinal, and a `char` is a Unicode scalar value where
    .NET works on UTF-16 code units: the two agree on text inside the Basic
    Multilingual Plane. */
module Strings {
  import opened Wrappers

  /** `char.IsWhiteSpace`: the characters `String.Trim()` removes. */
  predicate IsWhiteSpace(c: char) {
    || c == ' ' || ('\t' <= c <= '\r') || c == '\U{0085}' || c == '\U{00A0}'
    || c == '\U{1680}' || ('\U{2000}' <= c <= '\U{200A}') || c == '\U{2028}'
    || c == '\U{2029}' || c == '\U{202F}' || c == '\U{205F}' || c == '\U{3000}'
  }

  predicate IsBlank(s: string) {
    forall i :: 0 <= i < |s| ==> IsWhiteSpace(s[i])
  }

  /** `String.TrimStart()`: drops the leading white space and nothing else
      (`TrimStartDrops`). */
  function TrimStart(s: string): (r: string)
    ensures |r| <= |s|
    ensures r == [] || !IsWhiteSpace(r[0])
  {
    if |s| > 0 && IsWhiteSpace(s[0]) then TrimStart(s[1..]) else s
  }

  /** What `TrimStart` keeps is a suffix, and what it drops is white space. */
  lemma {:induction false} TrimStartDrops(s: string)
    ensures TrimStart(s) == s[|s| - |TrimStart(s)|..]
    ensures IsBlank(s[..|s| - |TrimStart(s)|])
  {
    if |s| > 0 && IsWhiteSpace(s[0]) {
      TrimStartDrops(s[1..]);
      var r := TrimStart(s);
      assert s[..|s| - |r|] == [s[0]] + s[1..][..|s| - 1 - |r|];
    }
  }

  /** `String.TrimEnd()`: drops the trailing white space and nothing else
      (`TrimEndDrops`). */
  function TrimEnd(s: string): (r: string)
    ensures |r| <= |s|
    ensures r == [] || !IsWhiteSpace(r[|r| - 1])
  {
    if |s| > 0 && IsWhiteSpace(s[|s| - 1]) then TrimEnd(s[..|s| - 1]) else s
  }

  /** What `TrimEnd` keeps is a prefix, and what it drops is white space. */
  lemma {:induction false} TrimEndDrops(s: string)
    ensures TrimEnd(s) == s[..|TrimEnd(s)|]
    ensures IsBlank(s[|TrimEnd(s)|..])
  {
    if |s| > 0 && IsWhiteSpace(s[|s| - 1]) {
      TrimEndDrops(s[..|s| - 1]);
      var r := TrimEnd(s);
      assert s[|r|..] == s[..|s| - 1][|r|..] + [s[|s| - 1]];
    }
  }

  /** `String.Trim()`. The result is empty exactly when the input is all white
      space, and otherwise starts and ends with a character that is not. */
  function Trim(s: string): (r: string)
    ensures r == [] <==> IsBlank(s)
    ensures r != [] ==> !IsWhiteSpace(r[0]) && !IsWhiteSpace(r[|r| - 1])
    ensures |r| <= |s|
  {
    var a := TrimStart(s);
    var b := TrimEnd(a);
    TrimStartDrops(s);
    TrimEndDrops(a);
    if b != [] then
      assert b[0] == a[0];
      b
    else
      assert s == s[..|s| - |a|] + a;
      b
  }

  /** `String.TrimEnd(c)`: drops every trailing occurrence of `c`. */
  function TrimEndChar(s: string, c: char): (r: string)
    ensures |r| <= |s| && r == s[..|r|]
    ensures forall i :: |r| <= i < |s| ==> s[i] == c
    ensures r == [] || r[|r| - 1] != c
  {
    if |s| > 0 && s[|s| - 1] == c then TrimEndChar(s[..|s| - 1], c) else s
  }

  predicate StartsWith(s: string, prefix: string) {
    |prefix| <= |s| && s[..|prefix|] == prefix
  }

  predicate EndsWith(s: string, suffix: string) {
    |suffix| <= |s| && s[|s| - |suffix|..] == suffix
  }

  lemma EndsWithAfter(x: string, y: string, suffix: string)
    requires EndsWith(y, suffix)
    ensures EndsWith(x + y, suffix)
  {
    assert (x + y)[|x + y| - |suffix|..] == y[|y| - |suffix|..];
  }

  lemma StartsWithBefore(x: string, y: string)
    ensures StartsWith(x + y, x)
  {
    assert (x + y)[..|x|] == x;
  }

  /** `p` occurs in `s` starting at index `i`. */
  predicate OccursAt(s: string, p: string, i: int) {
    0 <= i && i + |p| <= |s| && s[i..i + |p|] == p
  }

  /** `String.Contains(p)` (ordinal). */
  predicate Contains(s: string, p: string) {
    exists i | 0 <= i <= |s| - |p| :: OccursAt(s, p, i)
  }

  /** `String.IndexOf(p, from)` (ordinal): the first occurrence at or after
      `from`, or -1 when there is none. */
  function IndexOfFrom(s: string, p: string, from: int): (r: int)
    requires 0 <= from <= |s|
    ensures r == -1 || (from <= r && OccursAt(s, p, r))
    ensures forall i :: from <= i && (r == -1 || i < r) ==> !OccursAt(s, p, i)
    decreases |s| - from
  {
    if from + |p| > |s| then -1
    else if OccursAt(s, p, from) then from
    else IndexOfFrom(s, p, from + 1)
  }

  function IndexOf(s: string, p: string): (r: int)
    ensures r == -1 <==> !Contains(s, p)
    ensures r != -1 ==> OccursAt(s, p, r) && forall i :: 0 <= i < r ==> !OccursAt(s, p, i)
  {
    IndexOfFrom(s, p, 0)
  }

  /** `String.LastIndexOf(c)`. */
  function LastIndexOfChar(s: string, c: char): (r: int)
    ensures -1 <= r < |s|
    ensures r >= 0 ==> s[r] == c
    ensures forall i :: r < i < |s| ==> s[i] != c
  {
    if |s| == 0 then -1
    else if s[|s| - 1] == c then |s| - 1
    else LastIndexOfChar(s[..|s| - 1], c)
  }

  /** Position of `x` in a list (`List.IndexOf`), or -1. */
  function IndexOfItem(xs: seq<string>, x: string): (r: int)
    ensures r == -1 <==> x !in xs
    ensures r != -1 ==> 0 <= r < |xs| && xs[r] == x && x !in xs[..r]
  {
    if |xs| == 0 then -1
    else if xs[0] == x then 0
    else
      var k := IndexOfItem(xs[1..], x);
      if k == -1 then -1
      else
        assert xs[1..][..k] == xs[1..k + 1];
        assert xs[..k + 1] == [xs[0]] + xs[1..k + 1];
        k + 1
  }

  /** `String.Replace(p, r)`: one left-to-right pass replacing the
      non-overlapping occurrences of `p`. */
  function Replace(s: string, p: string, r: string): (t: string)
    requires |p| > 0
    ensures |r| <= |p| ==> |t| <= |s|
    decreases |s|
  {
    if |s| < |p| then s
    else if s[..|p|] == p then r + Replace(s[|p|..], p, r)
    else [s[0]] + Replace(s[1..], p, r)
  }

  /** `String.Split(c)`: the pieces between occurrences of `c`; never empty. */
  function Split(s: string, c: char): (r: seq<string>)
    ensures |r| >= 1
    ensures forall k :: 0 <= k < |r| ==> c !in r[k]
    decreases |s|
  {
    var i := IndexOfFrom(s, [c], 0);
    if i < 0 then
      assert c !in s by {
        forall j | 0 <= j < |s| ensures s[j] != c { assert !OccursAt(s, [c], j); }
      }
      [s]
    else
      assert c !in s[..i] by {
        forall j | 0 <= j < i ensures s[j] != c { assert !OccursAt(s, [c], j); }
      }
      [s[..i]] + Split(s[i + 1..], c)
  }

  /** `string.Join(sep, parts)`. */
  function Join(sep: string, parts: seq<string>): string {
    if |parts| == 0 then ""
    else if |parts| == 1 then parts[0]
    else parts[0] + sep + Join(sep, parts[1..])
  }

  /** The characters `ReplaceLineEndings` recognises as line endings:
      CR, LF, FF, NEL, LS and PS. */
  predicate IsLineEnding(c: char) {
    c == '\r' || c == '\n' || c == '\U{000C}' || c == '\U{0085}' || c == '\U{2028}' || c == '\U{2029}'
  }

  /** `a` can be obtained from `b` by deleting characters. */
  predicate IsSubsequence(a: string, b: string) {
    if |a| == 0 then true
    else if |b| == 0 then false
    else if a[0] == b[0] then IsSubsequence(a[1..], b[1..])
    else IsSubsequence(a, b[1..])
  }

  /** `ReplaceLineEndings("")`: every line ending (CRLF included) removed,
      and every other character kept, in order and with its count. */
  function RemoveLineEndings(s: string): (r: string)
    ensures forall i :: 0 <= i < |r| ==> !IsLineEnding(r[i])
    ensures |r| <= |s|
    ensures IsSubsequence(r, s)
    ensures forall c :: !IsLineEnding(c) ==> multiset(r)[c] == multiset(s)[c]
  {
    if |s| == 0 then ""
    else
      var rest := RemoveLineEndings(s[1..]);
      assert s == [s[0]] + s[1..];
      if IsLineEnding(s[0]) then
        assert rest == [] || rest[0] != s[0];
        rest
      else
        assert ([s[0]] + rest)[1..] == rest;
        [s[0]] + rest
  }

  function Repeat(c: char, n: nat): (r: string)
    ensures |r| == n && forall i :: 0 <= i < n ==> r[i] == c
  {
    seq(n, _ => c)
  }

  // ---------------------------------------------------------------------
  // Decimal conversions
  // ---------------------------------------------------------------------

  const Int32Min: int := -0x8000_0000
  const Int32Max: int := 0x7FFF_FFFF

  predicate IsInt32(n: int) { Int32Min <= n <= Int32Max }

  /** Unchecked 32-bit two's-complement wrap-around, as `counter[date]++` does. */
  function Wrap32(n: int): (r: int)
    ensures IsInt32(r)
    ensures IsInt32(n) ==> r == n
    ensures (r - n) % 0x1_0000_0000 == 0
  {
    (n - Int32Min) % 0x1_0000_0000 + Int32Min
  }

  predicate IsDigit(c: char) { '0' <= c <= '9' }

  predicate AllDigits(s: string) { forall i :: 0 <= i < |s| ==> IsDigit(s[i]) }

  function DigitChar(d: nat): (c: char)
    requires d < 10
    ensures IsDigit(c) && c as int - '0' as int == d
  {
    (d + '0' as int) as char
  }

  /** Decimal digits of `n`, most significant first, without leading zeros. */
  function NatToString(n: nat): (r: string)
    ensures |r| >= 1 && AllDigits(r)
    ensures |r| > 1 ==> r[0] != '0'
  {
    if n < 10 then [DigitChar(n)] else NatToString(n / 10) + [DigitChar(n % 10)]
  }

  /** `int.ToString()` under the invariant culture. */
  function IntToString(n: int): (r: string)
    ensures |r| >= 1
    ensures forall i :: 0 <= i < |r| ==> IsDigit(r[i]) || (i == 0 && r[i] == '-')
  {
    if n < 0 then "-" + NatToString(-n) else NatToString(n)
  }

  function DigitsValue(s: string): nat
    requires AllDigits(s)
  {
    if |s| == 0 then 0 else DigitsValue(s[..|s| - 1]) * 10 + (s[|s| - 1] as int - '0' as int)
  }

  lemma {:induction false} NatToStringValue(n: nat)
    ensures DigitsValue(NatToString(n)) == n
  {
    if n >= 10 {
      NatToStringValue(n / 10);
      var r := NatToString(n);
      assert r[..|r| - 1] == NatToString(n / 10);
    }
  }

  /** The white space `int.Parse` tolerates around a number. */
  predicate IsNumberWhite(c: char) { c == ' ' || ('\t' <= c <= '\r') }

  function StripNumberWhite(s: string): (r: string)
    ensures |r| <= |s|
    ensures |s| > 0 && !IsNumberWhite(s[0]) && !IsNumberWhite(s[|s| - 1]) ==> r == s
    decreases |s|
  {
    if |s| > 0 && IsNumberWhite(s[0]) then StripNumberWhite(s[1..])
    else if |s| > 0 && IsNumberWhite(s[|s| - 1]) then StripNumberWhite(s[..|s| - 1])
    else s
  }

  /** `int.Parse(s)`: optional surrounding white space, an optional sign and
      at least one decimal digit, within the 32-bit range; anything else
      throws (None). */
  function ParseInt32(s: string): (r: Option<int>)
    ensures r.Some? ==> IsInt32(r.value)
  {
    var t := StripNumberWhite(s);
    if |t| == 0 then None
    else
      var negative := t[0] == '-';
      var digits := if t[0] == '-' || t[0] == '+' then t[1..] else t;
      if |digits| == 0 || !AllDigits(digits) then None
      else
        var d: int := DigitsValue(digits);
        var v := if negative then -d else d;
        if IsInt32(v) then Some(v) else None
  }

  /** `int.Parse` reads back what `int.ToString` writes. */
  lemma {:induction false} ParseIntToString(n: int)
    requires IsInt32(n)
    ensures ParseInt32(IntToString(n)) == Some(n)
  {
    var s := IntToString(n);
    assert !IsNumberWhite(s[0]) && !IsNumberWhite(s[|s| - 1]);
    if n < 0 {
      NatToStringValue(-n);
      assert s[1..] == NatToString(-n);
    } else {
      NatToStringValue(n);
    }
  }

  /** The printed sign and digits give the number back. */
  lemma IntToStringValue(n: int)
    ensures var r := IntToString(n);
      && (n < 0 <==> r[0] == '-')
      && (n < 0 ==> AllDigits(r[1..]) && DigitsValue(r[1..]) == -n)
      && (n >= 0 ==> AllDigits(r) && DigitsValue(r) == n)
  {
    if n < 0 {
      NatToStringValue(-n);
      assert IntToString(n)[1..] == NatToString(-n);
    } else {
      NatToStringValue(n);
    }
  }

  /** Different numbers print differently. */
  lemma IntToStringInjective(a: int, b: int)
    requires IntToString(a) == IntToString(b)
    ensures a == b
  {
    IntToStringValue(a);
    IntToStringValue(b);
  }

  // ---------------------------------------------------------------------
  // Lemmas about search, replacement, splitting and joining
  // ---------------------------------------------------------------------

  /** An occurrence found by `IndexOfFrom` is the first one from `from`. */
  lemma IndexOfFromFirst(s: string, p: string, from: int, at: int)
    requires 0 <= from <= at
    requires OccursAt(s, p, at)
    requires forall i :: from <= i < at ==> !OccursAt(s, p, i)
    ensures IndexOfFrom(s, p, from) == at
  {
  }

  /** Replacing a pattern that does not occur changes nothing. */
  lemma {:induction false} ReplaceAbsent(s: string, p: string, r: string)
    requires |p| > 0
    requires !Contains(s, p)
    ensures Replace(s, p, r) == s
    decreases |s|
  {
    if |s| >= |p| {
      assert !OccursAt(s, p, 0);
      assert !Contains(s[1..], p) by {
        forall i | 0 <= i <= |s[1..]| - |p| ensures !OccursAt(s[1..], p, i) {
          assert s[1..][i..i + |p|] == s[i + 1..i + 1 + |p|];
          assert !OccursAt(s, p, i + 1);
        }
      }
      ReplaceAbsent(s[1..], p, r);
    }
  }

  /** A pattern that occurs exactly once is replaced exactly there. */
  lemma {:induction false} ReplaceOnce(a: string, p: string, b: string, r: string)
    requires |p| > 0
    requires forall i :: OccursAt(a + p + b, p, i) ==> i == |a|
    ensures Replace(a + p + b, p, r) == a + r + b
    decreases |a|
  {
    if |a| == 0 {
      ReplaceOnceFront(a, p, b, r);
    } else {
      var s := a + p + b;
      ReplaceOnceShift(a, p, b);
      ReplaceOnce(a[1..], p, b, r);
      assert Replace(s, p, r) == [s[0]] + Replace(s[1..], p, r);
      assert [a[0]] + (a[1..] + r + b) == a + r + b;
    }
  }

  /** The single occurrence at the front is replaced and the rest kept. */
  lemma ReplaceOnceFront(a: string, p: string, b: string, r: string)
    requires |p| > 0 && |a| == 0
    requires forall i :: OccursAt(a + p + b, p, i) ==> i == |a|
    ensures Replace(a + p + b, p, r) == a + r + b
  {
    var s := a + p + b;
    assert s[..|p|] == p;
    assert s[|p|..] == b;
    assert !Contains(b, p) by {
      forall i | 0 <= i <= |b| - |p| ensures !OccursAt(b, p, i) {
        assert s[|p| + i..|p| + i + |p|] == b[i..i + |p|];
        assert !OccursAt(s, p, |p| + i);
      }
    }
    ReplaceAbsent(b, p, r);
  }

  /** Before the single occurrence, the first character is passed over and
      the occurrence is still the only one. */
  lemma ReplaceOnceShift(a: string, p: string, b: string)
    requires |p| > 0 && |a| > 0
    requires forall i :: OccursAt(a + p + b, p, i) ==> i == |a|
    ensures (a + p + b)[..|p|] != p
    ensures (a + p + b)[1..] == a[1..] + p + b
    ensures forall i :: OccursAt(a[1..] + p + b, p, i) ==> i == |a[1..]|
  {
    var s := a + p + b;
    assert !OccursAt(s, p, 0);
    assert s[1..] == a[1..] + p + b;
    forall i | OccursAt(a[1..] + p + b, p, i) ensures i == |a[1..]| {
      assert s[i + 1..i + 1 + |p|] == s[1..][i..i + |p|];
      assert OccursAt(s, p, i + 1);
    }
  }

  /** Joining pieces that do not contain `c` with `c` and splitting at `c`
      gives the pieces back. */
  lemma {:induction false} SplitJoin(parts: seq<string>, c: char)
    requires |parts| >= 1
    requires forall k :: 0 <= k < |parts| ==> c !in parts[k]
    ensures Split(Join([c], parts), c) == parts
  {
    var s := Join([c], parts);
    if |parts| == 1 {
      forall j | 0 <= j < |s| ensures !OccursAt(s, [c], j) {
        assert s[j] in parts[0];
      }
      assert IndexOfFrom(s, [c], 0) == -1;
    } else {
      var p0 := parts[0];
      var rest := Join([c], parts[1..]);
      assert s == p0 + [c] + rest;
      assert OccursAt(s, [c], |p0|);
      forall i | 0 <= i < |p0| ensures !OccursAt(s, [c], i) {
        assert s[i] == p0[i];
      }
      IndexOfFromFirst(s, [c], 0, |p0|);
      assert s[..|p0|] == p0;
      assert s[|p0| + 1..] == rest;
      SplitJoin(parts[1..], c);
    }
  }

  /** Splitting the empty string gives one empty piece. */
  lemma SplitEmpty(c: char)
    ensures Split("", c) == [""]
  {
  }
}
