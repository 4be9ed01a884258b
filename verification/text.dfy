/** The few Python `str` operations the worker relies on, over ASCII.
    Python classifies characters with Unicode tables; this model classifies only
    ASCII and treats every other character as a non-space, non-digit, non-letter
    that lower-casing leaves alone. */
module Text {

  /** `c.isspace()` (equivalently, regex `\s`) on ASCII: space, `\t \n \v \f \r`
      and the four separator controls `\x1c`..`\x1f`. */
  predicate IsSpace(c: char) {
    c == ' ' || c == '\t' || c == '\n' || c == '\U{000B}' || c == '\U{000C}' || c == '\r'
    || ('\U{001C}' <= c <= '\U{001F}')
  }

  /** Regex `\d` on ASCII. */
  predicate IsDigit(c: char) {
    '0' <= c <= '9'
  }

  /** Regex `[a-zA-Z]`. */
  predicate IsLetter(c: char) {
    ('a' <= c <= 'z') || ('A' <= c <= 'Z')
  }

  /** True when every character of `s` is whitespace (so `s.strip()` is falsy). */
  ghost predicate Blank(s: string) {
    forall k :: 0 <= k < |s| ==> IsSpace(s[k])
  }

  predicate StartsWith(s: string, prefix: string) {
    |prefix| <= |s| && s[..|prefix|] == prefix
  }

  predicate EndsWith(s: string, suffix: string) {
    |suffix| <= |s| && s[|s| - |suffix|..] == suffix
  }

  /** The index of the first non-whitespace character of `s` at or after `i`
      (or `|s|` when there is none). */
  function SkipSpaces(s: string, i: nat): (r: nat)
    requires i <= |s|
    ensures i <= r <= |s|
    ensures forall k :: i <= k < r ==> IsSpace(s[k])
    ensures r < |s| ==> !IsSpace(s[r])
    decreases |s| - i
  {
    if i < |s| && IsSpace(s[i]) then SkipSpaces(s, i + 1) else i
  }

  /** The end of `s[lo..j]` once its trailing whitespace is dropped. */
  function SkipSpacesBack(s: string, lo: nat, j: nat): (r: nat)
    requires lo <= j <= |s|
    ensures lo <= r <= j
    ensures forall k :: r <= k < j ==> IsSpace(s[k])
    ensures r > lo ==> !IsSpace(s[r - 1])
    decreases j
  {
    if j > lo && IsSpace(s[j - 1]) then SkipSpacesBack(s, lo, j - 1) else j
  }

  /** Where `s.strip()` starts in `s`. */
  function StripStart(s: string): nat
    ensures StripStart(s) <= |s|
  {
    SkipSpaces(s, 0)
  }

  /** Where `s.strip()` ends in `s`. */
  function StripEnd(s: string): (r: nat)
    ensures StripStart(s) <= r <= |s|
  {
    SkipSpacesBack(s, StripStart(s), |s|)
  }

  /** `s.strip()`: the middle slice of `s` between leading and trailing whitespace. */
  function Strip(s: string): (r: string)
    ensures |r| <= |s|
    ensures |r| > 0 ==> !IsSpace(r[0]) && !IsSpace(r[|r| - 1])
    ensures r == [] <==> Blank(s)
    ensures r == s[StripStart(s)..StripEnd(s)]
    ensures Blank(s[..StripStart(s)]) && Blank(s[StripEnd(s)..])
  {
    var a, b := StripStart(s), StripEnd(s);
    assert a == b ==> a == |s|;
    assert Blank(s[..a]) && Blank(s[b..]);
    assert a < b ==> !Blank(s) by {
      if a < b { assert !IsSpace(s[a]); }
    }
    s[a..b]
  }

  /** The lower-case image of one character under ASCII `str.lower()`. */
  function LowerChar(c: char): char {
    if 'A' <= c <= 'Z' then (c as int - 'A' as int + 'a' as int) as char else c
  }

  /** `s.lower()` over ASCII. */
  function Lower(s: string): (r: string)
    ensures |r| == |s|
    ensures forall k :: 0 <= k < |s| ==> r[k] == LowerChar(s[k])
  {
    seq(|s|, k requires 0 <= k < |s| => LowerChar(s[k]))
  }

  function DigitChar(d: nat): char
    requires d < 10
  {
    ('0' as int + d) as char
  }

  /** The value of one decimal digit. */
  function DigitValue(c: char): (d: nat)
    requires IsDigit(c)
    ensures d < 10 && DigitChar(d) == c
  {
    c as int - '0' as int
  }

  /** The number a string of decimal digits denotes, read left to right as
      `10 * value + digit` (the independent reading of what `str(n)` writes). */
  function DecimalValue(ds: string): nat
    requires forall k :: 0 <= k < |ds| ==> IsDigit(ds[k])
  {
    if ds == [] then 0 else 10 * DecimalValue(ds[..|ds| - 1]) + DigitValue(ds[|ds| - 1])
  }

  /** `str(n)` for a non-negative int: its decimal digits, most significant first,
      with no leading zero. */
  function NatToString(n: nat): (r: string)
    ensures |r| > 0
    ensures forall k :: 0 <= k < |r| ==> IsDigit(r[k])
    ensures DecimalValue(r) == n
    ensures |r| > 1 ==> r[0] != '0'
    ensures n > 0 ==> r[0] != '0'
  {
    if n < 10 then
      [DigitChar(n)]
    else
      var front := NatToString(n / 10);
      var r := front + [DigitChar(n % 10)];
      assert r[..|r| - 1] == front;
      assert DigitValue(r[|r| - 1]) == n % 10;
      r
  }

  /** Distinct numbers are written differently. */
  lemma NatToStringInjective(m: nat, n: nat)
    ensures NatToString(m) == NatToString(n) <==> m == n
  {
    if NatToString(m) == NatToString(n) {
      assert DecimalValue(NatToString(m)) == DecimalValue(NatToString(n));
    }
  }

  /** The first index at or after `i` holding `c`, or `|s|` when there is none. */
  function IndexFrom(s: string, c: char, i: nat): (r: nat)
    requires i <= |s|
    ensures i <= r <= |s|
    ensures forall k :: i <= k < r ==> s[k] != c
    ensures r < |s| ==> s[r] == c
    decreases |s| - i
  {
    if i == |s| || s[i] == c then i else IndexFrom(s, c, i + 1)
  }

  /** The last index before `j` holding `c`, or -1 when there is none
      (`s.rfind(c)` is `LastIndexBefore(s, c, |s|)`). */
  function LastIndexBefore(s: string, c: char, j: nat): (r: int)
    requires j <= |s|
    ensures -1 <= r < j
    ensures forall k :: r < k < j ==> s[k] != c
    ensures r >= 0 ==> s[r] == c
  {
    if j == 0 then -1 else if s[j - 1] == c then j - 1 else LastIndexBefore(s, c, j - 1)
  }

  /** `s.split(sep)` with a one-character separator: the maximal runs between
      separators, possibly empty, and never an empty list. */
  function Split(s: string, sep: char): (parts: seq<string>)
    ensures |parts| >= 1
    ensures (forall k :: 0 <= k < |s| ==> s[k] != sep) ==> parts == [s]
    ensures forall i, k :: 0 <= i < |parts| && 0 <= k < |parts[i]| ==> parts[i][k] != sep
    decreases |s|
  {
    var j := IndexFrom(s, sep, 0);
    if j == |s| then [s] else [s[..j]] + Split(s[j + 1..], sep)
  }

  /** Appending a string that starts with `c` does not move the first `c`
      found from `i` onwards. */
  lemma {:induction false} IndexFromExtend(p: string, c: char, i: nat, t: string)
    requires i <= |p| && |t| > 0 && t[0] == c
    ensures IndexFrom(p + t, c, i) == IndexFrom(p, c, i)
    decreases |p| - i
  {
    var s := p + t;
    if i == |p| {
      assert s[i] == c;
    } else {
      assert s[i] == p[i];
      if p[i] != c {
        IndexFromExtend(p, c, i + 1, t);
      }
    }
  }

  /** Splitting `p + sep + q` splits `p` and `q` separately. */
  lemma {:induction false} SplitAppend(p: string, sep: char, q: string)
    ensures Split(p + [sep] + q, sep) == Split(p, sep) + Split(q, sep)
    decreases |p|
  {
    var s := p + [sep] + q;
    assert s == p + ([sep] + q);
    IndexFromExtend(p, sep, 0, [sep] + q);
    var j := IndexFrom(p, sep, 0);
    assert s[..j] == p[..j];
    if j == |p| {
      assert s[j + 1..] == q;
    } else {
      assert s[j + 1..] == p[j + 1..] + [sep] + q;
      SplitAppend(p[j + 1..], sep, q);
    }
  }

  /** Where each of five concatenated parts sits in the whole. */
  lemma FiveParts(a: string, b: string, c: string, d: string, e: string)
    ensures var p := a + b + c + d + e;
            && |p| == |a| + |b| + |c| + |d| + |e|
            && StartsWith(p, a)
            && p[|a|..|a| + |b|] == b
            && p[|a| + |b|..|a| + |b| + |c|] == c
            && p[|a| + |b| + |c|..|p| - |e|] == d
            && EndsWith(p, e)
  {
    var p := a + b + c + d + e;
    assert p[..|a|] == a;
    assert p[|a|..|a| + |b|] == b;
    assert p[|a| + |b|..|a| + |b| + |c|] == c;
    assert p[|a| + |b| + |c|..|p| - |e|] == d;
    assert p[|p| - |e|..] == e;
  }

  /** A string is its part before position `i`, the character there, and the rest. */
  lemma SplitAt(s: string, i: nat)
    requires i < |s|
    ensures s == s[..i] + [s[i]] + s[i + 1..]
  {
  }

  /** In `a + [c] + b` with no `c` in `a`, the first `c` is the one after `a`. */
  lemma FirstOccurrence(s: string, a: string, c: char, b: string)
    requires s == a + [c] + b && forall k :: 0 <= k < |a| ==> a[k] != c
    ensures IndexFrom(s, c, 0) == |a| && s[..|a|] == a && s[|a| + 1..] == b
  {
    assert s[|a|] == c;
    assert forall k :: 0 <= k < |a| ==> s[k] == a[k];
  }

  /** In `a + [c] + b` with no `c` in `b`, the last `c` is the one after `a`. */
  lemma LastOccurrence(s: string, a: string, c: char, b: string)
    requires s == a + [c] + b && forall k :: 0 <= k < |b| ==> b[k] != c
    ensures LastIndexBefore(s, c, |s|) == |a| && s[..|a|] == a && s[|a| + 1..] == b
  {
    assert s[|a|] == c;
    assert forall k :: |a| < k < |s| ==> s[k] == b[k - |a| - 1];
  }

  /** Concatenation of three parts regrouped. */
  lemma Regroup(a: string, b: string, c: string)
    ensures a + (b + c) == a + b + c
  {
  }

  /** Concatenation regrouped. */
  lemma ConcatRegroup(a: string, b: string, c: string, d: string, e: string)
    ensures a + b + (c + d + e) == a + b + c + d + e
  {
  }
}
