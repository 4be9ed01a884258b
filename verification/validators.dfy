/** The pure helpers of the validation utilities: e-mail and phone checks,
    whitespace clean-up, file-name sanitising and dotted-path lookup. Regular
    expressions are written out as the character scans they amount to; `\s`
    and `\d` are taken over ASCII. */
module Validators {
  import opened Wrappers
  import opened Text
  import opened Json

  // ------------------------------------------------------------ whitespace runs

  /** `re.sub(r'\s+', fill, s[i..])`: every maximal run of whitespace becomes
      one `fill`; every other character is copied. */
  function CollapseRuns(s: string, i: nat, fill: char): (r: string)
    requires i <= |s|
    ensures |r| == 0 <==> i == |s|
    ensures |r| > 0 && IsSpace(s[i]) ==> r[0] == fill
    ensures |r| > 0 && !IsSpace(s[i]) ==> r[0] == s[i]
    ensures forall k :: 0 <= k < |r| ==> r[k] == fill || (!IsSpace(r[k]) && r[k] in s)
    ensures forall k :: 0 <= k < |r| - 1 && r[k] == fill ==> r[k + 1] != fill || !IsSpace(fill)
    decreases |s| - i
  {
    if i == |s| then []
    else if IsSpace(s[i]) then [fill] + CollapseRuns(s, SkipSpaces(s, i), fill)
    else [s[i]] + CollapseRuns(s, i + 1, fill)
  }

  /** A string that run-collapsing with `fill` leaves alone from `i` on: each of
      its whitespace characters is `fill` and is followed by a non-space. */
  ghost predicate Collapsed(s: string, i: nat, fill: char) {
    forall k :: i <= k < |s| && IsSpace(s[k]) ==> s[k] == fill && k + 1 < |s| && !IsSpace(s[k + 1])
  }

  lemma {:induction false} CollapseRunsIdentity(s: string, i: nat, fill: char)
    requires i <= |s| && Collapsed(s, i, fill)
    ensures CollapseRuns(s, i, fill) == s[i..]
    decreases |s| - i
  {
    if i < |s| {
      if IsSpace(s[i]) {
        assert SkipSpaces(s, i + 1) == i + 1;
        assert SkipSpaces(s, i) == i + 1;
      }
      CollapseRunsIdentity(s, i + 1, fill);
      assert s[i..] == [s[i]] + s[i + 1..];
    }
  }

  /** Skipping whitespace inside `b` is the same with `p` in front of it. */
  lemma {:induction false} SkipSpacesShift(p: string, b: string, j: nat)
    requires j <= |b|
    ensures SkipSpaces(p + b, |p| + j) == |p| + SkipSpaces(b, j)
    decreases |b| - j
  {
    if j < |b| {
      assert (p + b)[|p| + j] == b[j];
      if IsSpace(b[j]) {
        SkipSpacesShift(p, b, j + 1);
      }
    }
  }

  /** Skipping whitespace from inside `a` stops where it stops in `a` alone,
      unless `a` ends in that run and `b` continues it. */
  lemma {:induction false} SkipSpacesPrefix(a: string, b: string, i: nat)
    requires i <= |a|
    requires SkipSpaces(a, i) < |a| || |b| == 0 || !IsSpace(b[0])
    ensures SkipSpaces(a + b, i) == SkipSpaces(a, i)
    decreases |a| - i
  {
    if i < |a| {
      assert (a + b)[i] == a[i];
      if IsSpace(a[i]) {
        SkipSpacesPrefix(a, b, i + 1);
      }
    } else if |b| > 0 {
      assert (a + b)[i] == b[0];
    }
  }

  /** Collapsing inside `b` is the same with `p` in front of it. */
  lemma {:induction false} CollapseRunsShift(p: string, b: string, j: nat, fill: char)
    requires j <= |b|
    ensures CollapseRuns(p + b, |p| + j, fill) == CollapseRuns(b, j, fill)
    decreases |b| - j
  {
    if j < |b| {
      assert (p + b)[|p| + j] == b[j];
      if IsSpace(b[j]) {
        SkipSpacesShift(p, b, j);
        CollapseRunsShift(p, b, SkipSpaces(b, j), fill);
      } else {
        CollapseRunsShift(p, b, j + 1, fill);
      }
    }
  }

  /** `a` and `b` do not meet inside one whitespace run. */
  predicate NoRunAcross(a: string, b: string) {
    |a| == 0 || |b| == 0 || !IsSpace(a[|a| - 1]) || !IsSpace(b[0])
  }

  /** Run-collapsing works piece by piece when no run straddles the seam. */
  lemma {:induction false} CollapseRunsAppend(a: string, b: string, i: nat, fill: char)
    requires i <= |a| && NoRunAcross(a, b)
    ensures CollapseRuns(a + b, i, fill) == CollapseRuns(a, i, fill) + CollapseRuns(b, 0, fill)
    decreases |a| - i
  {
    var s, tail := a + b, CollapseRuns(b, 0, fill);
    if i == |a| {
      CollapseRunsShift(a, b, 0, fill);
    } else if IsSpace(a[i]) {
      var next := SkipSpaces(a, i);
      assert s[i] == a[i];
      RunEndsInside(a, b, i);
      CollapseStep(s, i, fill);
      CollapseStep(a, i, fill);
      CollapseRunsAppend(a, b, next, fill);
      assert [fill] + (CollapseRuns(a, next, fill) + tail) == [fill] + CollapseRuns(a, next, fill) + tail;
    } else {
      assert s[i] == a[i];
      CollapseStep(s, i, fill);
      CollapseStep(a, i, fill);
      CollapseRunsAppend(a, b, i + 1, fill);
      assert [a[i]] + (CollapseRuns(a, i + 1, fill) + tail) == [a[i]] + CollapseRuns(a, i + 1, fill) + tail;
    }
  }

  /** One step of run-collapsing: a whitespace run or a single other character. */
  lemma CollapseStep(s: string, i: nat, fill: char)
    requires i < |s|
    ensures IsSpace(s[i]) ==> CollapseRuns(s, i, fill) == [fill] + CollapseRuns(s, SkipSpaces(s, i), fill)
    ensures !IsSpace(s[i]) ==> CollapseRuns(s, i, fill) == [s[i]] + CollapseRuns(s, i + 1, fill)
  {
  }

  /** A run starting inside `a` ends at the same place in `a + b` when no run
      straddles the seam. */
  lemma RunEndsInside(a: string, b: string, i: nat)
    requires i < |a| && IsSpace(a[i]) && NoRunAcross(a, b)
    ensures i < SkipSpaces(a, i) && SkipSpaces(a + b, i) == SkipSpaces(a, i)
  {
    if SkipSpaces(a, i) == |a| {
      assert IsSpace(a[|a| - 1]);
    }
    SkipSpacesPrefix(a, b, i);
  }

  /** A whole run of whitespace becomes a single `fill`. */
  lemma CollapseRunsBlank(w: string, fill: char)
    requires |w| > 0 && Blank(w)
    ensures CollapseRuns(w, 0, fill) == [fill]
  {
    assert SkipSpaces(w, 0) == |w|;
  }

  /** `re.sub(r'\s+', fill, a + w + b)` for a whitespace run `w` that neither
      `a` nor `b` continues: the run becomes one `fill` and both sides are
      collapsed on their own. */
  lemma CollapseRunsRun(a: string, w: string, b: string, fill: char)
    requires |w| > 0 && Blank(w)
    requires |a| == 0 || !IsSpace(a[|a| - 1])
    requires |b| == 0 || !IsSpace(b[0])
    ensures CollapseRuns(a + w + b, 0, fill) == CollapseRuns(a, 0, fill) + [fill] + CollapseRuns(b, 0, fill)
  {
    CollapseRunsAppend(a + w, b, 0, fill);
    CollapseRunsAppend(a, w, 0, fill);
    CollapseRunsBlank(w, fill);
  }

  /** A character outside any run is copied. */
  lemma CollapseRunsWord(a: string, c: char, fill: char)
    requires !IsSpace(c)
    ensures CollapseRuns(a + [c], 0, fill) == CollapseRuns(a, 0, fill) + [c]
  {
    CollapseRunsAppend(a, [c], 0, fill);
  }

  // ----------------------------------------------------------------- clean_text

  /** `re.sub(r'\n+', '\n', s[i..])`. */
  function SqueezeNewlines(s: string, i: nat): string
    requires i <= |s|
    decreases |s| - i
  {
    if i == |s| then []
    else if s[i] == '\n' then ['\n'] + SqueezeNewlines(s, NewlineRunEnd(s, i))
    else [s[i]] + SqueezeNewlines(s, i + 1)
  }

  /** The end of the run of newlines starting at `i`. */
  function NewlineRunEnd(s: string, i: nat): (j: nat)
    requires i < |s| && s[i] == '\n'
    ensures i < j <= |s|
    decreases |s| - i
  {
    if i + 1 < |s| && s[i + 1] == '\n' then NewlineRunEnd(s, i + 1) else i + 1
  }

  /** Squeezing newlines changes nothing in a text without any. */
  lemma {:induction false} SqueezeWithoutNewline(s: string, i: nat)
    requires i <= |s| && forall k :: i <= k < |s| ==> s[k] != '\n'
    ensures SqueezeNewlines(s, i) == s[i..]
    decreases |s| - i
  {
    if i < |s| {
      SqueezeWithoutNewline(s, i + 1);
      assert s[i..] == [s[i]] + s[i + 1..];
    }
  }

  /** What `clean_text` returns: single spaces between words, no other
      whitespace (in particular no newline), nothing at either end. */
  ghost predicate Normalised(s: string) {
    && (forall k :: 0 <= k < |s| && IsSpace(s[k]) ==> s[k] == ' ')
    && (forall k :: 0 <= k < |s| - 1 && IsSpace(s[k]) ==> !IsSpace(s[k + 1]))
    && (|s| > 0 ==> !IsSpace(s[0]) && !IsSpace(s[|s| - 1]))
  }

  /** `clean_text`: whitespace runs become one space, newline runs one newline
      (there are none left by then), and the ends are stripped. */
  function CleanText(text: string): (r: string)
    ensures Normalised(r)
    ensures forall k :: 0 <= k < |r| ==> r[k] != '\n'
  {
    if text == "" then ""
    else
      var collapsed := CollapseRuns(text, 0, ' ');
      SqueezeWithoutNewline(collapsed, 0);
      assert collapsed[0..] == collapsed;
      StripNormalises(collapsed);
      Strip(SqueezeNewlines(collapsed, 0))
  }

  /** A string whose only whitespace is single spaces is normalised once stripped. */
  lemma StripNormalises(c: string)
    requires forall k :: 0 <= k < |c| ==> c[k] == ' ' || !IsSpace(c[k])
    requires forall k :: 0 <= k < |c| - 1 && c[k] == ' ' ==> c[k + 1] != ' '
    ensures Normalised(Strip(c))
    ensures forall k :: 0 <= k < |Strip(c)| ==> Strip(c)[k] != '\n'
  {
    var r := Strip(c);
    assert forall k :: 0 <= k < |r| ==> r[k] == c[StripStart(c) + k];
  }

  /** A normalised text is its own clean-up. */
  lemma CleanTextFixes(s: string)
    requires Normalised(s)
    ensures CleanText(s) == s
  {
    if s != "" {
      CollapseRunsIdentity(s, 0, ' ');
      assert s[0..] == s;
      SqueezeWithoutNewline(s, 0);
      assert SkipSpaces(s, 0) == 0;
      assert SkipSpacesBack(s, 0, |s|) == |s|;
    }
  }

  /** `clean_text` is idempotent. */
  lemma CleanTextIdempotent(s: string)
    ensures CleanText(CleanText(s)) == CleanText(s)
  {
    CleanTextFixes(CleanText(s));
  }

  /** The non-whitespace characters of `s`, in order. */
  function NonSpace(s: string): (r: string)
    ensures forall k :: 0 <= k < |r| ==> !IsSpace(r[k])
  {
    if |s| == 0 then [] else (if IsSpace(s[0]) then [] else [s[0]]) + NonSpace(s[1..])
  }

  lemma {:induction false} NonSpaceAppend(a: string, b: string)
    ensures NonSpace(a + b) == NonSpace(a) + NonSpace(b)
    decreases |a|
  {
    if |a| > 0 {
      assert (a + b)[0] == a[0];
      assert (a + b)[1..] == a[1..] + b;
      NonSpaceAppend(a[1..], b);
    } else {
      assert a + b == b;
    }
  }

  lemma {:induction false} NonSpaceBlank(w: string)
    requires Blank(w)
    ensures NonSpace(w) == []
    decreases |w|
  {
    if |w| > 0 {
      assert forall k :: 0 <= k < |w| - 1 ==> w[1..][k] == w[k + 1];
      NonSpaceBlank(w[1..]);
    }
  }

  /** Collapsing runs into a whitespace `fill` keeps every other character, in order. */
  lemma {:induction false} CollapseRunsKeepsWords(s: string, i: nat, fill: char)
    requires i <= |s| && IsSpace(fill)
    ensures NonSpace(CollapseRuns(s, i, fill)) == NonSpace(s[i..])
    decreases |s| - i
  {
    if i < |s| {
      var next := if IsSpace(s[i]) then SkipSpaces(s, i) else i + 1;
      var head := if IsSpace(s[i]) then [fill] else [s[i]];
      assert CollapseRuns(s, i, fill) == head + CollapseRuns(s, next, fill);
      CollapseRunsKeepsWords(s, next, fill);
      NonSpaceAppend(head, CollapseRuns(s, next, fill));
      assert s[i..] == s[i..next] + s[next..];
      NonSpaceAppend(s[i..next], s[next..]);
      if IsSpace(s[i]) {
        NonSpaceBlank(head);
        NonSpaceBlank(s[i..next]);
      } else {
        assert s[i..next] == head;
      }
    }
  }

  /** Stripping drops whitespace only. */
  lemma StripKeepsWords(s: string)
    ensures NonSpace(Strip(s)) == NonSpace(s)
  {
    var a, b := StripStart(s), StripEnd(s);
    var pre, mid, suf := s[..a], s[a..b], s[b..];
    assert mid == Strip(s);
    assert s == pre + mid + suf;
    NonSpaceAppend(pre + mid, suf);
    NonSpaceAppend(pre, mid);
    NonSpaceBlank(pre);
    NonSpaceBlank(suf);
  }

  /** `clean_text` loses no word: its non-whitespace characters are exactly
      those of the input, in the same order. */
  lemma CleanTextKeepsWords(s: string)
    ensures NonSpace(CleanText(s)) == NonSpace(s)
  {
    if s != "" {
      var collapsed := CollapseRuns(s, 0, ' ');
      assert forall k :: 0 <= k < |collapsed| ==> collapsed[k] != '\n';
      SqueezeWithoutNewline(collapsed, 0);
      assert collapsed[0..] == collapsed;
      CollapseRunsKeepsWords(s, 0, ' ');
      assert s[0..] == s;
      StripKeepsWords(collapsed);
    }
  }

  /** Dropping trailing whitespace from `p + q` stops inside `q` when `q`
      starts with a non-space, exactly where it stops in `q` alone. */
  lemma {:induction false} SkipSpacesBackSuffix(p: string, q: string, lo: nat, j: nat)
    requires lo <= |p| && 0 < j <= |q| && !IsSpace(q[0])
    ensures SkipSpacesBack(p + q, lo, |p| + j) == |p| + SkipSpacesBack(q, 0, j)
    decreases j
  {
    assert (p + q)[|p| + j - 1] == q[j - 1];
    if IsSpace(q[j - 1]) {
      SkipSpacesBackSuffix(p, q, lo, j - 1);
    }
  }

  /** Stripping two stretches joined by one space, where the space touches a
      non-space on both sides, strips each stretch on its own. */
  lemma StripJoin(x: string, y: string)
    requires |x| > 0 && |y| > 0 && !IsSpace(x[|x| - 1]) && !IsSpace(y[0])
    ensures Strip(x + [' '] + y) == Strip(x) + [' '] + Strip(y)
  {
    var z := x + [' '] + y;
    var sx, ey := StripStart(x), StripEnd(y);
    JoinBounds(x, y);
    assert Strip(z) == z[sx..|x| + 1 + ey];
    assert Strip(x) == x[sx..];
    assert Strip(y) == y[..ey];
    assert z[sx..|x| + 1 + ey] == x[sx..] + [' '] + y[..ey];
  }

  /** Where the strip of `x + " " + y` starts and ends, under the conditions of `StripJoin`. */
  lemma JoinBounds(x: string, y: string)
    requires |x| > 0 && |y| > 0 && !IsSpace(x[|x| - 1]) && !IsSpace(y[0])
    ensures var z := x + [' '] + y;
            && StripStart(z) == StripStart(x)
            && StripEnd(z) == |x| + 1 + StripEnd(y)
            && StripEnd(x) == |x|
            && StripStart(y) == 0
  {
    var z := x + [' '] + y;
    assert z == x + ([' '] + y);
    var sx := SkipSpaces(x, 0);
    assert sx < |x|;
    SkipSpacesPrefix(x, [' '] + y, 0);
    SkipSpacesBackSuffix(x + [' '], y, sx, |y|);
  }

  /** On a non-empty text, `clean_text` is stripping after run-collapsing:
      newline squeezing finds nothing left to squeeze. */
  lemma CleanTextIsStrip(t: string)
    requires t != ""
    ensures CleanText(t) == Strip(CollapseRuns(t, 0, ' '))
  {
    var collapsed := CollapseRuns(t, 0, ' ');
    assert forall k :: 0 <= k < |collapsed| ==> collapsed[k] != '\n';
    SqueezeWithoutNewline(collapsed, 0);
    assert collapsed[0..] == collapsed;
  }

  /** Words separated by any whitespace run come out separated by exactly one
      space, each side cleaned on its own. */
  lemma CleanTextSeparates(a: string, w: string, b: string)
    requires |a| > 0 && |b| > 0 && !IsSpace(a[|a| - 1]) && !IsSpace(b[0])
    requires |w| > 0 && Blank(w)
    ensures CleanText(a + w + b) == CleanText(a) + " " + CleanText(b)
  {
    var x, y := CollapseRuns(a, 0, ' '), CollapseRuns(b, 0, ' ');
    CollapseRunsRun(a, w, b, ' ');
    var init := a[..|a| - 1];
    assert a == init + [a[|a| - 1]];
    CollapseRunsWord(init, a[|a| - 1], ' ');
    assert |x| > 0 && x[|x| - 1] == a[|a| - 1];
    CleanTextIsStrip(a + w + b);
    CleanTextIsStrip(a);
    CleanTextIsStrip(b);
    StripJoin(x, y);
  }

  // -------------------------------------------------------------- is_valid_phone

  /** The characters `[\s\-\(\)\+]` deleted before the digit check. */
  predicate IsSeparator(c: char) {
    IsSpace(c) || c == '-' || c == '(' || c == ')' || c == '+'
  }

  /** `re.sub(r'[\s\-\(\)\+]', '', s)`. */
  function RemoveSeparators(s: string): (r: string)
    ensures |r| <= |s|
    ensures forall k :: 0 <= k < |r| ==> !IsSeparator(r[k])
    ensures forall k :: 0 <= k < |s| && !IsSeparator(s[k]) ==> s[k] in r
  {
    if |s| == 0 then []
    else
      var rest := RemoveSeparators(s[1..]);
      assert forall k :: 1 <= k < |s| ==> s[k] == s[1..][k - 1];
      (if IsSeparator(s[0]) then [] else [s[0]]) + rest
  }

  /** One character: a separator is deleted, anything else kept. With
      `RemoveSeparatorsAppend` this fixes the result on every string. */
  lemma RemoveSeparatorsChar(c: char)
    ensures RemoveSeparators([c]) == if IsSeparator(c) then [] else [c]
  {
    assert [c][1..] == [];
  }

  lemma {:induction false} RemoveSeparatorsAppend(a: string, b: string)
    ensures RemoveSeparators(a + b) == RemoveSeparators(a) + RemoveSeparators(b)
    decreases |a|
  {
    if |a| > 0 {
      assert (a + b)[0] == a[0];
      assert (a + b)[1..] == a[1..] + b;
      RemoveSeparatorsAppend(a[1..], b);
    } else {
      assert a + b == b;
    }
  }

  /** `is_valid_phone`: a non-empty string whose non-separator characters are
      7 to 15 digits and nothing else. */
  function IsValidPhone(phone: string): (ok: bool)
    ensures ok ==> 7 <= |phone|
    ensures ok ==> forall k :: 0 <= k < |phone| ==> IsDigit(phone[k]) || IsSeparator(phone[k])
  {
    var digits := RemoveSeparators(phone);
    phone != "" && 7 <= |digits| <= 15 && forall k :: 0 <= k < |digits| ==> IsDigit(digits[k])
  }

  /** A character that is neither a digit nor a separator rejects the number,
      wherever it sits. */
  lemma NonDigitRejects(a: string, c: char, b: string)
    requires !IsDigit(c) && !IsSeparator(c)
    ensures !IsValidPhone(a + [c] + b)
  {
    assert (a + [c] + b)[|a|] == c;
  }

  /** Inserting (or deleting) one separator anywhere never changes the verdict. */
  lemma SeparatorIrrelevant(a: string, c: char, b: string)
    requires IsSeparator(c)
    ensures IsValidPhone(a + [c] + b) == IsValidPhone(a + b)
  {
    RemoveSeparatorsAppend(a + [c], b);
    RemoveSeparatorsAppend(a, [c]);
    RemoveSeparatorsAppend(a, b);
    assert RemoveSeparators([c]) == [] by {
      assert [c][1..] == [];
    }
    assert RemoveSeparators(a + [c]) == RemoveSeparators(a);
    assert RemoveSeparators(a + [c] + b) == RemoveSeparators(a + b);
    assert a + b == [] ==> RemoveSeparators(a + b) == [];
  }

  /** A bare run of digits is a phone number exactly when it has 7 to 15 of them. */
  lemma DigitsArePhone(d: string)
    requires forall k :: 0 <= k < |d| ==> IsDigit(d[k])
    ensures RemoveSeparators(d) == d
    ensures IsValidPhone(d) <==> 7 <= |d| <= 15
  {
    DigitsKept(d);
  }

  /** Separator removal keeps a run of digits as it is. */
  lemma {:induction false} DigitsKept(d: string)
    requires forall k :: 0 <= k < |d| ==> IsDigit(d[k])
    ensures RemoveSeparators(d) == d
    decreases |d|
  {
    if |d| > 0 {
      assert forall k :: 0 <= k < |d| - 1 ==> d[1..][k] == d[k + 1];
      var head, rest := [d[0]], d[1..];
      DigitsKept(rest);
      assert !IsSeparator(d[0]);
      assert d == head + rest;
      RemoveSeparatorsAppend(head, rest);
      RemoveSeparatorsChar(d[0]);
    }
  }

  // -------------------------------------------------------------- is_valid_email

  /** `[a-zA-Z0-9._%+-]`. */
  predicate LocalChar(c: char) {
    IsLetter(c) || IsDigit(c) || c == '.' || c == '_' || c == '%' || c == '+' || c == '-'
  }

  /** `[a-zA-Z0-9.-]`. */
  predicate DomainChar(c: char) {
    IsLetter(c) || IsDigit(c) || c == '.' || c == '-'
  }

  predicate AllLocal(s: string) {
    forall k :: 0 <= k < |s| ==> LocalChar(s[k])
  }

  predicate AllDomain(s: string) {
    forall k :: 0 <= k < |s| ==> DomainChar(s[k])
  }

  predicate AllLetters(s: string) {
    forall k :: 0 <= k < |s| ==> IsLetter(s[k])
  }

  /** The pieces the pattern matches: local part, domain, top-level domain, and
      whether one newline follows. */
  datatype EmailParts = EmailParts(local: string, domain: string, tld: string, newline: bool)

  /** The shape the pattern describes. */
  predicate WellFormed(p: EmailParts) {
    |p.local| > 0 && AllLocal(p.local) && |p.domain| > 0 && AllDomain(p.domain) && |p.tld| >= 2 && AllLetters(p.tld)
  }

  /** The address without its optional final newline. */
  function Core(p: EmailParts): string {
    p.local + "@" + p.domain + "." + p.tld
  }

  function Compose(p: EmailParts): string {
    Core(p) + (if p.newline then "\n" else "")
  }

  /** The only split the pattern can use. No class admits a newline, so `$`
      can only match at the end or before one final newline; no class but the
      first admits the `@`, so the local part ends at the first one; the last
      class admits no dot, so the top-level domain starts after the last one. */
  function Scan(email: string): Option<EmailParts> {
    if email == "" then None
    else
      var newline := email[|email| - 1] == '\n';
      ScanBody(if newline then email[..|email| - 1] else email, newline)
  }

  /** The split of the address once the final newline, if any, is set aside. */
  function ScanBody(body: string, newline: bool): Option<EmailParts> {
    var at := IndexFrom(body, '@', 0);
    if at == |body| then None
    else
      var rest := body[at + 1..];
      var dot := LastIndexBefore(rest, '.', |rest|);
      if dot < 0 then None
      else Some(EmailParts(body[..at], rest[..dot], rest[dot + 1..], newline))
  }

  /** The split found in a body rebuilds it. */
  lemma ScanBodyRebuilds(body: string, newline: bool, p: EmailParts)
    requires ScanBody(body, newline) == Some(p)
    ensures Core(p) == body && p.newline == newline
  {
    var at := IndexFrom(body, '@', 0);
    var rest := body[at + 1..];
    var dot := LastIndexBefore(rest, '.', |rest|);
    assert p.local == body[..at] && p.domain == rest[..dot] && p.tld == rest[dot + 1..];
    SplitAt(rest, dot);
    assert rest == p.domain + "." + p.tld;
    SplitAt(body, at);
    assert body == p.local + "@" + rest;
    ConcatRegroup(p.local, "@", p.domain, ".", p.tld);
  }

  /** The split found by the scan rebuilds the address. */
  lemma ScanRebuilds(email: string, p: EmailParts)
    requires Scan(email) == Some(p)
    ensures Compose(p) == email
  {
    var newline := email[|email| - 1] == '\n';
    var body := if newline then email[..|email| - 1] else email;
    ScanBodyRebuilds(body, newline, p);
    if newline {
      SplitAt(email, |email| - 1);
    } else {
      assert Core(p) + "" == Core(p);
    }
  }

  /** `is_valid_email`: `re.match(r'^[a-zA-Z0-9._%+-]+@[a-zA-Z0-9.-]+\.[a-zA-Z]{2,}$', email)`
      on a non-empty string. */
  function IsValidEmail(email: string): bool {
    var p := Scan(email);
    p.Some? && WellFormed(p.value)
  }

  /** Every accepted address splits into well-formed parts that rebuild it. */
  function Decompose(email: string): (p: EmailParts)
    requires IsValidEmail(email)
    ensures WellFormed(p) && Compose(p) == email
  {
    ScanRebuilds(email, Scan(email).value);
    Scan(email).value
  }

  /** A well-formed body splits back into its parts. */
  lemma ScanBodyComplete(p: EmailParts)
    requires WellFormed(p)
    ensures ScanBody(Core(p), p.newline) == Some(p)
  {
    var rest := p.domain + "." + p.tld;
    var body := p.local + "@" + rest;
    assert Core(p) == body;
    FirstOccurrence(body, p.local, '@', rest);
    LastOccurrence(rest, p.domain, '.', p.tld);
  }

  /** The final character tells whether a well-formed address carries the newline. */
  lemma NewlineSetAside(p: EmailParts)
    requires WellFormed(p)
    ensures var email := Compose(p);
            && email != ""
            && (email[|email| - 1] == '\n' <==> p.newline)
            && (if p.newline then email[..|email| - 1] else email) == Core(p)
  {
    var email := Compose(p);
    if p.newline {
      assert email[..|email| - 1] == Core(p);
    } else {
      assert email == Core(p);
      assert email[|email| - 1] == p.tld[|p.tld| - 1];
    }
  }

  /** Every well-formed set of parts is accepted, and splits back into itself:
      the address has exactly one `@`, and the pattern matches it. */
  lemma EmailComplete(p: EmailParts)
    requires WellFormed(p)
    ensures IsValidEmail(Compose(p))
    ensures Decompose(Compose(p)) == p
  {
    NewlineSetAside(p);
    ScanBodyComplete(p);
  }

  // ----------------------------------------------------------- sanitize_filename

  /** The characters `[<>:"/\\|?*]` replaced by an underscore. */
  predicate Forbidden(c: char) {
    c == '<' || c == '>' || c == ':' || c == '"' || c == '/' || c == '\\' || c == '|' || c == '?' || c == '*'
  }

  /** A character that may appear in a sanitised name. */
  predicate Safe(c: char) {
    !Forbidden(c) && !IsSpace(c)
  }

  predicate AllSafe(s: string) {
    forall k :: 0 <= k < |s| ==> Safe(s[k])
  }

  const MaxNameLength := 100
  const StemLength := 95

  function ReplaceForbidden(s: string): (r: string)
    ensures |r| == |s|
    ensures forall k :: 0 <= k < |s| ==> r[k] == if Forbidden(s[k]) then '_' else s[k]
  {
    seq(|s|, k requires 0 <= k < |s| => if Forbidden(s[k]) then '_' else s[k])
  }

  /** The name after both substitutions, before any truncation. */
  function Substituted(filename: string): (s: string)
    ensures AllSafe(s)
    ensures filename != "" ==> s != ""
  {
    var replaced := ReplaceForbidden(filename);
    var s := CollapseRuns(replaced, 0, '_');
    assert forall k :: 0 <= k < |s| ==> s[k] == '_' || s[k] in replaced;
    s
  }

  /** `name[:95]`. */
  function Stem(name: string): (r: string)
    ensures |r| <= StemLength && StartsWith(name, r)
    ensures |name| <= StemLength ==> r == name
  {
    if |name| <= StemLength then name else name[..StemLength]
  }

  /** `name[:95] + ('.' + ext if ext else '')`. */
  function Rejoin(name: string, ext: string): string {
    Stem(name) + (if ext != "" then "." + ext else "")
  }

  /** The length limit: a long name is split at its last dot (`rsplit('.', 1)`,
      or no split without a dot), the stem cut to 95 characters and the
      extension kept whole; the dot is dropped when the extension is empty. */
  function Truncate(s: string): (r: string)
    ensures |r| <= |s|
    ensures |s| > 0 ==> |r| > 0
  {
    if |s| <= MaxNameLength then s
    else
      var dot := LastIndexBefore(s, '.', |s|);
      if dot >= 0 then Rejoin(s[..dot], s[dot + 1..]) else Rejoin(s, "")
  }

  lemma RejoinSafe(name: string, ext: string)
    requires AllSafe(name) && AllSafe(ext)
    ensures AllSafe(Rejoin(name, ext))
  {
    var stem := Stem(name);
    assert forall k :: 0 <= k < |stem| ==> stem[k] == name[k];
    if ext != "" {
      var tail := "." + ext;
      assert forall k :: 1 <= k < |tail| ==> tail[k] == ext[k - 1];
      assert AllSafe(tail);
    }
  }

  /** Truncation only drops characters (and keeps a dot), so it keeps a name safe. */
  lemma TruncateSafe(s: string)
    requires AllSafe(s)
    ensures AllSafe(Truncate(s))
  {
    if |s| > MaxNameLength {
      var dot := LastIndexBefore(s, '.', |s|);
      if dot >= 0 {
        var name, ext := s[..dot], s[dot + 1..];
        assert forall k :: 0 <= k < |name| ==> name[k] == s[k];
        assert forall k :: 0 <= k < |ext| ==> ext[k] == s[dot + 1 + k];
        RejoinSafe(name, ext);
      } else {
        RejoinSafe(s, "");
      }
    }
  }

  /** `sanitize_filename`. */
  function SanitizeFilename(filename: string): (r: string)
    ensures filename == "" ==> r == "unnamed_file"
    ensures |r| > 0 && AllSafe(r)
  {
    if filename == "" then "unnamed_file"
    else
      var s := Substituted(filename);
      TruncateSafe(s);
      Truncate(s)
  }

  /** A name made only of safe characters and at most 100 long is kept as is. */
  lemma SafeNameKept(filename: string)
    requires filename != "" && |filename| <= MaxNameLength && AllSafe(filename)
    ensures SanitizeFilename(filename) == filename
  {
    SubstitutedSafe(filename);
  }

  /** Both substitutions leave a name of safe characters alone. */
  lemma SubstitutedSafe(filename: string)
    requires AllSafe(filename)
    ensures Substituted(filename) == filename
  {
    var replaced := ReplaceForbidden(filename);
    assert replaced == filename;
    CollapseRunsIdentity(filename, 0, '_');
    assert filename[0..] == filename;
  }

  /** The forbidden-character substitution works character by character. */
  lemma ReplaceForbiddenAppend(a: string, b: string)
    ensures ReplaceForbidden(a + b) == ReplaceForbidden(a) + ReplaceForbidden(b)
  {
    var l, r := ReplaceForbidden(a + b), ReplaceForbidden(a) + ReplaceForbidden(b);
    forall k | 0 <= k < |l|
      ensures l[k] == r[k]
    {
      if k < |a| {
        assert (a + b)[k] == a[k];
      } else {
        assert (a + b)[k] == b[k - |a|];
      }
    }
  }

  /** Replacing forbidden characters never creates or removes whitespace. */
  lemma ReplaceForbiddenSpaces(s: string)
    ensures forall k :: 0 <= k < |s| ==> (IsSpace(ReplaceForbidden(s)[k]) <==> IsSpace(s[k]))
  {
  }

  /** Substitution works piece by piece when no whitespace run straddles the seam. */
  lemma SubstitutedAppend(a: string, b: string)
    requires NoRunAcross(a, b)
    ensures Substituted(a + b) == Substituted(a) + Substituted(b)
  {
    ReplaceForbiddenAppend(a, b);
    ReplaceForbiddenSpaces(a);
    ReplaceForbiddenSpaces(b);
    CollapseRunsAppend(ReplaceForbidden(a), ReplaceForbidden(b), 0, '_');
  }

  /** Each whitespace run becomes one underscore, and the text on either side
      is substituted on its own. */
  lemma SubstitutedRun(a: string, w: string, b: string)
    requires |w| > 0 && Blank(w)
    requires |a| == 0 || !IsSpace(a[|a| - 1])
    requires |b| == 0 || !IsSpace(b[0])
    ensures Substituted(a + w + b) == Substituted(a) + "_" + Substituted(b)
  {
    ReplaceForbiddenAppend(a + w, b);
    ReplaceForbiddenAppend(a, w);
    ReplaceForbiddenSpaces(a);
    ReplaceForbiddenSpaces(w);
    ReplaceForbiddenSpaces(b);
    var ra, rw, rb := ReplaceForbidden(a), ReplaceForbidden(w), ReplaceForbidden(b);
    assert Blank(rw);
    CollapseRunsRun(ra, rw, rb, '_');
  }

  /** A single character: forbidden ones and whitespace become `_`, the rest stay. */
  lemma SubstitutedChar(c: char)
    ensures Substituted([c]) == if Forbidden(c) || IsSpace(c) then "_" else [c]
  {
    var r := ReplaceForbidden([c]);
    if IsSpace(c) {
      CollapseRunsBlank(r, '_');
    } else {
      assert CollapseRuns(r, 1, '_') == [];
    }
  }

  /** A long name keeps its extension (the text after the last dot) whole
      after a dot, behind its stem cut to at most 95 characters. */
  lemma LongNameKeepsExtension(filename: string)
    requires var s := Substituted(filename);
             filename != "" && |s| > MaxNameLength && LastIndexBefore(s, '.', |s|) >= 0
    ensures var s := Substituted(filename);
            var dot := LastIndexBefore(s, '.', |s|);
            var ext := s[dot + 1..];
            var r := SanitizeFilename(filename);
            && StartsWith(r, Stem(s[..dot]))
            && (ext != "" ==> EndsWith(r, "." + ext) && |r| == |Stem(s[..dot])| + 1 + |ext|)
            && (ext == "" ==> r == Stem(s[..dot]))
  {
    var s := Substituted(filename);
    var dot := LastIndexBefore(s, '.', |s|);
    var ext := s[dot + 1..];
    var stem := Stem(s[..dot]);
    if ext != "" {
      assert (stem + ("." + ext))[..|stem|] == stem;
      assert (stem + ("." + ext))[|stem|..] == "." + ext;
    } else {
      assert stem + "" == stem;
    }
  }

  /** A long name whose last dot sits between `name` and `ext` is cut there. */
  lemma TruncateAtLastDot(s: string, name: string, ext: string)
    requires s == name + ['.'] + ext && |s| > MaxNameLength
    requires forall k :: 0 <= k < |ext| ==> ext[k] != '.'
    ensures Truncate(s) == Rejoin(name, ext)
  {
    LastOccurrence(s, name, '.', ext);
  }

  /** The result is not bounded by 100 characters: a safe name over the
      limit whose stem fits in 95 characters and whose extension has no dot
      is kept whole, however long the extension. */
  lemma LongExtensionSurvives(name: string, ext: string)
    requires 0 < |name| <= StemLength && ext != ""
    requires |name| + 1 + |ext| > MaxNameLength
    requires AllSafe(name) && AllSafe(ext)
    requires forall k :: 0 <= k < |ext| ==> ext[k] != '.'
    ensures SanitizeFilename(name + "." + ext) == name + "." + ext
    ensures |SanitizeFilename(name + "." + ext)| > MaxNameLength
  {
    var f := name + ['.'] + ext;
    assert f == name + "." + ext;
    DottedSafe(name, ext);
    SubstitutedSafe(f);
    TruncateAtLastDot(f, name, ext);
    Regroup(name, ".", ext);
  }

  /** Joining two safe strings with a dot gives a safe string. */
  lemma DottedSafe(name: string, ext: string)
    requires AllSafe(name) && AllSafe(ext)
    ensures AllSafe(name + ['.'] + ext)
  {
    var f := name + ['.'] + ext;
    assert forall k :: 0 <= k < |name| ==> f[k] == name[k];
    assert forall k :: |name| < k < |f| ==> f[k] == ext[k - |name| - 1];
  }

  /** Sanitising a sanitised name changes nothing. */
  lemma SanitizeIdempotent(filename: string)
    ensures SanitizeFilename(SanitizeFilename(filename)) == SanitizeFilename(filename)
  {
    var r := SanitizeFilename(filename);
    SubstitutedSafe(r);
    if filename != "" && |r| > MaxNameLength {
      TruncateIdempotent(Substituted(filename));
    }
  }

  /** A name the length limit has already shortened is either short again or
      ends in an extension with no dot, which the limit keeps. */
  lemma TruncateIdempotent(s: string)
    requires |Truncate(s)| > MaxNameLength
    ensures Truncate(Truncate(s)) == Truncate(s)
  {
    assert |s| > MaxNameLength;
    var dot := LastIndexBefore(s, '.', |s|);
    assert dot >= 0;
    var name, ext := s[..dot], s[dot + 1..];
    assert Truncate(s) == Rejoin(name, ext);
    assert ext != "";
    var stem := Stem(name);
    NoDotAfterLast(s, dot, ext);
    Regroup(stem, ".", ext);
    TruncateAtLastDot(stem + ['.'] + ext, stem, ext);
  }

  /** Nothing after the last dot is a dot. */
  lemma NoDotAfterLast(s: string, dot: int, ext: string)
    requires dot == LastIndexBefore(s, '.', |s|) && dot >= 0 && ext == s[dot + 1..]
    ensures forall k :: 0 <= k < |ext| ==> ext[k] != '.'
  {
    assert forall k :: 0 <= k < |ext| ==> ext[k] == s[dot + 1 + k];
  }

  // -------------------------------------------------------- safe_get_nested_value

  /** The value reached by following `keys` through dicts, if every step finds its key. */
  function Resolve(v: JsonValue, keys: seq<string>): Option<JsonValue>
    decreases |keys|
  {
    if |keys| == 0 then Some(v)
    else if v.JObject? && Lookup(v.fields, keys[0]).Some? then Resolve(Lookup(v.fields, keys[0]).value, keys[1..])
    else None
  }

  /** The loop of `safe_get_nested_value`: `default` as soon as a step is not
      a dict or lacks its key. */
  function Walk(v: JsonValue, keys: seq<string>, default: JsonValue): (r: JsonValue)
    ensures r == Resolve(v, keys).GetOr(default)
    decreases |keys|
  {
    if |keys| == 0 then v
    else if v.JObject? && keys[0] in Keys(v.fields) then Walk(Lookup(v.fields, keys[0]).value, keys[1..], default)
    else default
  }

  /** `safe_get_nested_value(data, key_path, default)`. */
  function GetNested(data: JsonValue, keyPath: string, default: JsonValue): (r: JsonValue)
    ensures r == Resolve(data, Split(keyPath, '.')).GetOr(default)
  {
    Walk(data, Split(keyPath, '.'), default)
  }

  lemma {:induction false} ResolveAppend(v: JsonValue, a: seq<string>, b: seq<string>)
    ensures Resolve(v, a + b) == if Resolve(v, a).Some? then Resolve(Resolve(v, a).value, b) else None
    decreases |a|
  {
    if |a| > 0 {
      assert (a + b)[0] == a[0];
      assert (a + b)[1..] == a[1..] + b;
      if v.JObject? && Lookup(v.fields, a[0]).Some? {
        ResolveAppend(Lookup(v.fields, a[0]).value, a[1..], b);
      }
    } else {
      assert a + b == b;
    }
  }

  /** Looking up `p.q` is looking up `q` in what `p` leads to; when `p` leads
      nowhere, the default comes back. */
  lemma GetNestedCompose(data: JsonValue, p: string, q: string, default: JsonValue)
    ensures var mid := Resolve(data, Split(p, '.'));
            GetNested(data, p + "." + q, default) == if mid.Some? then GetNested(mid.value, q, default) else default
  {
    SplitAppend(p, '.', q);
    assert p + "." + q == p + ['.'] + q;
    ResolveAppend(data, Split(p, '.'), Split(q, '.'));
  }
}
