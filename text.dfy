/**
 * String primitives of Python that the generator relies on: the `\s` and
 * `\d` character classes, `str.strip`, `int()` of a digit run, `"\n".join`,
 * `str.split("\n")`, substring search, `str.replace` and `"=" * n`.
 */
module Text {
  import opened Wrappers

  /** Python's `str.isspace`, which is also the `\s` class of `re` on str patterns. */
  predicate IsSpace(c: char) {
    c == ' ' || '\t' <= c <= '\r' || '\U{1C}' <= c <= '\U{1F}' || c == '\U{85}' || c == '\U{A0}'
    || c == '\U{1680}' || '\U{2000}' <= c <= '\U{200A}' || c == '\U{2028}' || c == '\U{2029}'
    || c == '\U{202F}' || c == '\U{205F}' || c == '\U{3000}'
  }

  /** The `\d` class, restricted to ASCII digits. */
  predicate IsDigit(c: char) {
    '0' <= c <= '9'
  }

  /** The `.` class of `re` without DOTALL: anything but a line feed. */
  predicate NotNewline(c: char) {
    c != '\n'
  }

  /** The end of the longest run of characters satisfying `p` that starts at `i`. */
  function SkipWhile(s: string, i: nat, p: char -> bool): (r: nat)
    requires i <= |s|
    ensures i <= r <= |s|
    ensures forall k :: i <= k < r ==> p(s[k])
    ensures r < |s| ==> !p(s[r])
    decreases |s| - i
  {
    if i < |s| && p(s[i]) then SkipWhile(s, i + 1, p) else i
  }

  /** `s` without its trailing whitespace. */
  function TrimEnd(s: string): (r: string)
    ensures |r| <= |s| && r == s[..|r|]
    ensures forall k :: |r| <= k < |s| ==> IsSpace(s[k])
    ensures r == [] || !IsSpace(r[|r| - 1])
  {
    if s != [] && IsSpace(s[|s| - 1]) then TrimEnd(s[..|s| - 1]) else s
  }

  /** `r` is the infix of `s` at `i`, and everything of `s` around it is whitespace. */
  predicate TrimmedAt(s: string, i: nat, r: string) {
    i + |r| <= |s| && r == s[i..i + |r|]
    && (forall k :: 0 <= k < i ==> IsSpace(s[k]))
    && (forall k :: i + |r| <= k < |s| ==> IsSpace(s[k]))
  }

  /** Python's `str.strip()`: the infix of `s` left after removing whitespace at both ends. */
  function Strip(s: string): (r: string)
    ensures r == [] || (!IsSpace(r[0]) && !IsSpace(r[|r| - 1]))
    ensures exists i: nat :: TrimmedAt(s, i, r)
  {
    var i := SkipWhile(s, 0, IsSpace);
    var r := TrimEnd(s[i..]);
    assert TrimmedAt(s, i, r);
    r
  }

  /** A string that begins and ends with non-whitespace is its own strip. */
  lemma StripOfTrimmed(s: string)
    requires s == [] || (!IsSpace(s[0]) && !IsSpace(s[|s| - 1]))
    ensures Strip(s) == s
  {
    var i := SkipWhile(s, 0, IsSpace);
    assert i == 0;
    assert s[i..] == s;
  }

  /** Stripping a single line leaves a single line. */
  lemma StripKeepsOneLine(s: string)
    requires NoNewline(s)
    ensures NoNewline(Strip(s))
  {
    var r := Strip(s);
    var i: nat :| TrimmedAt(s, i, r);
    forall k | 0 <= k < |r| ensures r[k] != '\n' {
      assert r[k] == s[i + k];
    }
  }

  function DigitValue(c: char): nat
    requires IsDigit(c)
  {
    c as int - '0' as int
  }

  function DigitChar(d: nat): (c: char)
    requires d < 10
    ensures IsDigit(c) && DigitValue(c) == d
  {
    ('0' as int + d) as char
  }

  predicate AllDigits(s: string) {
    forall k :: 0 <= k < |s| ==> IsDigit(s[k])
  }

  /** Python's `int(d)` for a run of decimal digits. */
  function DigitsValue(d: string): nat
    requires AllDigits(d)
  {
    if d == [] then 0 else DigitsValue(d[..|d| - 1]) * 10 + DigitValue(d[|d| - 1])
  }

  /** The decimal numeral of `n`, as Python's `str(n)` writes it. */
  function ShowNat(n: nat): (r: string)
    ensures r != [] && AllDigits(r)
  {
    (if n < 10 then "" else ShowNat(n / 10)) + [DigitChar(n % 10)]
  }

  /** Reading back a written numeral gives the number. */
  lemma {:induction false} DigitsValueOfShowNat(n: nat)
    ensures DigitsValue(ShowNat(n)) == n
  {
    var s := ShowNat(n);
    assert s[..|s| - 1] == if n < 10 then "" else ShowNat(n / 10);
    if n >= 10 {
      DigitsValueOfShowNat(n / 10);
    }
  }

  /** `"=" * n` and friends. */
  function Repeat(c: char, n: nat): (r: string)
    ensures |r| == n
    ensures forall k :: 0 <= k < n ==> r[k] == c
  {
    if n == 0 then "" else Repeat(c, n - 1) + [c]
  }

  /** `s` starts with `pat` at position `i`. */
  predicate Occurs(s: string, i: nat, pat: string) {
    i + |pat| <= |s| && s[i..i + |pat|] == pat
  }

  predicate Contains(s: string, pat: string) {
    exists i :: 0 <= i <= |s| && Occurs(s, i, pat)
  }

  /** The first occurrence of `pat` in `s` at or after `from` (`str.find(pat, from)`). */
  function IndexOf(s: string, pat: string, from: nat): (r: Option<nat>)
    ensures r.Some? ==> from <= r.value && Occurs(s, r.value, pat)
                        && forall j :: from <= j < r.value ==> !Occurs(s, j, pat)
    ensures r.None? ==> forall j :: from <= j ==> !Occurs(s, j, pat)
    decreases |s| - from
  {
    if from + |pat| > |s| then None
    else if s[from..from + |pat|] == pat then Some(from)
    else IndexOf(s, pat, from + 1)
  }

  /** `find` returns the first occurrence. */
  lemma IndexOfFinds(s: string, pat: string, from: nat, j: nat)
    requires from <= j && Occurs(s, j, pat)
    requires forall i :: from <= i < j ==> !Occurs(s, i, pat)
    ensures IndexOf(s, pat, from) == Some(j)
  {
    var r := IndexOf(s, pat, from);
    assert r.Some?;
    assert j <= r.value;
  }

  /** Python's `s.replace(pat, rep)`: every non-overlapping occurrence, left to right. */
  function ReplaceAll(s: string, pat: string, rep: string): string
    requires pat != ""
    decreases |s|
  {
    if |s| < |pat| then s
    else if s[..|pat|] == pat then rep + ReplaceAll(s[|pat|..], pat, rep)
    else [s[0]] + ReplaceAll(s[1..], pat, rep)
  }

  /** Looking one position further into `s` is looking at the same position of its tail. */
  lemma OccursInTail(s: string, i: nat, pat: string)
    requires s != []
    ensures Occurs(s[1..], i, pat) <==> Occurs(s, i + 1, pat)
  {
    if i + 1 + |pat| <= |s| {
      assert s[1..][i..i + |pat|] == s[i + 1..i + 1 + |pat|];
    }
  }

  /** `str.replace` leaves a string without the pattern unchanged. */
  lemma {:induction false} ReplaceAllAbsent(s: string, pat: string, rep: string)
    requires pat != "" && !Contains(s, pat)
    ensures ReplaceAll(s, pat, rep) == s
  {
    if |s| >= |pat| {
      assert !Occurs(s, 0, pat);
      forall i | 0 <= i <= |s[1..]| ensures !Occurs(s[1..], i, pat) {
        OccursInTail(s, i, pat);
      }
      ReplaceAllAbsent(s[1..], pat, rep);
    }
  }

  /** The first occurrence of the pattern is replaced, and the scan resumes right after it. */
  lemma {:induction false} ReplaceAllFirst(pre: string, pat: string, post: string, rep: string)
    requires pat != ""
    requires forall i :: 0 <= i < |pre| ==> !Occurs(pre + pat + post, i, pat)
    ensures ReplaceAll(pre + pat + post, pat, rep) == pre + rep + ReplaceAll(post, pat, rep)
  {
    var s := pre + pat + post;
    if pre == [] {
      assert s[..|pat|] == pat;
      assert s[|pat|..] == post;
    } else {
      assert !Occurs(s, 0, pat);
      var tail := pre[1..] + pat + post;
      assert s[1..] == tail;
      forall i | 0 <= i < |pre[1..]| ensures !Occurs(tail, i, pat) {
        OccursInTail(s, i, pat);
      }
      ReplaceAllFirst(pre[1..], pat, post, rep);
      assert ReplaceAll(s, pat, rep) == [s[0]] + ReplaceAll(tail, pat, rep);
    }
  }

  /** The first occurrence of `pat` in `part + pat` is the appended one. */
  predicate FirstAtEnd(part: string, pat: string) {
    forall i :: 0 <= i < |part| ==> !Occurs(part + pat, i, pat)
  }

  /** What follows the appended pattern cannot make an earlier occurrence. */
  lemma FirstAtEndExtends(part: string, pat: string, rest: string)
    requires FirstAtEnd(part, pat)
    ensures forall i :: 0 <= i < |part| ==> !Occurs(part + pat + rest, i, pat)
  {
    forall i | 0 <= i < |part| ensures !Occurs(part + pat + rest, i, pat) {
      if Occurs(part + pat + rest, i, pat) {
        assert (part + pat + rest)[i..i + |pat|] == (part + pat)[i..i + |pat|];
        assert Occurs(part + pat, i, pat);
      }
    }
  }

  /**
   * `s.replace(pat, rep)` on a text split at each of its occurrences of
   * `pat`, none starting inside a part and none in the last: the parts
   * joined with `rep`.
   */
  lemma {:induction false} ReplaceAllSplit(parts: seq<string>, pat: string, rep: string)
    requires pat != "" && parts != []
    requires forall k :: 0 <= k < |parts| - 1 ==> FirstAtEnd(parts[k], pat)
    requires !Contains(parts[|parts| - 1], pat)
    ensures ReplaceAll(JoinWith(pat, parts), pat, rep) == JoinWith(rep, parts)
  {
    if |parts| == 1 {
      ReplaceAllAbsent(parts[0], pat, rep);
    } else {
      var rest := JoinWith(pat, parts[1..]);
      assert FirstAtEnd(parts[0], pat);
      FirstAtEndExtends(parts[0], pat, rest);
      ReplaceAllFirst(parts[0], pat, rest, rep);
      ReplaceAllSplit(parts[1..], pat, rep);
    }
  }

  /** Python's `sep.join(parts)`. */
  function JoinWith(sep: string, parts: seq<string>): string
  {
    if parts == [] then ""
    else if |parts| == 1 then parts[0]
    else parts[0] + sep + JoinWith(sep, parts[1..])
  }

  /** Python's `"\n".join(parts)`. */
  function JoinLines(parts: seq<string>): string
  {
    JoinWith("\n", parts)
  }

  /** Python's `s.split("\n")`. */
  function SplitLines(s: string): (r: seq<string>)
    ensures r != []
    decreases |s|
  {
    match IndexOf(s, "\n", 0)
    case None => [s]
    case Some(i) => [s[..i]] + SplitLines(s[i + 1..])
  }

  predicate NoNewline(s: string) {
    forall k :: 0 <= k < |s| ==> s[k] != '\n'
  }

  lemma NoNewlineConcat(a: string, b: string)
    requires NoNewline(a) && NoNewline(b)
    ensures NoNewline(a + b)
  {
    forall k | 0 <= k < |a + b| ensures (a + b)[k] != '\n' {
      if k < |a| { assert (a + b)[k] == a[k]; } else { assert (a + b)[k] == b[k - |a|]; }
    }
  }

  /** Joining lines and splitting the result recovers the lines. */
  lemma {:induction false} SplitJoinLines(parts: seq<string>)
    requires parts != []
    requires forall i :: 0 <= i < |parts| ==> NoNewline(parts[i])
    ensures SplitLines(JoinLines(parts)) == parts
  {
    var s := JoinLines(parts);
    var p := parts[0];
    if |parts| == 1 {
      assert !Occurs(s, |p|, "\n");
      assert forall j :: 0 <= j < |p| ==> !Occurs(s, j, "\n") by {
        forall j | 0 <= j < |p| ensures !Occurs(s, j, "\n") {
          assert s[j..j + 1] == [p[j]];
        }
      }
    } else {
      assert Occurs(s, |p|, "\n");
      forall j | 0 <= j < |p| ensures !Occurs(s, j, "\n") {
        assert s[j..j + 1] == [p[j]];
      }
      assert IndexOf(s, "\n", 0) == Some(|p|);
      assert s[..|p|] == p;
      assert s[|p| + 1..] == JoinLines(parts[1..]);
      SplitJoinLines(parts[1..]);
    }
  }

  /** Joining one more line at the end adds a line feed and that line. */
  lemma {:induction false} JoinLinesSnoc(parts: seq<string>, p: string)
    requires parts != []
    ensures JoinLines(parts + [p]) == JoinLines(parts) + "\n" + p
  {
    if |parts| > 1 {
      var rest := parts[1..];
      assert (parts + [p])[1..] == rest + [p];
      JoinLinesSnoc(rest, p);
      assert JoinLines(parts + [p]) == parts[0] + "\n" + JoinLines(rest + [p]);
      assert JoinLines(parts) == parts[0] + "\n" + JoinLines(rest);
    } else {
      assert (parts + [p])[1..] == [p];
      assert JoinWith("\n", [p]) == p;
    }
  }

  /** Splitting on line feeds and joining again gives back the text. */
  lemma {:induction false} JoinSplitLines(s: string)
    ensures JoinLines(SplitLines(s)) == s
    decreases |s|
  {
    match IndexOf(s, "\n", 0)
    case None =>
    case Some(i) =>
      JoinSplitLines(s[i + 1..]);
      assert s == s[..i] + "\n" + s[i + 1..];
  }

  /** Python's string comparison `a <= b`: lexicographic on code points. */
  predicate LexLeq(a: string, b: string)
    decreases |a|
  {
    a == [] || (b != [] && (a[0] < b[0] || (a[0] == b[0] && LexLeq(a[1..], b[1..]))))
  }

  lemma {:induction false} LexTotal(a: string, b: string)
    ensures LexLeq(a, b) || LexLeq(b, a)
    decreases |a|
  {
    if a != [] && b != [] && a[0] == b[0] {
      LexTotal(a[1..], b[1..]);
    }
  }

  lemma {:induction false} LexAntisymmetric(a: string, b: string)
    requires LexLeq(a, b) && LexLeq(b, a)
    ensures a == b
    decreases |a|
  {
    if a != [] {
      LexAntisymmetric(a[1..], b[1..]);
      assert a == [a[0]] + a[1..] && b == [b[0]] + b[1..];
    }
  }

  lemma {:induction false} LexTransitive(a: string, b: string, c: string)
    requires LexLeq(a, b) && LexLeq(b, c)
    ensures LexLeq(a, c)
    decreases |a|
  {
    if a != [] && a[0] == b[0] && b[0] == c[0] {
      LexTransitive(a[1..], b[1..], c[1..]);
    }
  }

  lemma {:induction false} LexReflexive(a: string)
    ensures LexLeq(a, a)
    decreases |a|
  {
    if a != [] { LexReflexive(a[1..]); }
  }

  /** `x` is the least name of `s`. */
  predicate IsLeast(x: string, s: set<string>) {
    x in s && forall y :: y in s ==> LexLeq(x, y)
  }

  /** Every finite non-empty set of names has a least name. */
  lemma {:induction false} LeastNameExists(s: set<string>)
    requires s != {}
    ensures exists x :: IsLeast(x, s)
    decreases |s|
  {
    var x :| x in s;
    if s == {x} {
      LexReflexive(x);
      assert IsLeast(x, s);
    } else {
      var rest := s - {x};
      LeastNameExists(rest);
      var m :| IsLeast(m, rest);
      LexTotal(x, m);
      if LexLeq(x, m) {
        forall y | y in s ensures LexLeq(x, y) {
          if y == x { LexReflexive(x); } else { LexTransitive(x, m, y); }
        }
        assert IsLeast(x, s);
      } else {
        assert IsLeast(m, s);
      }
    }
  }

  /** `sorted(names)`: the names of a directory listing in ascending order. */
  function SortedNames(s: set<string>): (r: seq<string>)
    ensures |r| == |s|
    ensures forall x :: x in r <==> x in s
    decreases |s|
  {
    if s == {} then []
    else
      LeastNameExists(s);
      assert forall a, b :: LexLeq(a, b) && LexLeq(b, a) ==> a == b by {
        forall a, b | LexLeq(a, b) && LexLeq(b, a) ensures a == b { LexAntisymmetric(a, b); }
      }
      var x :| IsLeast(x, s);
      [x] + SortedNames(s - {x})
  }

  /** The least name comes before every name listed after it. */
  lemma LeastBeforeRest(x: string, s: set<string>, rest: seq<string>, k: nat)
    requires IsLeast(x, s) && k < |rest|
    requires forall y :: y in rest <==> y in s - {x}
    ensures LexLeq(x, rest[k]) && x != rest[k]
  {
    assert rest[k] in rest;
  }

  /** Sorted, and no name twice. */
  predicate StrictlyAscending(r: seq<string>) {
    forall i, j :: 0 <= i < j < |r| ==> LexLeq(r[i], r[j]) && r[i] != r[j]
  }

  /** A name below every name of a strictly ascending listing extends it in front. */
  lemma ConsAscending(x: string, rest: seq<string>)
    requires StrictlyAscending(rest)
    requires forall k :: 0 <= k < |rest| ==> LexLeq(x, rest[k]) && x != rest[k]
    ensures StrictlyAscending([x] + rest)
  {
    var r := [x] + rest;
    forall i, j | 0 <= i < j < |r| ensures LexLeq(r[i], r[j]) && r[i] != r[j] {
      assert r[j] == rest[j - 1];
      if i > 0 {
        assert r[i] == rest[i - 1];
      }
    }
  }

  /** The listing is strictly ascending: sorted, and no name twice. */
  lemma {:induction false} SortedNamesAscending(s: set<string>)
    ensures StrictlyAscending(SortedNames(s))
    decreases |s|
  {
    if s != {} {
      var r := SortedNames(s);
      var x := r[0];
      assert IsLeast(x, s) by {
        LeastNameExists(s);
        assert forall a, b :: LexLeq(a, b) && LexLeq(b, a) ==> a == b by {
          forall a, b | LexLeq(a, b) && LexLeq(b, a) ensures a == b { LexAntisymmetric(a, b); }
        }
      }
      var rest := SortedNames(s - {x});
      assert r == [x] + rest;
      SortedNamesAscending(s - {x});
      forall k | 0 <= k < |rest| ensures LexLeq(x, rest[k]) && x != rest[k] {
        LeastBeforeRest(x, s, rest, k);
      }
      ConsAscending(x, rest);
    }
  }
}
