/** The handful of Python `str` and list operations the quiz parser relies on,
    written over `seq<char>`: `isspace`, `isdigit`, `strip`, `in`, `find`,
    `startswith`, `split(sep)`, `split(sep, 1)`, `join`, `upper`, `lower` and the
    prefix slice `xs[:n]`. */
module PyStr {

  datatype Option<+T> = None | Some(value: T)

  function Min(a: int, b: int): int { if a <= b then a else b }

  function Max(a: int, b: int): int { if a <= b then b else a }

  // ---------------------------------------------------------------------------
  // Character classes
  // ---------------------------------------------------------------------------

  /** `c.isspace()`: Python's whitespace set (general category Zs, or
      bidirectional class WS, B or S). */
  predicate IsSpace(c: char) {
    ('\t' <= c <= '\r') || ('\U{1C}' <= c <= ' ') || c == '\U{85}' || c == '\U{A0}'
    || c == '\U{1680}' || ('\U{2000}' <= c <= '\U{200A}') || c == '\U{2028}'
    || c == '\U{2029}' || c == '\U{202F}' || c == '\U{205F}' || c == '\U{3000}'
  }

  /** `c.isdigit()`, restricted to the ASCII digits. */
  predicate IsDigit(c: char) {
    '0' <= c <= '9'
  }

  predicate AllSpace(s: string) {
    forall i :: 0 <= i < |s| ==> IsSpace(s[i])
  }

  // ---------------------------------------------------------------------------
  // strip
  // ---------------------------------------------------------------------------

  /** Index of the first non-whitespace character at or after `i` (`|s|` if
      there is none). */
  function SkipSpaces(s: string, i: nat): (j: nat)
    requires i <= |s|
    ensures i <= j <= |s|
    decreases |s| - i
  {
    if i < |s| && IsSpace(s[i]) then SkipSpaces(s, i + 1) else i
  }

  /** `SkipSpaces` passes over whitespace only, and stops at a non-space. */
  lemma {:induction false} SkipSpacesStops(s: string, i: nat)
    requires i <= |s|
    ensures forall k :: i <= k < SkipSpaces(s, i) ==> IsSpace(s[k])
    ensures SkipSpaces(s, i) == |s| || !IsSpace(s[SkipSpaces(s, i)])
    decreases |s| - i
  {
    if i < |s| && IsSpace(s[i]) {
      SkipSpacesStops(s, i + 1);
    }
  }

  /** Index just past the last non-whitespace character before `j` (0 if
      there is none). */
  function TrimEnd(s: string, j: nat): (k: nat)
    requires j <= |s|
    ensures k <= j
  {
    if 0 < j && IsSpace(s[j - 1]) then TrimEnd(s, j - 1) else j
  }

  /** `TrimEnd` passes over whitespace only, and stops after a non-space. */
  lemma {:induction false} TrimEndStops(s: string, j: nat)
    requires j <= |s|
    ensures forall k :: TrimEnd(s, j) <= k < j ==> IsSpace(s[k])
    ensures TrimEnd(s, j) == 0 || !IsSpace(s[TrimEnd(s, j) - 1])
  {
    if 0 < j && IsSpace(s[j - 1]) {
      TrimEndStops(s, j - 1);
    }
  }

  /** `s.lstrip()`: the suffix left after the leading whitespace. */
  function LStrip(s: string): (r: string)
    ensures |r| <= |s| && r == s[|s| - |r|..]
    ensures r == [] || !IsSpace(r[0])
  {
    SkipSpacesStops(s, 0);
    s[SkipSpaces(s, 0)..]
  }

  /** `lstrip` removes whitespace only. */
  lemma LStripRemovesSpace(s: string)
    ensures AllSpace(s[..|s| - |LStrip(s)|])
  {
    SkipSpacesStops(s, 0);
  }

  /** `s.rstrip()`: the prefix left after the trailing whitespace. */
  function RStrip(s: string): (r: string)
    ensures |r| <= |s| && r == s[..|r|]
    ensures r == [] || !IsSpace(r[|r| - 1])
  {
    TrimEndStops(s, |s|);
    s[..TrimEnd(s, |s|)]
  }

  /** `rstrip` removes whitespace only. */
  lemma RStripRemovesSpace(s: string)
    ensures AllSpace(s[|RStrip(s)|..])
  {
    TrimEndStops(s, |s|);
  }

  /** Text that `strip` leaves unchanged. */
  predicate IsStripped(s: string) {
    s == [] || (!IsSpace(s[0]) && !IsSpace(s[|s| - 1]))
  }

  /** Number of leading whitespace characters of `s`. */
  function LeadingSpaces(s: string): nat {
    |s| - |LStrip(s)|
  }

  /** `s.strip()`: the infix of `s` that remains once leading and trailing
      whitespace are removed; it neither starts nor ends with whitespace. */
  function Strip(s: string): (r: string)
    ensures LeadingSpaces(s) + |r| <= |s|
    ensures r == s[LeadingSpaces(s)..LeadingSpaces(s) + |r|]
    ensures IsStripped(r)
  {
    RStrip(LStrip(s))
  }

  /** `strip` removes whitespace only, and yields "" exactly for all-whitespace
      text. */
  lemma StripRemovesOnlySpace(s: string)
    ensures AllSpace(s[..LeadingSpaces(s)])
    ensures AllSpace(s[LeadingSpaces(s) + |Strip(s)|..])
    ensures Strip(s) == [] <==> AllSpace(s)
  {
    LStripRemovesSpace(s);
    RStripRemovesSpace(LStrip(s));
    var l := LStrip(s);
    var n := LeadingSpaces(s);
    assert s == s[..n] + l;
    assert s[n + |Strip(s)|..] == l[|Strip(s)|..];
  }

  lemma StrippedFixed(s: string)
    requires IsStripped(s)
    ensures Strip(s) == s
  {
    assert LStrip(s) == s;
    assert RStrip(s) == s;
  }

  /** `SkipSpaces` from `i` stops at the first non-space `k` when everything
      in between is whitespace. */
  lemma {:induction false} SkipSpacesTo(s: string, i: nat, k: nat)
    requires i <= k < |s| && !IsSpace(s[k])
    requires forall m :: i <= m < k ==> IsSpace(s[m])
    ensures SkipSpaces(s, i) == k
    decreases k - i
  {
    if i < k {
      SkipSpacesTo(s, i + 1, k);
    }
  }

  /** `TrimEnd` from `j` stops just after the last non-space `s[k - 1]` when
      everything in between is whitespace. */
  lemma {:induction false} TrimEndTo(s: string, j: nat, k: nat)
    requires 0 < k <= j <= |s| && !IsSpace(s[k - 1])
    requires forall m :: k <= m < j ==> IsSpace(s[m])
    ensures TrimEnd(s, j) == k
    decreases j - k
  {
    if k < j {
      TrimEndTo(s, j - 1, k);
    }
  }

  /** `lstrip` removes exactly a whitespace prefix in front of text that does
      not start with whitespace. */
  lemma LStripPadded(w: string, t: string)
    requires AllSpace(w) && t != [] && !IsSpace(t[0])
    ensures LStrip(w + t) == t
  {
    var x := w + t;
    SkipSpacesTo(x, 0, |w|);
    assert x[|w|..] == t;
  }

  /** `rstrip` removes exactly a whitespace suffix behind text that does not
      end with whitespace. */
  lemma RStripPadded(t: string, w: string)
    requires AllSpace(w) && t != [] && !IsSpace(t[|t| - 1])
    ensures RStrip(t + w) == t
  {
    var x := t + w;
    TrimEndTo(x, |x|, |t|);
    assert x[..|t|] == t;
  }

  /** `strip` gives back non-empty stripped text from between any whitespace
      padding. */
  lemma StripPadded(w1: string, s: string, w2: string)
    requires AllSpace(w1) && AllSpace(w2) && s != [] && IsStripped(s)
    ensures Strip(w1 + s + w2) == s
  {
    assert w1 + s + w2 == w1 + (s + w2);
    LStripPadded(w1, s + w2);
    RStripPadded(s, w2);
  }

  /** `strip` is idempotent. */
  lemma StripIdempotent(s: string)
    ensures Strip(Strip(s)) == Strip(s)
  {
    StrippedFixed(Strip(s));
  }

  // ---------------------------------------------------------------------------
  // Substring search: `pat in s`, `s.find(pat)`, `s.startswith(p)`
  // ---------------------------------------------------------------------------

  predicate OccursAt(s: string, pat: string, i: nat) {
    i + |pat| <= |s| && s[i..i + |pat|] == pat
  }

  /** Index of the first occurrence of `pat` at or after `from`. */
  function FindFrom(s: string, pat: string, from: nat): (r: Option<nat>)
    ensures r.Some? ==> from <= r.value && OccursAt(s, pat, r.value)
    decreases |s| - from
  {
    if from + |pat| > |s| then None
    else if s[from..from + |pat|] == pat then Some(from)
    else FindFrom(s, pat, from + 1)
  }

  /** `FindFrom` misses no earlier occurrence: none starts between `from` and
      what it reports, nor after `from` when it reports nothing. */
  lemma {:induction false} FindFromFirst(s: string, pat: string, from: nat, j: nat)
    requires from <= j
    requires FindFrom(s, pat, from).None? || j < FindFrom(s, pat, from).value
    ensures !OccursAt(s, pat, j)
    decreases |s| - from
  {
    if from + |pat| <= |s| && from < j {
      FindFromFirst(s, pat, from + 1, j);
    }
  }

  /** An occurrence at `i` with none before it, from `from` on, is what
      `FindFrom` reports. */
  lemma {:induction false} FindFromAt(s: string, pat: string, from: nat, i: nat)
    requires from <= i && OccursAt(s, pat, i)
    requires forall j: nat :: from <= j < i ==> !OccursAt(s, pat, j)
    ensures FindFrom(s, pat, from) == Some(i)
    decreases i - from
  {
    if from < i {
      assert !OccursAt(s, pat, from);
      FindFromAt(s, pat, from + 1, i);
    }
  }

  /** `s.find(pat)`, with `None` for -1. */
  function IndexOf(s: string, pat: string): Option<nat> {
    FindFrom(s, pat, 0)
  }

  /** `pat in s` */
  predicate Contains(s: string, pat: string) {
    IndexOf(s, pat).Some?
  }

  /** Every occurrence is found. */
  lemma OccursContains(s: string, pat: string, j: nat)
    requires OccursAt(s, pat, j)
    ensures Contains(s, pat)
  {
    if !Contains(s, pat) {
      FindFromFirst(s, pat, 0, j);
    }
  }

  /** A slice of a slice is a slice of the original. */
  lemma SliceOfSlice<T>(s: seq<T>, lo: nat, hi: nat, a: nat, b: nat)
    requires lo <= hi <= |s| && a <= b <= hi - lo
    ensures s[lo..hi][a..b] == s[lo + a..lo + b]
  {
    var t := s[lo..hi];
    forall m | 0 <= m < b - a
      ensures t[a..b][m] == s[lo + a..lo + b][m]
    {
      assert t[a..b][m] == t[a + m] == s[lo + a + m];
    }
  }

  /** An occurrence inside an infix of `s` is an occurrence in `s`, shifted. */
  lemma OccursInInfix(s: string, i: nat, j: nat, pat: string, k: nat)
    requires i <= j <= |s| && OccursAt(s[i..j], pat, k)
    ensures OccursAt(s, pat, i + k)
  {
    SliceOfSlice(s, i, j, k, k + |pat|);
  }

  /** An occurrence anywhere inside an infix of `s` is an occurrence in `s`. */
  lemma ContainsInfix(s: string, i: nat, j: nat, pat: string)
    requires i <= j <= |s|
    requires Contains(s[i..j], pat)
    ensures Contains(s, pat)
  {
    var k := IndexOf(s[i..j], pat).value;
    OccursInInfix(s, i, j, pat, k);
    OccursContains(s, pat, i + k);
  }

  /** Stripping cannot introduce a substring. */
  lemma StripKeepsAbsent(s: string, pat: string)
    requires !Contains(s, pat)
    ensures !Contains(Strip(s), pat)
  {
    if Contains(Strip(s), pat) {
      ContainsInfix(s, LeadingSpaces(s), LeadingSpaces(s) + |Strip(s)|, pat);
    }
  }

  /** Whitespace padding cannot complete an occurrence of a pattern that
      starts and ends with non-whitespace. */
  lemma ContainsPadded(w1: string, s: string, w2: string, pat: string)
    requires AllSpace(w1) && AllSpace(w2) && !Contains(s, pat)
    requires pat != [] && !IsSpace(pat[0]) && !IsSpace(pat[|pat| - 1])
    ensures !Contains(w1 + s + w2, pat)
  {
    var x := w1 + s + w2;
    if Contains(x, pat) {
      var j := IndexOf(x, pat).value;
      assert x[j..j + |pat|][0] == x[j];
      assert x[j..j + |pat|][|pat| - 1] == x[j + |pat| - 1];
      assert |w1| <= j;
      assert j + |pat| <= |w1| + |s|;
      assert OccursAt(s, pat, j - |w1|) by {
        assert s[j - |w1|..j - |w1| + |pat|] == x[j..j + |pat|];
      }
      OccursContains(s, pat, j - |w1|);
    }
  }

  /** `s.startswith(p)` */
  predicate StartsWith(s: string, p: string) {
    |p| <= |s| && s[..|p|] == p
  }

  // ---------------------------------------------------------------------------
  // split, split(sep, 1), join
  // ---------------------------------------------------------------------------

  /** `s.split(sep, 1)` when `sep in s`: the text before the first `sep` and
      everything after it (which may itself contain `sep`). `None` when `sep`
      does not occur. Python rejects an empty separator. */
  function SplitOnce(s: string, sep: string): (r: Option<(string, string)>)
    requires sep != []
    ensures r.Some? <==> Contains(s, sep)
    ensures r.Some? ==> s == r.value.0 + sep + r.value.1
    ensures r.Some? ==> !Contains(r.value.0, sep)
  {
    match IndexOf(s, sep)
    case None => None
    case Some(i) =>
      var before := s[..i];
      assert !Contains(before, sep) by {
        if Contains(before, sep) {
          var k := IndexOf(before, sep).value;
          OccursInInfix(s, 0, i, sep, k);
          FindFromFirst(s, sep, 0, k);
        }
      }
      assert s == before + sep + s[i + |sep|..] by {
        assert s == s[..i] + s[i..i + |sep|] + s[i + |sep|..];
      }
      Some((before, s[i + |sep|..]))
  }

  /** The first occurrence of `sep` at index `i` is where `split(sep, 1)` cuts. */
  lemma SplitOnceAt(s: string, sep: string, i: nat)
    requires sep != [] && OccursAt(s, sep, i)
    requires forall j: nat :: j < i ==> !OccursAt(s, sep, j)
    ensures SplitOnce(s, sep) == Some((s[..i], s[i + |sep|..]))
  {
    FindFromAt(s, sep, 0, i);
  }

  /** Splitting `a + sep + b` once at a two-character `sep` gives back `a` and
      `b` (whatever `b` holds), provided `a` holds no `sep` and its last
      character cannot start one. */
  lemma SplitOnceJoin(a: string, sep: string, b: string)
    requires |sep| == 2 && !Contains(a, sep)
    requires a == [] || a[|a| - 1] != sep[0]
    ensures SplitOnce(a + sep + b, sep) == Some((a, b))
  {
    var s := a + sep + b;
    assert OccursAt(s, sep, |a|);
    forall j: nat | j < |a|
      ensures !OccursAt(s, sep, j)
    {
      if j + 2 <= |a| {
        assert s[j..j + 2] == a[j..j + 2];
        FindFromFirst(a, sep, 0, j);
      } else {
        assert s[j] == a[|a| - 1];
      }
    }
    SplitOnceAt(s, sep, |a|);
    assert s[..|a|] == a && s[|a| + 2..] == b;
  }

  /** `sep.join(parts)` */
  function Join(parts: seq<string>, sep: string): string
  {
    if parts == [] then []
    else if |parts| == 1 then parts[0]
    else parts[0] + sep + Join(parts[1..], sep)
  }

  /** Joining non-empty stripped parts gives a non-empty stripped string: the
      join starts with the first part and ends with the last. */
  lemma {:induction false} JoinStripped(parts: seq<string>, sep: string)
    requires parts != []
    requires forall k :: 0 <= k < |parts| ==> parts[k] != [] && IsStripped(parts[k])
    ensures Join(parts, sep) != [] && IsStripped(Join(parts, sep))
    decreases |parts|
  {
    if |parts| > 1 {
      var rest := Join(parts[1..], sep);
      JoinStripped(parts[1..], sep);
      var j := parts[0] + sep + rest;
      assert j[0] == parts[0][0];
      assert j[|j| - 1] == rest[|rest| - 1];
    }
  }

  /** `s.split(sep)`: the pieces between successive left-to-right,
      non-overlapping occurrences of `sep`. */
  function SplitOn(s: string, sep: string): (parts: seq<string>)
    requires sep != []
    ensures parts != []
    decreases |s|
  {
    match SplitOnce(s, sep)
    case None => [s]
    case Some((before, after)) => [before] + SplitOn(after, sep)
  }

  /** Joining the pieces with `sep` gives `s` back, and no piece contains
      `sep`. */
  lemma {:induction false} SplitOnJoin(s: string, sep: string)
    requires sep != []
    ensures Join(SplitOn(s, sep), sep) == s
    ensures forall p :: p in SplitOn(s, sep) ==> !Contains(p, sep)
    decreases |s|
  {
    match SplitOnce(s, sep)
    case None =>
    case Some((before, after)) =>
      var rest := SplitOn(after, sep);
      SplitOnJoin(after, sep);
      assert SplitOn(s, sep) == [before] + rest;
      assert ([before] + rest)[1..] == rest;
  }

  /** A pattern absent from `s` is absent from each of its infixes. */
  lemma InfixAbsent(s: string, i: nat, j: nat, pat: string)
    requires i <= j <= |s| && !Contains(s, pat)
    ensures !Contains(s[i..j], pat)
  {
    if Contains(s[i..j], pat) {
      ContainsInfix(s, i, j, pat);
    }
  }

  /** A pattern absent from `a + b + c` is absent from `a` and from `c`. */
  lemma ConcatAbsent(a: string, b: string, c: string, pat: string)
    requires !Contains(a + b + c, pat)
    ensures !Contains(a, pat) && !Contains(c, pat)
  {
    var s := a + b + c;
    assert s[..|a|] == a;
    assert s[|a| + |b|..|s|] == c;
    InfixAbsent(s, 0, |a|, pat);
    InfixAbsent(s, |a| + |b|, |s|, pat);
  }

  /** A pattern absent from `s` is absent from every piece of its split. */
  lemma {:induction false} SplitOnPieceAbsent(s: string, sep: string, pat: string, p: string)
    requires sep != [] && !Contains(s, pat)
    requires p in SplitOn(s, sep)
    ensures !Contains(p, pat)
    decreases |s|
  {
    match SplitOnce(s, sep)
    case None =>
    case Some((before, after)) =>
      ConcatAbsent(before, sep, after, pat);
      if p != before {
        SplitOnPieceAbsent(after, sep, pat, p);
      }
  }

  /** The first line of `s`, i.e. `s.split('\n')[0]`. */
  function FirstLine(s: string): (r: string)
    ensures StartsWith(s, r)
    ensures !Contains(r, "\n")
    ensures r == s <==> !Contains(s, "\n")
  {
    match SplitOnce(s, "\n")
    case None => s
    case Some((before, _)) => before
  }

  // ---------------------------------------------------------------------------
  // Case mapping
  // ---------------------------------------------------------------------------

  function UpperChar(c: char): char {
    if 'a' <= c <= 'z' then (c as int - 32) as char else c
  }

  function LowerChar(c: char): char {
    if 'A' <= c <= 'Z' then (c as int + 32) as char else c
  }

  /** `s.upper()`, restricted to the ASCII letters. */
  function Upper(s: string): string {
    seq(|s|, i requires 0 <= i < |s| => UpperChar(s[i]))
  }

  /** `s.lower()`, restricted to the ASCII letters. */
  function Lower(s: string): string {
    seq(|s|, i requires 0 <= i < |s| => LowerChar(s[i]))
  }

  /** Lower-casing twice is lower-casing once. */
  lemma LowerIdempotent(s: string)
    ensures Lower(Lower(s)) == Lower(s)
  {
  }

  // ---------------------------------------------------------------------------
  // Slicing
  // ---------------------------------------------------------------------------

  /** `xs[:n]`: for `n >= 0` the first `n` items (all of them if fewer); for a
      negative `n`, everything but the last `-n` items. Always a prefix. */
  function Take<T>(xs: seq<T>, n: int): (r: seq<T>)
    ensures r <= xs
    ensures 0 <= n ==> |r| == Min(n, |xs|)
    ensures n < 0 ==> |r| == Max(|xs| + n, 0)
  {
    if 0 <= n then (if n < |xs| then xs[..n] else xs)
    else if 0 < |xs| + n then xs[..|xs| + n]
    else []
  }

  // ---------------------------------------------------------------------------
  // Filtering comprehensions
  // ---------------------------------------------------------------------------

  /** `[y for x in xs for y in [f(x)] if y is not None]`: the kept images, in
      the order of `xs`. */
  function FilterMap<A, B>(xs: seq<A>, f: A -> Option<B>): (ys: seq<B>)
    ensures |ys| <= |xs|
  {
    if xs == [] then []
    else
      var init := FilterMap(xs[..|xs| - 1], f);
      match f(xs[|xs| - 1])
      case None => init
      case Some(y) => init + [y]
  }

  /** Mapping one more item appends its image, if it has one. */
  lemma FilterMapSnoc<A, B>(xs: seq<A>, x: A, f: A -> Option<B>)
    ensures FilterMap(xs + [x], f) == FilterMap(xs, f) + (if f(x).Some? then [f(x).value] else [])
  {
    assert (xs + [x])[..|xs|] == xs;
  }

  /** An item is in the result exactly when some input maps to it. */
  lemma {:induction false} FilterMapMembership<A, B>(xs: seq<A>, f: A -> Option<B>, y: B)
    ensures y in FilterMap(xs, f) <==> exists x :: x in xs && f(x) == Some(y)
    decreases |xs|
  {
    if xs != [] {
      var init, last := xs[..|xs| - 1], xs[|xs| - 1];
      FilterMapMembership(init, f, y);
      assert xs == init + [last];
      if exists x :: x in xs && f(x) == Some(y) {
        var x :| x in xs && f(x) == Some(y);
        if x != last {
          assert x in init;
        }
      }
    }
  }

  /** A witness for `FilterMapMembership`. */
  lemma FilterMapSource<A, B>(xs: seq<A>, f: A -> Option<B>, y: B) returns (x: A)
    requires y in FilterMap(xs, f)
    ensures x in xs && f(x) == Some(y)
  {
    FilterMapMembership(xs, f, y);
    x :| x in xs && f(x) == Some(y);
  }
}
