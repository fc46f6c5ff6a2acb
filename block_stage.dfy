/** The block stage of `QuizGenerator.generate_questions` (app.py): cutting the
    generated text into question blocks and turning each block that carries the
    `||` delimiter into a (question, answer) pair. */
module BlockStage {
  import opened PyStr
  import opened QuizTypes

  /** Separates a question from its answer. */
  const Delimiter := "||"

  /** What an upstream serialisation failure leaves in the text. */
  const ObjectMarker := "[object Object]"

  // ---------------------------------------------------------------------------
  // The numbered-item pattern `\n\s*\d+\.` and `re.split` on it
  // ---------------------------------------------------------------------------

  /** The text matched by `\n\s*\d+\.`: a newline, then whitespace, then at
      least one digit, then a dot. */
  predicate IsMarker(m: string) {
    && 3 <= |m| && m[0] == '\n' && m[|m| - 1] == '.' && IsDigit(m[|m| - 2])
    && (forall a :: 1 <= a < |m| - 1 ==> IsSpace(m[a]) || IsDigit(m[a]))
    && (forall a, b :: 1 <= a < b < |m| - 1 && IsDigit(m[a]) ==> IsDigit(m[b]))
  }

  /** `\d*` starting at `i`: the index of the first non-digit. */
  function SkipDigits(s: string, i: nat): (j: nat)
    requires i <= |s|
    ensures i <= j <= |s|
    decreases |s| - i
  {
    if i < |s| && IsDigit(s[i]) then SkipDigits(s, i + 1) else i
  }

  /** `SkipDigits` passes over digits only, and stops at a non-digit. */
  lemma {:induction false} SkipDigitsStops(s: string, i: nat)
    requires i <= |s|
    ensures forall k :: i <= k < SkipDigits(s, i) ==> IsDigit(s[k])
    ensures SkipDigits(s, i) == |s| || !IsDigit(s[SkipDigits(s, i)])
    decreases |s| - i
  {
    if i < |s| && IsDigit(s[i]) {
      SkipDigitsStops(s, i + 1);
    }
  }

  /** Length of the match of `\n\s*\d+\.` that starts at index `i` of `s`, if
      one starts there. Whitespace and digits are disjoint, so greedy matching
      never has to backtrack and the match is unique. */
  function MarkerAt(s: string, i: nat): (r: Option<nat>)
    ensures r.Some? ==> 3 <= r.value && i + r.value <= |s|
  {
    if i < |s| && s[i] == '\n' then
      var j := SkipSpaces(s, i + 1);
      var k := SkipDigits(s, j);
      if j < k < |s| && s[k] == '.' then Some(k + 1 - i) else None
    else None
  }

  /** What `MarkerAt` reports is text of the pattern's shape. */
  lemma MarkerAtSound(s: string, i: nat)
    requires MarkerAt(s, i).Some?
    ensures IsMarker(s[i..i + MarkerAt(s, i).value])
  {
    var j := SkipSpaces(s, i + 1);
    SkipSpacesStops(s, i + 1);
    var k := SkipDigits(s, j);
    SkipDigitsStops(s, j);
    var m := s[i..k + 1];
    assert forall a :: 0 <= a < |m| ==> m[a] == s[i + a];
  }

  /** `MarkerAt` misses no match: any text of the pattern's shape starting at
      `i` is exactly what `MarkerAt` reports there. */
  lemma MarkerAtComplete(s: string, i: nat, len: nat)
    requires i + len <= |s| && IsMarker(s[i..i + len])
    ensures MarkerAt(s, i) == Some(len)
  {
    var m := s[i..i + len];
    assert forall a :: 0 <= a < len ==> m[a] == s[i + a];
    assert s[i] == '\n';
    var j := SkipSpaces(s, i + 1);
    SkipSpacesStops(s, i + 1);
    assert j <= i + len - 2;
    assert IsDigit(s[j]) by {
      assert IsSpace(m[j - i]) || IsDigit(m[j - i]);
    }
    forall b | j <= b < i + len - 1
      ensures IsDigit(s[b])
    {
      if j < b {
        assert IsDigit(m[j - i]);
        assert IsDigit(m[b - i]);
      }
    }
    var k := SkipDigits(s, j);
    SkipDigitsStops(s, j);
    assert k == i + len - 1;
  }

  /** The first match at or after `from`, as (start, length). */
  function FindMarker(s: string, from: nat): (r: Option<(nat, nat)>)
    requires from <= |s|
    ensures r.Some? ==> from <= r.value.0 && 3 <= r.value.1 && r.value.0 + r.value.1 <= |s|
    decreases |s| - from
  {
    if from == |s| then None
    else
      match MarkerAt(s, from)
      case Some(len) => Some((from, len))
      case None => FindMarker(s, from + 1)
  }

  /** What `FindMarker` finds is a match. */
  lemma {:induction false} FindMarkerSound(s: string, from: nat)
    requires from <= |s| && FindMarker(s, from).Some?
    ensures MarkerAt(s, FindMarker(s, from).value.0) == Some(FindMarker(s, from).value.1)
    decreases |s| - from
  {
    if MarkerAt(s, from).None? {
      FindMarkerSound(s, from + 1);
    }
  }

  /** `FindMarker` finds the leftmost match: none starts before it. */
  lemma {:induction false} FindMarkerFirst(s: string, from: nat, j: nat)
    requires from <= |s| && from <= j
    requires FindMarker(s, from).None? || j < FindMarker(s, from).value.0
    ensures MarkerAt(s, j).None?
    decreases |s| - from
  {
    if from < |s| && j > from {
      FindMarkerFirst(s, from + 1, j);
    }
  }

  /** Whether the numbered-item pattern matches anywhere in `s`. */
  predicate HasMarker(s: string) {
    FindMarker(s, 0).Some?
  }

  /** A match inside an infix of `s` is a match in `s`, at the shifted index. */
  lemma MarkerInInfix(s: string, lo: nat, hi: nat) returns (p: nat)
    requires lo <= hi <= |s|
    requires HasMarker(s[lo..hi])
    ensures lo <= p < hi && MarkerAt(s, p).Some?
  {
    var t := s[lo..hi];
    var found := FindMarker(t, 0).value;
    var q, len := found.0, found.1;
    FindMarkerSound(t, 0);
    MarkerAtSound(t, q);
    SliceOfSlice(s, lo, hi, q, q + len);
    MarkerAtComplete(s, lo + q, len);
    p := lo + q;
  }

  /** Stripping cannot introduce a match. */
  lemma StripKeepsNoMarker(s: string)
    requires !HasMarker(s)
    ensures !HasMarker(Strip(s))
  {
    if HasMarker(Strip(s)) {
      var p := MarkerInInfix(s, LeadingSpaces(s), LeadingSpaces(s) + |Strip(s)|);
      FindMarkerFirst(s, 0, p);
    }
  }

  /** `re.split(r'\n\s*\d+\.', s)`: the text between successive matches,
      scanning left to right. */
  function SplitNumbered(s: string): (pieces: seq<string>)
    ensures pieces != []
    decreases |s|
  {
    match FindMarker(s, 0)
    case None => [s]
    case Some((at, len)) => [s[..at]] + SplitNumbered(s[at + len..])
  }

  /** No piece of the split contains a match. */
  lemma {:induction false} SplitNumberedPieceFree(s: string, p: string)
    requires p in SplitNumbered(s)
    ensures !HasMarker(p)
    decreases |s|
  {
    match FindMarker(s, 0)
    case None =>
    case Some((at, len)) =>
      if p == s[..at] {
        if HasMarker(p) {
          var q := MarkerInInfix(s, 0, at);
          FindMarkerFirst(s, 0, q);
        }
      } else {
        SplitNumberedPieceFree(s[at + len..], p);
      }
  }

  /** A pattern absent from `s` is absent from every piece of the numbered
      split. */
  lemma {:induction false} SplitNumberedPieceAbsent(s: string, pat: string, p: string)
    requires !Contains(s, pat)
    requires p in SplitNumbered(s)
    ensures !Contains(p, pat)
    decreases |s|
  {
    match FindMarker(s, 0)
    case None =>
    case Some((at, len)) =>
      if p == s[..at] {
        InfixAbsent(s, 0, at, pat);
      } else {
        assert s[at + len..] == s[at + len..|s|];
        InfixAbsent(s, at + len, |s|, pat);
        SplitNumberedPieceAbsent(s[at + len..], pat, p);
      }
  }

  /** The matched separators, in order. */
  function NumberedMarkers(s: string): seq<string>
    decreases |s|
  {
    match FindMarker(s, 0)
    case None => []
    case Some((at, len)) => [s[at..at + len]] + NumberedMarkers(s[at + len..])
  }

  /** `pieces[0] + markers[0] + pieces[1] + ... + pieces[n]` */
  function Interleave(pieces: seq<string>, markers: seq<string>): string
    requires |pieces| == |markers| + 1
  {
    if markers == [] then pieces[0]
    else pieces[0] + markers[0] + Interleave(pieces[1..], markers[1..])
  }

  /** The split has one piece more than it has separators. */
  lemma {:induction false} SplitNumberedCount(s: string)
    ensures |SplitNumbered(s)| == |NumberedMarkers(s)| + 1
    decreases |s|
  {
    match FindMarker(s, 0)
    case None =>
      assert SplitNumbered(s) == [s];
      assert NumberedMarkers(s) == [];
    case Some((at, len)) =>
      var rest := s[at + len..];
      SplitNumberedCount(rest);
      assert SplitNumbered(s) == [s[..at]] + SplitNumbered(rest);
      assert NumberedMarkers(s) == [s[at..at + len]] + NumberedMarkers(rest);
  }

  /** Putting the separators back between the pieces gives the text again. */
  lemma {:induction false} SplitNumberedRoundTrip(s: string)
    ensures |SplitNumbered(s)| == |NumberedMarkers(s)| + 1
    ensures Interleave(SplitNumbered(s), NumberedMarkers(s)) == s
    decreases |s|
  {
    SplitNumberedCount(s);
    match FindMarker(s, 0)
    case None =>
      assert SplitNumbered(s) == [s];
      assert NumberedMarkers(s) == [];
    case Some((at, len)) =>
      var rest := s[at + len..];
      SplitNumberedRoundTrip(rest);
      assert SplitNumbered(s) == [s[..at]] + SplitNumbered(rest);
      assert NumberedMarkers(s) == [s[at..at + len]] + NumberedMarkers(rest);
      InterleaveCons(s, at, len, SplitNumbered(rest), NumberedMarkers(rest));
  }

  /** One step of the round trip: a first piece and separator in front of a
      round trip of the remainder give a round trip of the whole. */
  lemma InterleaveCons(s: string, at: nat, len: nat, pieces: seq<string>, markers: seq<string>)
    requires at + len <= |s| && |pieces| == |markers| + 1
    requires Interleave(pieces, markers) == s[at + len..]
    ensures Interleave([s[..at]] + pieces, [s[at..at + len]] + markers) == s
  {
    var ps, ms := [s[..at]] + pieces, [s[at..at + len]] + markers;
    assert ps[1..] == pieces && ms[1..] == markers;
    assert s == s[..at] + s[at..at + len] + s[at + len..];
  }

  /** Every separator the split removes is text of the pattern's shape. */
  lemma {:induction false} NumberedMarkersShape(s: string, m: string)
    requires m in NumberedMarkers(s)
    ensures IsMarker(m)
    decreases |s|
  {
    match FindMarker(s, 0)
    case None =>
    case Some((at, len)) =>
      assert NumberedMarkers(s) == [s[at..at + len]] + NumberedMarkers(s[at + len..]);
      if m == s[at..at + len] {
        FindMarkerSound(s, 0);
        MarkerAtSound(s, at);
      } else {
        NumberedMarkersShape(s[at + len..], m);
      }
  }

  // ---------------------------------------------------------------------------
  // Block selection
  // ---------------------------------------------------------------------------

  /** `b.strip()` when it is not empty. */
  function NonBlankStrip(b: string): Option<string> {
    var t := Strip(b);
    if t != [] then Some(t) else None
  }

  /** The stripped parts, in order, with the blank ones dropped. */
  function StripNonBlank(parts: seq<string>): seq<string> {
    FilterMap(parts, NonBlankStrip)
  }

  /** Every block is the non-empty strip of one of the parts. */
  lemma StripNonBlankSource(parts: seq<string>, b: string) returns (p: string)
    requires b in StripNonBlank(parts)
    ensures p in parts && Strip(p) == b && b != []
  {
    p := FilterMapSource(parts, NonBlankStrip, b);
  }

  /** A first block that neither starts with "1." nor contains the delimiter
      is treated as an introduction before the first question. */
  predicate IsPreamble(block: string) {
    !StartsWith(block, "1.") && !Contains(block, Delimiter)
  }

  /** The question blocks of the generated text. With "1." somewhere in the
      text: the stripped non-empty pieces between numbered-item markers, minus
      a leading preamble block. Otherwise: the stripped non-empty paragraphs
      separated by "\n\n". */
  function QuestionBlocks(text: string): seq<string> {
    if Contains(text, "1.") then
      var candidates := StripNonBlank(SplitNumbered(text));
      if candidates != [] && IsPreamble(candidates[0]) then candidates[1..] else candidates
    else StripNonBlank(SplitOn(text, "\n\n"))
  }

  /** Every block is non-empty and stripped; on the numbered path it holds no
      numbered-item marker, and on the paragraph path no blank line "\n\n". */
  lemma QuestionBlocksShape(text: string, b: string)
    requires b in QuestionBlocks(text)
    ensures b != [] && IsStripped(b)
    ensures Contains(text, "1.") ==> !HasMarker(b)
    ensures !Contains(text, "1.") ==> !Contains(b, "\n\n")
  {
    if Contains(text, "1.") {
      var pieces := SplitNumbered(text);
      var candidates := StripNonBlank(pieces);
      assert b in candidates;
      var p := StripNonBlankSource(pieces, b);
      SplitNumberedPieceFree(text, p);
      StripKeepsNoMarker(p);
    } else {
      var paragraphs := SplitOn(text, "\n\n");
      SplitOnJoin(text, "\n\n");
      var p := StripNonBlankSource(paragraphs, b);
      StripKeepsAbsent(p, "\n\n");
    }
  }

  /** A pattern absent from the text is absent from every block. */
  lemma QuestionBlocksAbsent(text: string, pat: string, b: string)
    requires !Contains(text, pat)
    requires b in QuestionBlocks(text)
    ensures !Contains(b, pat)
  {
    if Contains(text, "1.") {
      var pieces := SplitNumbered(text);
      assert b in StripNonBlank(pieces);
      var p := StripNonBlankSource(pieces, b);
      SplitNumberedPieceAbsent(text, pat, p);
      StripKeepsAbsent(p, pat);
    } else {
      var p := StripNonBlankSource(SplitOn(text, "\n\n"), b);
      SplitOnPieceAbsent(text, "\n\n", pat, p);
      StripKeepsAbsent(p, pat);
    }
  }

  /** The preamble rule: without "1." in the text nothing is dropped; with it,
      at most the first candidate block is dropped, and it is dropped exactly
      when it is a preamble. */
  lemma PreambleRule(text: string)
    ensures !Contains(text, "1.") ==> QuestionBlocks(text) == StripNonBlank(SplitOn(text, "\n\n"))
    ensures Contains(text, "1.") ==>
      var candidates := StripNonBlank(SplitNumbered(text));
      var dropped := |candidates| - |QuestionBlocks(text)|;
      && 0 <= dropped <= 1
      && QuestionBlocks(text) == candidates[dropped..]
      && (dropped == 1 <==> candidates != [] && IsPreamble(candidates[0]))
  {
  }

  // ---------------------------------------------------------------------------
  // Pairs from blocks
  // ---------------------------------------------------------------------------

  /** What every pair taken from a block satisfies: both sides non-empty and
      stripped, neither holds the serialisation marker, and the question holds
      no delimiter. */
  predicate ValidBlockPair(p: QA) {
    && p.question != [] && p.answer != []
    && IsStripped(p.question) && IsStripped(p.answer)
    && !Contains(p.question, ObjectMarker) && !Contains(p.answer, ObjectMarker)
    && !Contains(p.question, Delimiter)
  }

  /** The pair one block yields: the stripped text before the first `||` and
      the stripped text after it; `None` when the block has no delimiter, when
      a side is empty, or when a side holds the serialisation marker. */
  function BlockPair(block: string): (r: Option<QA>)
    ensures r.Some? ==> Contains(block, Delimiter) && ValidBlockPair(r.value)
  {
    match SplitOnce(block, Delimiter)
    case None => None
    case Some((before, after)) =>
      var q, a := Strip(before), Strip(after);
      if Contains(q, ObjectMarker) || Contains(a, ObjectMarker) then None
      else if q == [] || a == [] then None
      else
        StripKeepsAbsent(before, Delimiter);
        Some(QA(q, a))
  }

  /** `BlockPair` inverts writing a pair as `question || answer`, with any
      whitespace around either side (the prompt's own layout puts a newline
      before the delimiter): every valid pair comes back unchanged, even when
      its answer contains further delimiters, provided the text in front of
      the delimiter does not end in `|`. */
  lemma BlockPairRoundTrip(w1: string, q: string, w2: string, w3: string, a: string, w4: string)
    requires AllSpace(w1) && AllSpace(w2) && AllSpace(w3) && AllSpace(w4)
    requires ValidBlockPair(QA(q, a))
    requires w2 != [] || q[|q| - 1] != '|'
    ensures BlockPair(w1 + q + w2 + Delimiter + w3 + a + w4) == Some(QA(q, a))
  {
    var before, after := w1 + q + w2, w3 + a + w4;
    ContainsPadded(w1, q, w2, Delimiter);
    if w2 != [] {
      assert before[|before| - 1] == w2[|w2| - 1];
    } else {
      assert before[|before| - 1] == q[|q| - 1];
    }
    SplitOnceJoin(before, Delimiter, after);
    assert w1 + q + w2 + Delimiter + w3 + a + w4 == before + Delimiter + after;
    StripPadded(w1, q, w2);
    StripPadded(w3, a, w4);
  }

  /** The block layout the generation prompt asks for, a question, a newline
      and then `||answer`, yields exactly that pair. */
  lemma PromptLayoutBlock(q: string, a: string)
    requires ValidBlockPair(QA(q, a))
    ensures BlockPair(q + "\n" + Delimiter + a) == Some(QA(q, a))
  {
    var none: string, newline := [], "\n";
    assert AllSpace(newline) by {
      assert newline[0] == '\n';
    }
    assert none + q + newline + Delimiter + none + a + none == q + "\n" + Delimiter + a;
    BlockPairRoundTrip(none, q, newline, none, a, none);
  }

  /** The pairs of the blocks that yield one, in block order. */
  function BlockPairs(blocks: seq<string>): seq<QA> {
    FilterMap(blocks, BlockPair)
  }

  /** Every pair the block stage emits is valid, and comes from one of the
      blocks. */
  lemma BlockPairsValid(blocks: seq<string>, p: QA)
    requires p in BlockPairs(blocks)
    ensures ValidBlockPair(p)
    ensures exists b :: b in blocks && Contains(b, Delimiter) && BlockPair(b) == Some(p)
  {
    var b := FilterMapSource(blocks, BlockPair, p);
  }
}
