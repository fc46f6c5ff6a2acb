/** The line-by-line fallback of `QuizGenerator.generate_questions` (app.py),
    run when no block yielded a pair: a scan over the lines of the generated
    text that buffers question lines and emits a pair at each line carrying the
    `||` delimiter. */
module LineFallback {
  import opened PyStr
  import opened QuizTypes
  import BlockStage

  /** The scan's state: the pairs emitted so far (`questions`) and the buffered
      question lines (`current_question`). */
  datatype LineState = LineState(pairs: seq<QA>, pending: seq<string>)

  /** A stripped line that opens a new numbered question: it starts with a
      digit and contains ". ". */
  predicate IsNumberedLine(line: string) {
    line != [] && IsDigit(line[0]) && Contains(line, ". ")
  }

  /** One iteration of the scan on the raw line `raw`. A line with the
      delimiter adds its stripped question part (when non-empty) to the buffer
      and, when the buffer is then non-empty, emits the buffer joined by
      newlines with the stripped answer part and empties the buffer. A
      numbered line seen while the buffer is non-empty replaces the buffer; any
      other non-empty line is appended to it. */
  function LineStep(st: LineState, raw: string): LineState {
    var line := Strip(raw);
    match SplitOnce(line, BlockStage.Delimiter)
    case Some((before, after)) => DelimiterStep(st, Strip(before), Strip(after))
    case None => PlainStep(st, line, IsNumberedLine(line))
  }

  /** The step for a line with the delimiter, given its stripped question and
      answer parts. */
  function DelimiterStep(st: LineState, q: string, a: string): LineState {
    var pending := if q != [] then st.pending + [q] else st.pending;
    if pending != [] then LineState(st.pairs + [QA(Join(pending, "\n"), a)], [])
    else LineState(st.pairs, pending)
  }

  /** The step for a stripped line without the delimiter. */
  function PlainStep(st: LineState, line: string, numbered: bool): LineState {
    if numbered && st.pending != [] then LineState(st.pairs, [line])
    else if line != [] then LineState(st.pairs, st.pending + [line])
    else st
  }

  /** The state after scanning `lines` from an empty state. */
  function LineScan(lines: seq<string>): LineState {
    if lines == [] then LineState([], [])
    else LineStep(LineScan(lines[..|lines| - 1]), lines[|lines| - 1])
  }

  /** The pairs the fallback finds in the generated text. */
  function LinePairs(text: string): seq<QA> {
    LineScan(SplitOn(text, "\n")).pairs
  }

  /** What the buffer always holds: non-empty stripped lines without the
      delimiter. */
  predicate PendingOk(st: LineState) {
    forall k :: 0 <= k < |st.pending| ==>
      st.pending[k] != [] && IsStripped(st.pending[k]) && !Contains(st.pending[k], BlockStage.Delimiter)
  }

  /** What every emitted pair satisfies: a non-empty stripped question and a
      stripped answer, which may be empty. */
  predicate ValidLinePair(p: QA) {
    p.question != [] && IsStripped(p.question) && IsStripped(p.answer)
  }

  /** All emitted pairs are valid. */
  predicate PairsOk(st: LineState) {
    forall k :: 0 <= k < |st.pairs| ==> ValidLinePair(st.pairs[k])
  }

  /** A delimiter step keeps the buffer well formed and emits at most one
      valid pair after the ones already emitted. */
  lemma DelimiterStepPreserves(st: LineState, q: string, a: string)
    requires PendingOk(st) && PairsOk(st)
    requires IsStripped(q) && IsStripped(a) && !Contains(q, BlockStage.Delimiter)
    ensures PendingOk(DelimiterStep(st, q, a)) && PairsOk(DelimiterStep(st, q, a))
    ensures st.pairs <= DelimiterStep(st, q, a).pairs
    ensures |DelimiterStep(st, q, a).pairs| <= |st.pairs| + 1
  {
    var pending := if q != [] then st.pending + [q] else st.pending;
    if pending != [] {
      JoinStripped(pending, "\n");
    }
  }

  /** A step keeps the buffer well formed and only ever emits valid pairs,
      appending them after the ones already emitted. */
  lemma LineStepPreserves(st: LineState, raw: string)
    requires PendingOk(st) && PairsOk(st)
    ensures PendingOk(LineStep(st, raw)) && PairsOk(LineStep(st, raw))
    ensures st.pairs <= LineStep(st, raw).pairs
    ensures |LineStep(st, raw).pairs| <= |st.pairs| + 1
  {
    var line := Strip(raw);
    match SplitOnce(line, BlockStage.Delimiter)
    case Some((before, after)) =>
      StripKeepsAbsent(before, BlockStage.Delimiter);
      DelimiterStepPreserves(st, Strip(before), Strip(after));
    case None =>
  }

  /** The scan's invariant: the buffer is well formed, every emitted pair is
      valid, and there are at most as many pairs as lines. */
  lemma {:induction false} LineScanInvariant(lines: seq<string>)
    ensures PendingOk(LineScan(lines)) && PairsOk(LineScan(lines))
    ensures |LineScan(lines).pairs| <= |lines|
  {
    if lines != [] {
      LineScanInvariant(lines[..|lines| - 1]);
      LineStepPreserves(LineScan(lines[..|lines| - 1]), lines[|lines| - 1]);
    }
  }

  /** Every pair of the fallback has a non-empty stripped question and a
      stripped (possibly empty) answer. */
  lemma LinePairsValid(text: string, p: QA)
    requires p in LinePairs(text)
    ensures ValidLinePair(p)
  {
    LineScanInvariant(SplitOn(text, "\n"));
  }

  /** A step never retracts a pair. */
  lemma LineStepGrows(st: LineState, raw: string)
    ensures st.pairs <= LineStep(st, raw).pairs
  {
    match SplitOnce(Strip(raw), BlockStage.Delimiter)
    case Some((before, after)) =>
      assert LineStep(st, raw) == DelimiterStep(st, Strip(before), Strip(after));
    case None =>
  }

  /** A line without the delimiter emits nothing. */
  lemma PlainLineKeepsPairs(st: LineState, raw: string)
    requires !Contains(Strip(raw), BlockStage.Delimiter)
    ensures LineStep(st, raw).pairs == st.pairs
  {
  }

  /** Scanning more lines never retracts a pair: the pairs found in the first
      `n` lines are a prefix of the pairs found in all of them. */
  lemma {:induction false} LineScanMonotone(lines: seq<string>, n: nat)
    requires n <= |lines|
    ensures LineScan(lines[..n]).pairs <= LineScan(lines).pairs
  {
    if n < |lines| {
      var init := lines[..|lines| - 1];
      LineScanMonotone(init, n);
      assert init[..n] == lines[..n];
      LineStepGrows(LineScan(init), lines[|lines| - 1]);
    } else {
      assert lines[..n] == lines;
    }
  }

  /** Lines without the delimiter never emit a pair, so whatever the buffer
      holds after the last delimiter line is dropped. */
  lemma {:induction false} TrailingLinesNotEmitted(lines: seq<string>, n: nat)
    requires n <= |lines|
    requires forall k :: n <= k < |lines| ==> !Contains(Strip(lines[k]), BlockStage.Delimiter)
    ensures LineScan(lines).pairs == LineScan(lines[..n]).pairs
  {
    if n < |lines| {
      var init := lines[..|lines| - 1];
      TrailingLinesNotEmitted(init, n);
      assert init[..n] == lines[..n];
      PlainLineKeepsPairs(LineScan(init), lines[|lines| - 1]);
    } else {
      assert lines[..n] == lines;
    }
  }

  /** A text without the delimiter gives the fallback no pair at all. */
  lemma NoDelimiterNoLinePairs(text: string)
    requires !Contains(text, BlockStage.Delimiter)
    ensures LinePairs(text) == []
  {
    var lines := SplitOn(text, "\n");
    forall k | 0 <= k < |lines|
      ensures !Contains(Strip(lines[k]), BlockStage.Delimiter)
    {
      SplitOnPieceAbsent(text, "\n", BlockStage.Delimiter, lines[k]);
      StripKeepsAbsent(lines[k], BlockStage.Delimiter);
    }
    TrailingLinesNotEmitted(lines, 0);
    assert lines[..0] == [];
  }

  /** A numbered line without the delimiter, seen while the buffer is
      non-empty, replaces the buffer and emits nothing. */
  lemma NumberedLineRestarts(st: LineState, raw: string)
    requires st.pending != []
    requires IsNumberedLine(Strip(raw)) && !Contains(Strip(raw), BlockStage.Delimiter)
    ensures LineStep(st, raw) == LineState(st.pairs, [Strip(raw)])
  {
  }

  /** Stripping a padded `question || answer` line removes exactly the outer
      padding. */
  lemma PaddedLineStrip(w1: string, q: string, w2: string, w3: string, a: string, w4: string)
    requires AllSpace(w1) && AllSpace(w4)
    requires q != [] && IsStripped(q) && a != [] && IsStripped(a)
    ensures Strip(w1 + q + w2 + BlockStage.Delimiter + w3 + a + w4) == q + w2 + BlockStage.Delimiter + w3 + a
  {
    var line := q + w2 + BlockStage.Delimiter + w3 + a;
    assert w1 + q + w2 + BlockStage.Delimiter + w3 + a + w4 == w1 + line + w4;
    assert line[0] == q[0] && line[|line| - 1] == a[|a| - 1];
    StripPadded(w1, line, w4);
  }

  /** The first-delimiter split of the stripped line recovers the question and
      the answer, each with its inner padding, which stripping removes. */
  lemma PaddedLineSplit(q: string, w2: string, w3: string, a: string)
    requires AllSpace(w2) && AllSpace(w3)
    requires q != [] && IsStripped(q) && !Contains(q, BlockStage.Delimiter)
    requires a != [] && IsStripped(a)
    requires w2 != [] || q[|q| - 1] != '|'
    ensures SplitOnce(q + w2 + BlockStage.Delimiter + w3 + a, BlockStage.Delimiter) == Some((q + w2, w3 + a))
    ensures Strip(q + w2) == q && Strip(w3 + a) == a
  {
    var before, after := q + w2, w3 + a;
    var none: string := [];
    ContainsPadded(none, q, w2, BlockStage.Delimiter);
    assert none + q + w2 == before;
    if w2 != [] {
      assert before[|before| - 1] == w2[|w2| - 1];
    } else {
      assert before[|before| - 1] == q[|q| - 1];
    }
    SplitOnceJoin(before, BlockStage.Delimiter, after);
    assert before + BlockStage.Delimiter + after == q + w2 + BlockStage.Delimiter + w3 + a;
    StripPadded(none, q, w2);
    StripPadded(w3, a, none);
    assert w3 + a + none == after;
  }

  /** A line `question || answer`, with any whitespace around either side,
      emits the buffer extended by the question, joined by newlines, paired
      with the answer, and empties the buffer, provided the question is
      non-empty, stripped and free of the delimiter, the answer is non-empty
      and stripped, and the text in front of the delimiter does not end in `|`. */
  lemma DelimiterLineEmits(st: LineState, w1: string, q: string, w2: string, w3: string, a: string, w4: string)
    requires AllSpace(w1) && AllSpace(w2) && AllSpace(w3) && AllSpace(w4)
    requires q != [] && IsStripped(q) && !Contains(q, BlockStage.Delimiter)
    requires a != [] && IsStripped(a)
    requires w2 != [] || q[|q| - 1] != '|'
    ensures LineStep(st, w1 + q + w2 + BlockStage.Delimiter + w3 + a + w4)
         == LineState(st.pairs + [QA(Join(st.pending + [q], "\n"), a)], [])
  {
    PaddedLineStrip(w1, q, w2, w3, a, w4);
    PaddedLineSplit(q, w2, w3, a);
    assert LineStep(st, w1 + q + w2 + BlockStage.Delimiter + w3 + a + w4) == DelimiterStep(st, q, a);
  }

  /** A delimiter line with nothing after the delimiter: the fallback emits a
      pair with an empty answer, where the block stage rejects the same text. */
  lemma EmptyAnswerOnlyInFallback(st: LineState, q: string)
    requires q != [] && IsStripped(q) && q[|q| - 1] != '|'
    requires !Contains(q, BlockStage.Delimiter)
    ensures LineStep(st, q + BlockStage.Delimiter)
         == LineState(st.pairs + [QA(Join(st.pending + [q], "\n"), "")], [])
    ensures BlockStage.BlockPair(q + BlockStage.Delimiter).None?
  {
    var line := q + BlockStage.Delimiter;
    assert line[0] == q[0] && line[|line| - 1] == '|';
    StrippedFixed(line);
    SplitOnceJoin(q, BlockStage.Delimiter, []);
    assert line + [] == line;
    StrippedFixed(q);
  }
}
