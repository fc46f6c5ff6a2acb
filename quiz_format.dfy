/** The module-level `generate_quiz` adapter of app.py: it asks the parser for
    pairs on one subject and shapes each pair into a quiz record, pulling
    lettered options out of the question text. */
module QuizFormat {
  import opened PyStr
  import opened QuizTypes
  import QuizGenerator

  /** The options used when none were found but the answer is a letter. */
  const Placeholders := ["Option A", "Option B", "Option C", "Option D"]

  /** The line, unstripped, begins with a letter A to D followed by `)`. */
  predicate HasOptionPrefix(line: string) {
    2 <= |line| && line[0] in "ABCD" && line[1] == ')'
  }

  /** Keeps the line when `line.strip()` is non-empty. */
  function NonBlank(line: string): Option<string> {
    if Strip(line) != [] then Some(line) else None
  }

  /** The lines after the first whose strip is not empty. */
  function OptionLines(lines: seq<string>): seq<string> {
    if lines == [] then [] else FilterMap(lines[1..], NonBlank)
  }

  /** The option an option line contributes: the line without its two-character
      prefix, stripped. */
  function OptionOf(line: string): Option<string> {
    if Strip(line) != [] && HasOptionPrefix(line) then Some(Strip(line[2..])) else None
  }

  /** Some option line has a letter prefix. */
  predicate AnyOptionLine(optionLines: seq<string>) {
    exists k :: 0 <= k < |optionLines| && HasOptionPrefix(optionLines[k])
  }

  /** The options extracted from the option lines, before the placeholder
      rule. */
  function ExtractedOptions(optionLines: seq<string>): seq<string> {
    if optionLines != [] && AnyOptionLine(optionLines) then FilterMap(optionLines, OptionOf) else []
  }

  /** The upper-cased answer is one of the letters A to D. */
  predicate IsLetterAnswer(answer: string) {
    Upper(answer) in ["A", "B", "C", "D"]
  }

  /** The options of a record: the extracted ones, or the placeholders when
      there are none and the answer is a letter. */
  function RecordOptions(lines: seq<string>, answer: string): seq<string> {
    var extracted := ExtractedOptions(OptionLines(lines));
    if extracted == [] && IsLetterAnswer(answer) then Placeholders else extracted
  }

  /** The record built from one pair. */
  function QuestionRecord(qa: QA): QuizQuestion {
    var lines := SplitOn(qa.question, "\n");
    QuizQuestion(if lines != [] then lines[0] else qa.question, RecordOptions(lines, qa.answer), qa.answer)
  }

  /** The option loop, run only when some option line has a letter prefix. */
  method CollectOptions(optionLines: seq<string>) returns (options: seq<string>)
    ensures options == ExtractedOptions(optionLines)
  {
    options := [];
    if optionLines != [] && exists k :: 0 <= k < |optionLines| && HasOptionPrefix(optionLines[k]) {
      var i := 0;
      while i < |optionLines|
        invariant i <= |optionLines|
        invariant options == FilterMap(optionLines[..i], OptionOf)
      {
        var line := optionLines[i];
        assert optionLines[..i + 1] == optionLines[..i] + [line];
        FilterMapSnoc(optionLines[..i], line, OptionOf);
        if Strip(line) != [] && HasOptionPrefix(line) {
          options := options + [Strip(line[2..])];
        }
        i := i + 1;
      }
      assert optionLines[..i] == optionLines;
    }
  }

  /** The body of the adapter's loop for one pair. */
  method FormatQuestion(qa: QA) returns (record: QuizQuestion)
    ensures record == QuestionRecord(qa)
  {
    var lines := SplitOn(qa.question, "\n");
    var optionLines := OptionLines(lines);
    var options := CollectOptions(optionLines);
    if options == [] && IsLetterAnswer(qa.answer) {
      options := Placeholders;
    }
    record := QuizQuestion(if lines != [] then lines[0] else qa.question, options, qa.answer);
  }

  /** A line with an option prefix is never blank, so the blank filter and the
      `any` guard change nothing: the extracted options are the options of the
      lines after the first, in order. */
  lemma {:induction false} ExtractedFromAllLines(lines: seq<string>)
    requires lines != []
    ensures ExtractedOptions(OptionLines(lines)) == FilterMap(lines[1..], OptionOf)
  {
    var optionLines := OptionLines(lines);
    OptionsThroughBlankFilter(lines[1..]);
    if !(optionLines != [] && AnyOptionLine(optionLines)) {
      NoPrefixNoOptions(optionLines);
    }
  }

  /** Dropping blank lines first does not change the options. */
  lemma {:induction false} OptionsThroughBlankFilter(lines: seq<string>)
    ensures FilterMap(FilterMap(lines, NonBlank), OptionOf) == FilterMap(lines, OptionOf)
  {
    if lines != [] {
      var init, last := lines[..|lines| - 1], lines[|lines| - 1];
      assert lines == init + [last];
      OptionsThroughBlankFilter(init);
      FilterMapSnoc(init, last, NonBlank);
      FilterMapSnoc(init, last, OptionOf);
      FilterMapSnoc(FilterMap(init, NonBlank), last, OptionOf);
    }
  }

  /** Without a prefixed line there are no options. */
  lemma {:induction false} NoPrefixNoOptions(lines: seq<string>)
    requires !AnyOptionLine(lines)
    ensures FilterMap(lines, OptionOf) == []
  {
    if lines != [] {
      var init := lines[..|lines| - 1];
      assert !AnyOptionLine(init) by {
        forall k | 0 <= k < |init| ensures !HasOptionPrefix(init[k]) {
          assert init[k] == lines[k];
        }
      }
      NoPrefixNoOptions(init);
      assert lines == init + [lines[|lines| - 1]];
      FilterMapSnoc(init, lines[|lines| - 1], OptionOf);
    }
  }

  /** With a prefixed line there is at least one option. */
  lemma {:induction false} PrefixGivesOption(lines: seq<string>, k: nat)
    requires k < |lines| && HasOptionPrefix(lines[k])
    ensures FilterMap(lines, OptionOf) != []
    decreases |lines|
  {
    var init, last := lines[..|lines| - 1], lines[|lines| - 1];
    assert lines == init + [last];
    FilterMapSnoc(init, last, OptionOf);
    if k < |init| {
      assert init[k] == lines[k];
      PrefixGivesOption(init, k);
    } else {
      StripRemovesOnlySpace(last);
    }
  }

  /** Every option comes from a line after the first that starts with a
      letter prefix: it is that line without the prefix, stripped. */
  lemma OptionSource(lines: seq<string>, answer: string, o: string) returns (line: string)
    requires lines != [] && ExtractedOptions(OptionLines(lines)) != []
    requires o in RecordOptions(lines, answer)
    ensures line in lines[1..]
    ensures HasOptionPrefix(line) && o == Strip(line[2..])
  {
    ExtractedFromAllLines(lines);
    line := FilterMapSource(lines[1..], OptionOf, o);
  }

  /** The placeholder rule: when no line after the first carries a letter
      prefix the options are the four placeholders if the answer is a letter
      A-D in either case, and empty otherwise; when some line does, the
      options are the extracted ones, and there is at least one. */
  lemma PlaceholderRule(lines: seq<string>, answer: string)
    requires lines != []
    ensures var prefixed := exists k :: 1 <= k < |lines| && HasOptionPrefix(lines[k]);
      && (!prefixed ==> RecordOptions(lines, answer) == (if IsLetterAnswer(answer) then Placeholders else []))
      && (prefixed ==> RecordOptions(lines, answer) == FilterMap(lines[1..], OptionOf) != [])
  {
    ExtractedFromAllLines(lines);
    if exists k :: 1 <= k < |lines| && HasOptionPrefix(lines[k]) {
      var k :| 1 <= k < |lines| && HasOptionPrefix(lines[k]);
      assert lines[1..][k - 1] == lines[k];
      PrefixGivesOption(lines[1..], k - 1);
    } else {
      assert !AnyOptionLine(lines[1..]) by {
        forall k | 0 <= k < |lines[1..]| ensures !HasOptionPrefix(lines[1..][k]) {
          assert lines[1..][k] == lines[k + 1];
        }
      }
      NoPrefixNoOptions(lines[1..]);
    }
  }

  /** An answer counts as a letter exactly when it is one character among
      A, B, C, D, a, b, c, d. */
  lemma LetterAnswer(answer: string)
    ensures IsLetterAnswer(answer) <==> |answer| == 1 && answer[0] in "ABCDabcd"
  {
    if |answer| == 1 {
      assert Upper(answer) == [UpperChar(answer[0])];
    }
  }

  /** The visible question is the first line of the question text: it holds no
      newline, starts the text, and is all of it when the text has no newline. */
  lemma QuestionIsFirstLine(qa: QA)
    ensures QuestionRecord(qa).question == FirstLine(qa.question)
    ensures StartsWith(qa.question, QuestionRecord(qa).question)
    ensures !Contains(QuestionRecord(qa).question, "\n")
  {
  }

  /** The records for one subject: the parser's pairs for the topic list
      `[subject]`, each shaped by `QuestionRecord`; nothing when the parser
      fails. */
  function QuizRecords(subject: string, numQuestions: int, generatedText: string): seq<QuizQuestion> {
    var r := QuizGenerator.Generate(QuizGenerator.PromptData(Some([subject]), Some(numQuestions)), generatedText);
    if r.Failure? || r.questions == [] then [] else Records(r.questions)
  }

  /** One record per pair, in order. */
  function Records(pairs: seq<QA>): (quiz: seq<QuizQuestion>)
    ensures |quiz| == |pairs|
  {
    seq(|pairs|, k requires 0 <= k < |pairs| => QuestionRecord(pairs[k]))
  }

  /** `generate_quiz(subject, num_questions, difficulty)`: a loop appending one
      record per pair. */
  method GenerateQuiz(subject: string, numQuestions: int, generatedText: string) returns (quiz: seq<QuizQuestion>)
    ensures quiz == QuizRecords(subject, numQuestions, generatedText)
  {
    var promptData := QuizGenerator.PromptData(Some([subject]), Some(numQuestions));
    var result := QuizGenerator.GenerateQuestions(promptData, generatedText);
    if result.Failure? || result.questions == [] {
      return [];
    }
    quiz := FormatAll(result.questions);
  }

  /** The adapter's loop: one record appended per pair. */
  method FormatAll(questionsTuples: seq<QA>) returns (quiz: seq<QuizQuestion>)
    ensures quiz == Records(questionsTuples)
  {
    quiz := [];
    var i := 0;
    while i < |questionsTuples|
      invariant i <= |questionsTuples|
      invariant quiz == Records(questionsTuples[..i])
    {
      var record := FormatQuestion(questionsTuples[i]);
      assert questionsTuples[..i + 1] == questionsTuples[..i] + [questionsTuples[i]];
      RecordsSnoc(questionsTuples[..i], questionsTuples[i]);
      quiz := quiz + [record];
      i := i + 1;
    }
    assert questionsTuples[..i] == questionsTuples;
  }

  /** The adapter always passes one topic, so the parser never reports a
      missing topic to it. */
  lemma AdapterHasTopic(subject: string, numQuestions: int, generatedText: string)
    ensures var r := QuizGenerator.Generate(QuizGenerator.PromptData(Some([subject]), Some(numQuestions)), generatedText);
      r.Failure? ==> r.message == QuizGenerator.NoValidQuestions
  {
  }

  /** One more pair gives one more record. */
  lemma RecordsSnoc(pairs: seq<QA>, qa: QA)
    ensures Records(pairs + [qa]) == Records(pairs) + [QuestionRecord(qa)]
  {
    var xs := pairs + [qa];
    assert forall k :: 0 <= k < |pairs| ==> xs[k] == pairs[k];
  }

  /** For a non-negative count the adapter returns one record per parsed pair,
      in order, up to `min(count, 20)`; the k-th record carries the k-th pair's
      answer and the first line of its question. */
  lemma AdapterCount(subject: string, numQuestions: int, generatedText: string)
    requires numQuestions >= 0
    ensures var pairs := QuizGenerator.ParsedPairs(generatedText);
      var quiz := QuizRecords(subject, numQuestions, generatedText);
      && |quiz| == Min(Min(numQuestions, QuizGenerator.MaxQuestions), |pairs|)
      && forall k :: 0 <= k < |quiz| ==>
           quiz[k].correctAnswer == pairs[k].answer && quiz[k].question == FirstLine(pairs[k].question)
  {
    var pairs := QuizGenerator.ParsedPairs(generatedText);
    var quiz := QuizRecords(subject, numQuestions, generatedText);
    forall k | 0 <= k < |quiz|
      ensures quiz[k].correctAnswer == pairs[k].answer && quiz[k].question == FirstLine(pairs[k].question)
    {
      QuestionIsFirstLine(pairs[k]);
    }
  }
}
