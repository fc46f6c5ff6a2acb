/** `QuizGenerator.generate_questions` (app.py) after the request to the text
    generation service: the topic check, the clamp on the question count, the
    block stage, the line fallback and the final truncation. */
module QuizGenerator {
  import opened PyStr
  import opened QuizTypes
  import opened BlockStage
  import opened LineFallback

  /** The generator's cap on the number of questions returned. */
  const MaxQuestions := 20

  const TopicsRequired := "At least one topic is required"
  const NoValidQuestions := "No valid questions found in response - please try different topics or parameters"

  /** The parts of `prompt_data` the parser reads: the topic list and the
      already converted question count, each possibly absent. */
  datatype PromptData = PromptData(topics: Option<seq<string>>, numQuestions: Option<int>)

  /** `(questions, None)` or `(None, message)` */
  datatype GenerateResult = Success(questions: seq<QA>) | Failure(message: string)

  /** The request carries a non-empty topic list. */
  predicate HasTopics(req: PromptData) {
    req.topics.Some? && req.topics.value != []
  }

  /** The requested count (1 when absent), capped at 20 and otherwise
      unchanged, zero and negative counts included. */
  function EffectiveCount(req: PromptData): (n: int)
    ensures var requested := if req.numQuestions.Some? then req.numQuestions.value else 1;
      && n <= MaxQuestions
      && (requested <= MaxQuestions ==> n == requested)
      && (requested > MaxQuestions ==> n == MaxQuestions)
  {
    Min(if req.numQuestions.Some? then req.numQuestions.value else 1, MaxQuestions)
  }

  /** The pairs parsed from the generated text: the block stage's pairs, or,
      when it found none, the line fallback's. */
  function ParsedPairs(text: string): seq<QA> {
    var fromBlocks := BlockPairs(QuestionBlocks(text));
    if fromBlocks != [] then fromBlocks else LinePairs(text)
  }

  /** What `generate_questions` returns for a request and the generated text. */
  function Generate(req: PromptData, text: string): GenerateResult {
    if !HasTopics(req) then Failure(TopicsRequired)
    else
      var pairs := ParsedPairs(text);
      if pairs == [] then Failure(NoValidQuestions)
      else Success(Take(pairs, EffectiveCount(req)))
  }

  /** The block split, with the preamble dropped by `pop(0)`. */
  method SplitBlocks(generatedText: string) returns (questionBlocks: seq<string>)
    ensures questionBlocks == QuestionBlocks(generatedText)
  {
    if Contains(generatedText, "1.") {
      questionBlocks := StripNonBlank(SplitNumbered(generatedText));
      if questionBlocks != [] && !StartsWith(questionBlocks[0], "1.") {
        if !Contains(questionBlocks[0], Delimiter) {
          questionBlocks := questionBlocks[1..];
        }
      }
    } else {
      questionBlocks := StripNonBlank(SplitOn(generatedText, "\n\n"));
    }
  }

  /** The block loop: appends the pair of every block that yields one. */
  method CollectBlockPairs(questionBlocks: seq<string>) returns (questions: seq<QA>)
    ensures questions == BlockPairs(questionBlocks)
  {
    questions := [];
    var i := 0;
    while i < |questionBlocks|
      invariant i <= |questionBlocks|
      invariant questions == BlockPairs(questionBlocks[..i])
    {
      var block := questionBlocks[i];
      assert questionBlocks[..i + 1] == questionBlocks[..i] + [block];
      FilterMapSnoc(questionBlocks[..i], block, BlockPair);
      if Contains(block, Delimiter) {
        var parts := SplitOnce(block, Delimiter).value;
        var questionText, answerText := Strip(parts.0), Strip(parts.1);
        if Contains(questionText, ObjectMarker) || Contains(answerText, ObjectMarker) {
        } else if questionText == [] || answerText == [] {
        } else {
          questions := questions + [QA(questionText, answerText)];
        }
      }
      i := i + 1;
    }
    assert questionBlocks[..i] == questionBlocks;
  }

  /** The line fallback: a loop over the lines that mutates the buffer
      `currentQuestion` and appends to `questions`. */
  method CollectLinePairs(generatedText: string) returns (questions: seq<QA>)
    ensures questions == LinePairs(generatedText)
  {
    questions := [];
    var currentQuestion: seq<string> := [];
    var lines := SplitOn(generatedText, "\n");
    var j := 0;
    while j < |lines|
      invariant j <= |lines|
      invariant LineState(questions, currentQuestion) == LineScan(lines[..j])
    {
      assert lines[..j + 1][..j] == lines[..j];
      var line := Strip(lines[j]);
      if Contains(line, Delimiter) {
        var parts := SplitOnce(line, Delimiter).value;
        var questionPart, answerPart := Strip(parts.0), Strip(parts.1);
        if questionPart != [] {
          currentQuestion := currentQuestion + [questionPart];
        }
        if currentQuestion != [] {
          questions := questions + [QA(Join(currentQuestion, "\n"), answerPart)];
          currentQuestion := [];
        }
      } else {
        if line != [] && IsDigit(line[0]) && Contains(line, ". ") && currentQuestion != [] {
          currentQuestion := [line];
        } else if line != [] {
          currentQuestion := currentQuestion + [line];
        }
      }
      j := j + 1;
    }
    assert lines[..j] == lines;
  }

  /** The parser as the source runs it: the topic check, the block stage, the
      fallback when the block stage found nothing, and the final slice. */
  method GenerateQuestions(promptData: PromptData, generatedText: string) returns (result: GenerateResult)
    ensures result == Generate(promptData, generatedText)
  {
    if !HasTopics(promptData) {
      return Failure(TopicsRequired);
    }
    var numQuestions := Min(if promptData.numQuestions.Some? then promptData.numQuestions.value else 1, MaxQuestions);
    var questionBlocks := SplitBlocks(generatedText);
    var questions := CollectBlockPairs(questionBlocks);
    if questions == [] {
      questions := CollectLinePairs(generatedText);
    }
    if questions == [] {
      return Failure(NoValidQuestions);
    }
    return Success(Take(questions, numQuestions));
  }

  /** A missing or empty topic list is an error, whatever the text. */
  lemma TopicsChecked(req: PromptData, text: string)
    ensures Generate(req, text).Failure? && Generate(req, text).message == TopicsRequired
        <==> !HasTopics(req)
  {
  }

  /** The result is an error exactly when there is no topic or neither stage
      found a pair. */
  lemma FailsIffNothingParsed(req: PromptData, text: string)
    ensures Generate(req, text).Failure? <==> !HasTopics(req) || ParsedPairs(text) == []
  {
  }

  /** For a non-negative count the result holds the first `min(count, 20)`
      parsed pairs in encounter order (all of them if there are fewer). */
  lemma CountBound(req: PromptData, text: string)
    requires Generate(req, text).Success? && EffectiveCount(req) >= 0
    ensures Generate(req, text).questions <= ParsedPairs(text)
    ensures |Generate(req, text).questions| == Min(EffectiveCount(req), |ParsedPairs(text)|)
    ensures |Generate(req, text).questions| <= MaxQuestions
  {
  }

  /** A negative count keeps all but the last `-count` parsed pairs, and the
      result is still an in-order prefix. */
  lemma NegativeCount(req: PromptData, text: string)
    requires Generate(req, text).Success? && EffectiveCount(req) < 0
    ensures Generate(req, text).questions <= ParsedPairs(text)
    ensures |Generate(req, text).questions| == Max(|ParsedPairs(text)| + EffectiveCount(req), 0)
  {
  }

  /** The fallback runs only when no block yields a pair: once some block
      does, the result is the block stage's pairs, and it is not empty. */
  lemma FallbackOnlyWhenNoBlocks(text: string)
    ensures (exists b :: b in QuestionBlocks(text) && BlockPair(b).Some?) ==>
      ParsedPairs(text) == BlockPairs(QuestionBlocks(text)) != []
    ensures (forall b :: b in QuestionBlocks(text) ==> BlockPair(b).None?) ==>
      ParsedPairs(text) == LinePairs(text)
  {
    var blocks := QuestionBlocks(text);
    if b :| b in blocks && BlockPair(b).Some? {
      FilterMapMembership(blocks, BlockPair, BlockPair(b).value);
    } else if BlockPairs(blocks) != [] {
      var b := FilterMapSource(blocks, BlockPair, BlockPairs(blocks)[0]);
    }
  }

  /** With topics given, a text that holds the delimiter nowhere (the empty
      text among them) yields the no-questions error: no block and no line
      can produce a pair. */
  lemma NoDelimiterFails(req: PromptData, text: string)
    requires HasTopics(req) && !Contains(text, Delimiter)
    ensures Generate(req, text) == Failure(NoValidQuestions)
  {
    forall b | b in QuestionBlocks(text)
      ensures BlockPair(b).None?
    {
      QuestionBlocksAbsent(text, Delimiter, b);
    }
    FallbackOnlyWhenNoBlocks(text);
    NoDelimiterNoLinePairs(text);
  }

  /** Every returned pair taken by the block stage has a non-empty stripped
      question without the delimiter and a non-empty stripped answer, neither
      holding the serialisation marker. */
  lemma BlockStageQuestionsValid(req: PromptData, text: string, p: QA)
    requires Generate(req, text).Success? && p in Generate(req, text).questions
    requires BlockPairs(QuestionBlocks(text)) != []
    ensures ValidBlockPair(p)
  {
    BlockPairsValid(QuestionBlocks(text), p);
  }

  /** Every returned pair, whichever stage produced it, has a non-empty
      stripped question and a stripped answer. */
  lemma QuestionsNonEmpty(req: PromptData, text: string, p: QA)
    requires Generate(req, text).Success? && p in Generate(req, text).questions
    ensures p.question != [] && IsStripped(p.question) && IsStripped(p.answer)
  {
    if BlockPairs(QuestionBlocks(text)) != [] {
      BlockPairsValid(QuestionBlocks(text), p);
    } else {
      LinePairsValid(text, p);
    }
  }
}
