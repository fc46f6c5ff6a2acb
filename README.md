# Quiz question parser: a Dafny model

This project models the quiz generator of the Flask dashboard application. Its
core turns the free text a language model produces into quiz questions. The
model covers:

- **The question parser** of `QuizGenerator.generate_questions` in `app.py`.
  - It rejects a request without topics.
  - It caps a non-negative requested count at 20. A negative count is passed
    to Python's slice unchanged, so it defeats the cap (see below).
  - It cuts the generated text into question blocks. A text holding `1.` is
    split at the numbered-item pattern `\n\s*\d+\.`, and a preamble block may
    be dropped. Any other text is split at every `\n\n`.
  - It extracts at most one `(question, answer)` pair per block, at the first
    double-bar delimiter `||`. A block without the delimiter, with an empty
    side, or with `[object Object]` on either side yields none.
  - When no block yields a pair, it falls back to a line-by-line scan with a
    pending-question buffer.
  - It fails when nothing was found, and otherwise returns a prefix of the
    pairs.
- **The record shaping** of the module-level `generate_quiz` adapter in
  `app.py`.
  - The options are the lines after the first that begin with `A)` to `D)`.
  - Four placeholder options are used when there are none and the answer is a
    letter.
  - The visible question is the first line.
- **Score counting** in `take_quiz` (`app.py`). The score is the number of
  questions whose submitted answer equals the correct answer once both are
  stripped.
- **The placeholder generator** `generate_quiz` of `ai_quiz_generator.py`. It
  holds a fixed table of sample questions, looks up the lower-cased subject
  with a fallback to math, and returns a prefix.

The modules follow the program's structure:

- `PyStr` (`pystr.dfy`) holds the Python string operations the code relies on:
  `strip`, `in`, `find`, `startswith`, `split(sep)`, `split(sep, 1)`, `join`,
  `upper`, `lower` and the prefix slice.
- `QuizTypes` (`quiz_types.dfy`) holds the pair and the question record.
- `BlockStage` (`block_stage.dfy`) holds the block split, the preamble rule and
  the per-block pair.
- `LineFallback` (`line_fallback.dfy`) holds the line-by-line scan as a fold
  over the lines.
- `QuizGenerator` (`quiz_generator.dfy`) holds the parser's loops as methods,
  each proved equal to a specification function.
- `QuizFormat` (`quiz_format.dfy`) holds the option loop and the adapter.
- `Scoring` (`scoring.dfy`) holds the counter loop of `take_quiz`.
- `SampleQuiz` (`sample_quiz.dfy`) holds the sample-question table.

The parser, the option loop and the score loop change variables step by step
in the source. They are therefore methods with loop invariants, and each
method's `ensures` ties its result to a specification function. The properties
are lemmas about those functions.

Four behaviours of the code are worth knowing:

- The code caps the count at 20 but does not raise it to at least 1. A count
  of zero gives an empty success. A negative count drops pairs from the end,
  as Python slicing does. With 30 parsed pairs and a count of -1, 29 questions
  come back, so a negative count defeats the cap of 20.
- The line fallback can emit a pair whose answer is empty. An example is a
  line `Question ||` after buffered lines. The block stage never emits such a
  pair.
- A record can have any number of options, not only zero or four.
- The line fallback does not check for `[object Object]`. A text such as
  `Q [object Object] || A` is rejected by the block stage, and the fallback
  then returns that pair with the marker still in its question.

## Model

| member | source | states |
|---|---|---|
| QuizGenerator.EffectiveCount | app.py:130 | The count is the requested one (1 when absent) when that is at most 20, and 20 otherwise. It is never raised to a minimum. |
| QuizGenerator.GenerateQuestions | app.py:124-257 | The parser method returns exactly `Generate`. That is a failure with the topics message when there are no topics, a failure with the no-questions message when neither stage finds a pair, and otherwise the parsed pairs cut to the effective count. |
| QuizGenerator.SplitBlocks | app.py:195-202 | The block split, including the conditional `pop(0)` of a preamble, yields exactly `QuestionBlocks` of the text. |
| QuizGenerator.CollectBlockPairs | app.py:206-223 | The block loop appends exactly the pairs `BlockPair` keeps, in block order. |
| QuizGenerator.CollectLinePairs | app.py:225-246 | The line loop with its mutable buffer yields exactly the pairs of the left fold `LineScan` over the lines of the text. |
| QuizGenerator.TopicsChecked | app.py:126-127 | The result is the topics failure if and only if the topic list is missing or empty. |
| QuizGenerator.NoDelimiterFails | app.py:206-250 | With topics given, a text that holds the double-bar delimiter nowhere, the empty text included, fails with the no-questions message. |
| QuizGenerator.FailsIffNothingParsed | app.py:248-250 | The result is a failure if and only if there are no topics or both stages found no pair. |
| QuizGenerator.CountBound | app.py:253 | For a non-negative count, the questions are a prefix of the parsed pairs. There are min(count, number of pairs) of them, so never more than 20 (a negative count is covered by `NegativeCount` and can exceed 20). |
| QuizGenerator.NegativeCount | app.py:253 | For a negative count, the questions are a prefix of the parsed pairs with that many pairs dropped from the end (none when there are fewer). |
| QuizGenerator.FallbackOnlyWhenNoBlocks | app.py:206-225 | When some block yields a pair, the result is the block stage's pairs and is not empty. When no block yields a pair, the result is the line fallback's pairs. |
| QuizGenerator.BlockStageQuestionsValid | app.py:206-220 | When the block stage found pairs, every returned pair has a non-empty stripped question and answer. Neither side holds `[object Object]`, and the question holds no delimiter. |
| QuizGenerator.QuestionsNonEmpty | app.py:206-246 | Every returned pair, from either stage, has a non-empty stripped question and a stripped answer. |
| BlockStage.SplitNumbered | app.py:197 | `re.split` at the numbered-item pattern always yields at least one piece. What the pieces are is stated by the split lemmas below. |
| BlockStage.MarkerAtSound | app.py:197 | A match found at an index is a text of the form `\n\s*\d+\.`. |
| BlockStage.MarkerAtComplete | app.py:197 | Any text of the form `\n\s*\d+\.` at an index is the match found there, with its full length. |
| BlockStage.FindMarkerFirst | app.py:197 | No match starts before the leftmost match the split cuts at. |
| BlockStage.SplitNumberedRoundTrip | app.py:197 | The pieces of `re.split`, with the matched markers put back between them, rebuild the text. There is one more piece than markers. |
| BlockStage.SplitNumberedCount | app.py:197 | The split yields one more piece than there are matches. |
| BlockStage.SplitNumberedPieceFree | app.py:197 | No piece of the split contains a match. |
| BlockStage.NumberedMarkersShape | app.py:197 | Every marker the split cuts out has the form `\n\s*\d+\.`. |
| BlockStage.StripNonBlankSource | app.py:198 | Every block is the non-empty strip of one of the split pieces. |
| BlockStage.SplitNumberedPieceAbsent | app.py:197 | A pattern absent from the text is absent from every piece of the numbered split. |
| BlockStage.QuestionBlocksAbsent | app.py:195-202 | A pattern absent from the text is absent from every block. |
| BlockStage.QuestionBlocksShape | app.py:195-202 | Every block is non-empty and stripped. On the numbered path no block holds a numbered-item marker. On the paragraph path no block holds `\n\n`. |
| BlockStage.PreambleRule | app.py:195-202 | Without `1.` the blocks are exactly the stripped non-empty `\n\n` segments. With `1.` the blocks are the stripped non-empty pieces with at most one leading piece removed, and one is removed exactly when the first piece neither starts with `1.` nor contains the double-bar delimiter. |
| BlockStage.BlockPair | app.py:207-220 | A block yields a pair only if it contains the double-bar delimiter. The pair then has a non-empty stripped question and answer, no `[object Object]` on either side, and no delimiter in the question. |
| BlockStage.BlockPairRoundTrip | app.py:207-220 | A block made of a question and an answer on either side of the delimiter, with any whitespace around either side, yields exactly that pair when the pair is valid and the text in front of the delimiter does not end in a bar character (whitespace before the delimiter is enough). The answer may itself contain the delimiter. |
| BlockStage.PromptLayoutBlock | app.py:207-220 | A block in the layout the generation prompt asks for, a question, a newline and then the delimiter followed by the answer, yields exactly that pair when it is valid. |
| BlockStage.BlockPairsValid | app.py:206-223 | Every pair of the block stage is valid and comes from a block that contains the delimiter. |
| LineFallback.DelimiterStepPreserves | app.py:230-239 | A delimiter line keeps the buffer to non-empty stripped lines without the delimiter. It emits at most one valid pair, after the earlier ones. |
| LineFallback.LineStepPreserves | app.py:228-244 | Every line keeps the buffer and pair invariants, keeps the earlier pairs and emits at most one more. |
| LineFallback.LineScanInvariant | app.py:227-244 | After any prefix of the lines, the buffer and the pairs are well formed, and there are no more pairs than lines. |
| LineFallback.LinePairsValid | app.py:225-246 | Every fallback pair has a non-empty stripped question and a stripped answer, which may be empty. |
| LineFallback.LineStepGrows | app.py:228-244 | A line never removes or changes an emitted pair. |
| LineFallback.PlainLineKeepsPairs | app.py:240-244 | A line without the delimiter emits nothing. |
| LineFallback.LineScanMonotone | app.py:228-244 | The pairs after a prefix of the lines are a prefix of the final pairs. Emitted pairs keep their order. |
| LineFallback.TrailingLinesNotEmitted | app.py:245-246 | Lines after the last delimiter line add no pair, so whatever is left in the buffer at the end is dropped. |
| LineFallback.NoDelimiterNoLinePairs | app.py:226-245 | A text without the delimiter gives the fallback no pair at all. |
| LineFallback.NumberedLineRestarts | app.py:241-242 | A numbered line (digit first, containing `. `) that holds no delimiter, seen with a non-empty buffer, replaces the buffer with itself and emits nothing. A numbered line with the delimiter takes the delimiter branch instead. |
| LineFallback.DelimiterLineEmits | app.py:229-239 | A line holding a question and an answer on either side of the delimiter, with any whitespace around either side, emits one pair and empties the buffer. The pair's question is the buffered lines plus the question, joined by newlines, and its answer is the answer. This needs a non-empty stripped question without the delimiter, a non-empty stripped answer, and no bar character directly before the delimiter. |
| LineFallback.PaddedLineStrip | app.py:229 | Stripping such a padded line removes exactly its outer whitespace. |
| LineFallback.PaddedLineSplit | app.py:231-233 | Splitting the stripped line at the first delimiter, then stripping both parts, gives back the question and the answer. |
| LineFallback.EmptyAnswerOnlyInFallback | app.py:230-239 | A line made of a question followed directly by the delimiter emits a pair with an empty answer in the fallback, while the block stage rejects the same text. The question must be non-empty and stripped, hold no delimiter and not end in a bar character. |
| QuizFormat.CollectOptions | app.py:290-293 | The option loop returns the options extracted from the option lines: none unless some line has a letter prefix, and then each prefixed non-blank line with its first two characters dropped and the rest stripped, in order. |
| QuizFormat.FormatQuestion | app.py:279-306 | The record for one pair is `QuestionRecord`: its first line, its options and its answer. |
| QuizFormat.ExtractedFromAllLines | app.py:287-293 | The extracted options are the stripped remainders of every prefixed line after the first. The blank-line filter and the `any` guard do not change them. |
| QuizFormat.OptionsThroughBlankFilter | app.py:287 | Dropping blank lines before extraction does not change the options. |
| QuizFormat.NoPrefixNoOptions | app.py:290 | Without any letter-prefixed line no option is extracted. |
| QuizFormat.PrefixGivesOption | app.py:290-293 | A single letter-prefixed line is enough for the options to be non-empty. |
| QuizFormat.OptionSource | app.py:291-293 | Every extracted option comes from a line after the first that starts, unstripped, with a letter prefix, and equals that line's stripped remainder. |
| QuizFormat.PlaceholderRule | app.py:295-297 | Without prefixed lines the options are the four placeholders when the answer is a letter, and empty otherwise. With prefixed lines they are the extracted options, which are then non-empty. |
| QuizFormat.LetterAnswer | app.py:296 | The answer counts as a letter exactly when it is a single character among A-D or a-d. |
| QuizFormat.QuestionIsFirstLine | app.py:284-301 | The visible question is the first line of the question text: a prefix of it that holds no newline. |
| QuizFormat.Records | app.py:278-306 | One record per pair. |
| QuizFormat.FormatAll | app.py:278-308 | The formatting loop returns one record per pair, in order. |
| QuizFormat.GenerateQuiz | app.py:262-308 | The adapter returns the records of the parser's questions for the one-topic request, or nothing when the parser fails. |
| QuizFormat.AdapterHasTopic | app.py:264-275 | The adapter's request always carries a topic, so it can only fail because nothing was parsed. |
| QuizFormat.AdapterCount | app.py:262-308 | For a non-negative count, the adapter returns min(count, 20, number of pairs) records. The k-th record carries the k-th pair's answer and first line. |
| Scoring.CheckAnswer | app.py:890-891 | One question is correct exactly when the submitted answer (empty when missing) equals the correct answer once both are stripped. |
| Scoring.ScoreSubmission | app.py:884-892 | The counter loop returns the number of correctly answered questions and the number of questions, and the score never exceeds the total. |
| Scoring.ScoreIsCorrectPositions | app.py:886-892 | The score is the size of the set of positions whose answer is correct. |
| Scoring.FullMarks | app.py:889-892 | Full marks if and only if every answer is correct. |
| Scoring.ZeroScore | app.py:889-892 | A zero score if and only if no answer is correct. |
| Scoring.ScoreAppend | app.py:889-892 | Scores add up over consecutive runs of questions. |
| Scoring.PaddingIgnored | app.py:891 | Replacing a submitted answer by one that differs only in surrounding whitespace does not change its verdict. |
| SampleQuiz.GenerateSampleQuiz | ai_quiz_generator.py:56-59 | The result is an in-order prefix of the subject's list (the math list for an unknown subject), with no more records than a non-negative count. |
| SampleQuiz.TableWellFormed | ai_quiz_generator.py:16-53 | Every subject lists two records, each with four options that include the correct answer. |
| SampleQuiz.SampleCount | ai_quiz_generator.py:59 | For a non-negative count, the result is an in-order prefix of the subject's list of length min(count, 2). |
| SampleQuiz.SampleNegativeCount | ai_quiz_generator.py:59 | For a negative count, the result is the subject's list with that many records dropped from the end (none when there are fewer). |
| SampleQuiz.SampleRecordsWellFormed | ai_quiz_generator.py:16-59 | Every returned record has four options, and its correct answer is one of them. |
| SampleQuiz.CaseInsensitive | ai_quiz_generator.py:56 | The result depends on the subject only through its lower-cased form. |
| SampleQuiz.UnknownSubjectIsMath | ai_quiz_generator.py:56 | A subject outside the table gets a prefix of the math list. |
| PyStr.StripRemovesOnlySpace | app.py:198 | Stripping removes only whitespace, from both ends, and leaves nothing exactly when the text is all whitespace. |
| PyStr.StripIdempotent | app.py:198 | Stripping twice is stripping once. |
| PyStr.SplitOnce | app.py:208-210 | The one-cut split at the delimiter cuts exactly when the delimiter occurs. The parts with the delimiter between them rebuild the text, and the first part holds no delimiter. |
| PyStr.SplitOnceJoin | app.py:208-210 | For a two-character separator such as the delimiter, splitting `a + sep + b` at the first separator gives back `a` and `b` when `a` holds no separator and does not end in the separator's first character. |
| PyStr.StripPadded | app.py:209-210 | Stripping non-empty stripped text surrounded by any whitespace gives back that text. |
| PyStr.ContainsPadded | app.py:207-210 | Whitespace around a text cannot create an occurrence of a pattern that starts and ends with non-whitespace. |
| PyStr.SplitOnPieceAbsent | app.py:202 | A pattern absent from the text is absent from every piece of `split(sep)`. |
| PyStr.SplitOnJoin | app.py:202 | Joining the pieces of `split(sep)` with the separator rebuilds the text, and no piece holds the separator. |
| PyStr.JoinStripped | app.py:237 | Joining non-empty stripped lines gives a non-empty stripped text. |
| PyStr.FirstLine | app.py:301 | The first line is a prefix of the text without a newline. It is the whole text exactly when the text has no newline. |
| PyStr.Take | app.py:253 | The slice `xs[:n]` is a prefix. It has min(n, length) items for a non-negative n, and drops -n items from the end for a negative n. |
| PyStr.LowerIdempotent | ai_quiz_generator.py:56 | Lower-casing twice is lower-casing once. |

## Left out

- The request to the local text-generation endpoint, the JSON decoding and the coercion of the response to a string (app.py:159-187) are network I/O. The generated text is a parameter of the model.
- The request throttle (app.py:133-137) uses the wall clock and sleeps, so it is not modelled.
- `question_type` and `difficulty` (app.py:129, 131) only shape the prompt sent to the endpoint. The prompt is not modelled.
- The `int(...)` conversion of `num_questions` (app.py:130) is not modelled: the count is an integer or absent. The `ValueError` a non-numeric string would raise is not modelled either.
- Every exception other than the two the parser raises itself is left out. That includes the `ValueError` of `int(...)` and anything from the endpoint, which the handler at app.py:255-257 would also turn into a failure.
- Logging and the `print` diagnostics are not modelled.
- The database manager, the Flask routes, sessions, templates, the SQLAlchemy models, the forms and the browser scripts are not modelled. That includes the `create_quiz` form loop (app.py:567-602), which can fail to terminate.
- The percentage score (app.py:895) and the dashboard averages are floating point and are not modelled.
- Scoring.ScoreSubmission reads the form by question id. The `question_<id>` spelling of the form field is not modelled.
- PyStr.IsDigit: `str.isdigit` and the `\d` of the numbered-item pattern accept only the ASCII digits here. Python also accepts other Unicode decimal digits.
- PyStr.Upper and PyStr.Lower map only ASCII letters. Python maps every cased letter. This is exact for the letter answers A to D and for the subject keys, but a non-ASCII subject may be lower-cased differently.
