/** The placeholder `generate_quiz` of ai_quiz_generator.py: a fixed table of
    sample questions per subject, looked up by the lower-cased subject and cut
    to the requested count. */
module SampleQuiz {
  import opened PyStr
  import opened QuizTypes

  /** `sample_questions` */
  const SampleQuestions: map<string, seq<QuizQuestion>> := map[
    "math" := [
      QuizQuestion("What is 2+2?", ["3", "4", "5", "6"], "4"),
      QuizQuestion("What is 5\U{D7}5?", ["20", "25", "30", "35"], "25")
    ],
    "science" := [
      QuizQuestion("What is the chemical symbol for water?", ["H2O", "CO2", "O2", "N2"], "H2O"),
      QuizQuestion("What is the closest planet to the Sun?", ["Earth", "Venus", "Mercury", "Mars"], "Mercury")
    ],
    "literature" := [
      QuizQuestion("Who wrote \"Romeo and Juliet\"?",
        ["Charles Dickens", "William Shakespeare", "Jane Austen", "Mark Twain"], "William Shakespeare"),
      QuizQuestion("What is the name of the main character in \"The Great Gatsby\"?",
        ["Jay Gatsby", "Nick Carraway", "Tom Buchanan", "Daisy Buchanan"], "Jay Gatsby")
    ]
  ]

  /** The list for the lower-cased subject, or the math list for any other subject. */
  function SubjectQuestions(subject: string): seq<QuizQuestion> {
    var key := Lower(subject);
    if key in SampleQuestions then SampleQuestions[key] else SampleQuestions["math"]
  }

  /** The subject's list cut to the smaller of the count and its length. */
  function GenerateSampleQuiz(subject: string, numQuestions: int): (quiz: seq<QuizQuestion>)
    ensures quiz <= SubjectQuestions(subject)
    ensures 0 <= numQuestions ==> |quiz| <= numQuestions
  {
    var questions := SubjectQuestions(subject);
    Take(questions, Min(numQuestions, |questions|))
  }

  /** A sample record is well formed: four options, the correct answer among
      them. */
  predicate WellFormed(q: QuizQuestion) {
    |q.options| == 4 && q.correctAnswer in q.options
  }

  /** Every subject's list holds two well-formed records. */
  lemma TableWellFormed(key: string)
    requires key in SampleQuestions
    ensures |SampleQuestions[key]| == 2
    ensures forall k :: 0 <= k < 2 ==> WellFormed(SampleQuestions[key][k])
  {
  }

  /** For a non-negative count the result is the first `min(count, 2)` records
      of the subject's list, in order. */
  lemma SampleCount(subject: string, numQuestions: int)
    requires numQuestions >= 0
    ensures |GenerateSampleQuiz(subject, numQuestions)| == Min(numQuestions, 2)
    ensures GenerateSampleQuiz(subject, numQuestions) <= SubjectQuestions(subject)
  {
    var key := Lower(subject);
    if key in SampleQuestions {
      TableWellFormed(key);
    } else {
      TableWellFormed("math");
    }
  }

  /** A negative count drops that many records from the end of the list. */
  lemma SampleNegativeCount(subject: string, numQuestions: int)
    requires numQuestions < 0
    ensures |GenerateSampleQuiz(subject, numQuestions)| == Max(2 + numQuestions, 0)
    ensures GenerateSampleQuiz(subject, numQuestions) <= SubjectQuestions(subject)
  {
    var key := Lower(subject);
    if key in SampleQuestions {
      TableWellFormed(key);
    } else {
      TableWellFormed("math");
    }
  }

  /** Every returned record has four options and its answer among them. */
  lemma SampleRecordsWellFormed(subject: string, numQuestions: int, q: QuizQuestion)
    requires q in GenerateSampleQuiz(subject, numQuestions)
    ensures WellFormed(q)
  {
    var key := Lower(subject);
    var questions := SubjectQuestions(subject);
    if key in SampleQuestions {
      TableWellFormed(key);
    } else {
      TableWellFormed("math");
    }
    var k :| 0 <= k < |questions| && questions[k] == q;
  }

  /** The lookup ignores the case of the subject. */
  lemma CaseInsensitive(subject: string, numQuestions: int)
    ensures GenerateSampleQuiz(subject, numQuestions) == GenerateSampleQuiz(Lower(subject), numQuestions)
  {
    LowerIdempotent(subject);
  }

  /** A subject outside the table gets the math questions. */
  lemma UnknownSubjectIsMath(subject: string, numQuestions: int)
    requires Lower(subject) !in SampleQuestions
    ensures GenerateSampleQuiz(subject, numQuestions) == Take(SampleQuestions["math"], Min(numQuestions, 2))
  {
    TableWellFormed("math");
  }
}
