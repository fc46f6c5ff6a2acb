/** The values the quiz generator hands around. */
module QuizTypes {

  /** One `(question_text, answer_text)` tuple recovered from generated text. */
  datatype QA = QA(question: string, answer: string)

  /** The record `{'question': ..., 'options': [...], 'correct_answer': ...}`
      that both quiz generators return, one per question. */
  datatype QuizQuestion = QuizQuestion(question: string, options: seq<string>, correctAnswer: string)
}
