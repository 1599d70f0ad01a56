/** The records of a loaded question set and the display phase of the quiz. */
module QuizData {
  import opened Wrappers

  /** One question: its text (an HTML fragment), the key of its correct answer
      and the feedback shown after an answer has been submitted. */
  datatype Question = Question(text: string, answerKey: string, feedback: string)

  /** One answer option; `key` is optional in the loaded data. */
  datatype Answer = Answer(text: string, key: Option<string>)

  /** A loaded question set. The answer list is one pool shared by every
      question, not a list per question. */
  datatype QuestionData = QuestionData(
    interactiveTitle: string,
    questions: seq<Question>,
    answers: seq<Answer>)

  /** The display phase; the component keeps it as a free-form string and
      logs an error for any other value, which a closed type rules out. */
  datatype Phase = QuestionPhase | FeedbackPhase | EndPhase

  /** The question set the component starts with, and keeps when loading fails. */
  function Placeholder(): (d: QuestionData)
    ensures WellFormed(d)
    ensures d.answers[0].key == Some(d.questions[0].answerKey)
  {
    QuestionData(
      "Data Load Failure",
      [Question("question", "a", "")],
      [Answer("answer", Some("a"))])
  }

  /** What the views need to render without failing: at least one question
      and at least one answer. */
  predicate WellFormed(d: QuestionData) {
    |d.questions| >= 1 && |d.answers| >= 1
  }

  /** The answer at position `step` is the right one for question `index`:
      its key is present and equals the question's answer key. */
  predicate IsCorrect(d: QuestionData, index: int, step: int)
    requires 0 <= index < |d.questions| && 0 <= step < |d.answers|
  {
    d.answers[step].key == Some(d.questions[index].answerKey)
  }
}
