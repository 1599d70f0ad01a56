/** The quiz interaction state machine, as values: the state the component
    keeps, the user intents that drive it, one step per intent, and what
    holds of every reachable state. */
module QuizMachine {
  import opened Wrappers
  import opened QuizData
  import Shuffle

  /** The component's state: the loaded data, the display phase, the
      question index, the answer cursor, the result of the last submission
      and the running score. */
  datatype Quiz = Quiz(
    data: QuestionData,
    phase: Phase,
    currentQuestion: int,
    activeStep: int,
    correct: bool,
    score: int)

  /** The state before any data has been loaded. */
  function Initial(): (q: Quiz) {
    Quiz(Placeholder(), QuestionPhase, 0, 0, false, 0)
  }

  /** The most the score can be in a state: one point per question already
      submitted in the current pass. */
  function ScoreCeiling(q: Quiz): (ceiling: int) {
    match q.phase
    case QuestionPhase => q.currentQuestion
    case FeedbackPhase => q.currentQuestion + 1
    case EndPhase => |q.data.questions|
  }

  /** The invariant of every reachable state. */
  predicate Valid(q: Quiz) {
    && 0 <= q.currentQuestion < |q.data.questions|
    && 0 <= q.activeStep < |q.data.answers|
    && (q.phase == EndPhase ==> q.currentQuestion == 0 && q.activeStep == 0)
    && (q.phase == FeedbackPhase ==> q.correct == IsCorrect(q.data, q.currentQuestion, q.activeStep))
    && 0 <= q.score <= ScoreCeiling(q)
  }

  /** The user intents. `Reset` carries the random draws its reshuffle takes. */
  datatype Event =
    | NextStep
    | PreviousStep
    | SelectAnswer
    | NextQuestion
    | Reset(draws: seq<nat>)

  /** The intent's control is shown and not disabled: Next and Back only in
      the question view and only away from the last and the first answer,
      Select Answer in the question view, Next Question in the feedback view,
      Reset in the end view. Selection also needs both indices in range, and
      the draws of a reshuffle lie in the range the random source gives. */
  predicate Enabled(q: Quiz, e: Event) {
    match e
    case NextStep => q.phase == QuestionPhase && q.activeStep != |q.data.answers| - 1
    case PreviousStep => q.phase == QuestionPhase && q.activeStep != 0
    case SelectAnswer =>
      q.phase == QuestionPhase &&
      0 <= q.currentQuestion < |q.data.questions| && 0 <= q.activeStep < |q.data.answers|
    case NextQuestion => q.phase == FeedbackPhase
    case Reset(draws) => q.phase == EndPhase && Shuffle.IsDrawSequence(draws, |q.data.answers|)
  }

  /** The state after the handler of an enabled intent. A correct submission
      scores its point here, once, on entering the feedback view. */
  function Step(q: Quiz, e: Event): (r: Quiz)
    requires Enabled(q, e)
  {
    match e
    case NextStep => q.(activeStep := q.activeStep + 1)
    case PreviousStep => q.(activeStep := q.activeStep - 1)
    case SelectAnswer =>
      var correct := IsCorrect(q.data, q.currentQuestion, q.activeStep);
      q.(correct := correct, phase := FeedbackPhase, score := if correct then q.score + 1 else q.score)
    case NextQuestion =>
      if q.currentQuestion + 1 >= |q.data.questions| then
        q.(currentQuestion := 0, phase := EndPhase, activeStep := 0)
      else
        q.(currentQuestion := q.currentQuestion + 1, phase := QuestionPhase, activeStep := 0)
    case Reset(draws) =>
      q.(data := q.data.(answers := Shuffle.Shuffled(q.data.answers, draws)),
         score := 0, phase := QuestionPhase)
  }

  /** A click as the page sees it: a disabled or absent control does nothing. */
  function Dispatch(q: Quiz, e: Event): (r: Quiz) {
    if Enabled(q, e) then Step(q, e) else q
  }

  /** The state after a sequence of clicks. */
  function Run(q: Quiz, events: seq<Event>): (r: Quiz)
    decreases |events|
  {
    if events == [] then q else Run(Dispatch(q, events[0]), events[1..])
  }

  /** The state after the question set has been loaded and shuffled twice. */
  function Loaded(d: QuestionData, first: seq<nat>, second: seq<nat>): (q: Quiz)
    requires Shuffle.IsDrawSequence(first, |d.answers|) && Shuffle.IsDrawSequence(second, |d.answers|)
  {
    var once := Shuffle.Shuffled(d.answers, first);
    Quiz(d.(answers := Shuffle.Shuffled(once, second)), QuestionPhase, 0, 0, false, 0)
  }

  // ---------------------------------------------------------------------
  // The initial state and loading

  /** The placeholder state satisfies the invariant: one question, one
      answer, whose keys match. */
  lemma InitialIsValid()
    ensures Valid(Initial())
    ensures Initial().phase == QuestionPhase && Initial().score == 0
    ensures |Initial().data.questions| == 1 && |Initial().data.answers| == 1
    ensures IsCorrect(Initial().data, 0, 0)
  {
  }

  /** Loading a question set with at least one question and one answer
      starts the quiz at question 0, cursor 0, score 0, with the title and
      questions as loaded and the answers a permutation of the loaded ones. */
  lemma LoadedIsValid(d: QuestionData, first: seq<nat>, second: seq<nat>)
    requires WellFormed(d)
    requires Shuffle.IsDrawSequence(first, |d.answers|) && Shuffle.IsDrawSequence(second, |d.answers|)
    ensures Valid(Loaded(d, first, second))
    ensures Loaded(d, first, second).data.interactiveTitle == d.interactiveTitle
    ensures Loaded(d, first, second).data.questions == d.questions
    ensures multiset(Loaded(d, first, second).data.answers) == multiset(d.answers)
  {
    Shuffle.ShuffledIsPermutation(d.answers, first);
    Shuffle.ShuffledIsPermutation(Shuffle.Shuffled(d.answers, first), second);
  }

  // ---------------------------------------------------------------------
  // One step

  /** Every enabled intent keeps the invariant. */
  lemma StepPreservesValid(q: Quiz, e: Event)
    requires Valid(q) && Enabled(q, e)
    ensures Valid(Step(q, e))
  {
  }

  /** Next and Back move the cursor by exactly one and keep it inside the
      answer list; nothing else changes. */
  lemma CursorMoves(q: Quiz)
    requires Valid(q)
    ensures Enabled(q, NextStep) ==>
      Step(q, NextStep) == q.(activeStep := q.activeStep + 1) &&
      Step(q, NextStep).activeStep < |q.data.answers|
    ensures Enabled(q, PreviousStep) ==>
      Step(q, PreviousStep) == q.(activeStep := q.activeStep - 1) &&
      Step(q, PreviousStep).activeStep >= 0
  {
  }

  /** Next then Back, and Back then Next, from a position where the first
      move is enabled, return to the starting state. */
  lemma NextThenBackRestores(q: Quiz)
    requires Valid(q)
    ensures Enabled(q, NextStep) ==>
      Enabled(Step(q, NextStep), PreviousStep) &&
      Step(Step(q, NextStep), PreviousStep) == q
    ensures Enabled(q, PreviousStep) ==>
      Enabled(Step(q, PreviousStep), NextStep) &&
      Step(Step(q, PreviousStep), NextStep) == q
  {
  }

  /** Submitting records whether the answer under the cursor carries the
      question's key, shows feedback, keeps the question and the cursor, and
      scores exactly one point when the answer is right. */
  lemma SelectAnswerOutcome(q: Quiz)
    requires Valid(q) && Enabled(q, SelectAnswer)
    ensures var r := Step(q, SelectAnswer);
      && (r.correct <==> q.data.answers[q.activeStep].key == Some(q.data.questions[q.currentQuestion].answerKey))
      && r.phase == FeedbackPhase
      && r.currentQuestion == q.currentQuestion && r.activeStep == q.activeStep
      && r.score == q.score + (if r.correct then 1 else 0)
      && r.data == q.data
  {
  }

  /** Continuing after feedback either ends the pass (after the last
      question: index and cursor back to 0) or shows the next question with
      the cursor at 0; the index stays inside the question list. */
  lemma NextQuestionOutcome(q: Quiz)
    requires Valid(q) && Enabled(q, NextQuestion)
    ensures var r := Step(q, NextQuestion);
      && (q.currentQuestion + 1 >= |q.data.questions| ==>
            r.phase == EndPhase && r.currentQuestion == 0 && r.activeStep == 0)
      && (q.currentQuestion + 1 < |q.data.questions| ==>
            r.phase == QuestionPhase && r.currentQuestion == q.currentQuestion + 1 && r.activeStep == 0)
      && 0 <= r.currentQuestion < |r.data.questions|
      && r.score == q.score && r.data == q.data
  {
  }

  /** Reset from the end view starts a new pass: question 0, cursor 0,
      score 0, question view, same title and questions, and the answers a
      permutation of the previous ones. */
  lemma ResetFromEnd(q: Quiz, draws: seq<nat>)
    requires Valid(q) && Enabled(q, Reset(draws))
    ensures var r := Step(q, Reset(draws));
      && r.phase == QuestionPhase && r.currentQuestion == 0 && r.activeStep == 0 && r.score == 0
      && r.data.interactiveTitle == q.data.interactiveTitle
      && r.data.questions == q.data.questions
      && multiset(r.data.answers) == multiset(q.data.answers)
  {
    Shuffle.ShuffledIsPermutation(q.data.answers, draws);
  }

  /** The phase moves the views allow. */
  predicate LegalTransition(from: Phase, to: Phase) {
    || (from == QuestionPhase && to in {QuestionPhase, FeedbackPhase})
    || (from == FeedbackPhase && to in {QuestionPhase, EndPhase})
    || (from == EndPhase && to == QuestionPhase)
  }

  /** The phase moves only Question to Feedback (submit), Feedback to
      Question or End (continue) and End to Question (reset); cursor moves
      stay in the question view. */
  lemma PhaseTransitions(q: Quiz, e: Event)
    requires Enabled(q, e)
    ensures LegalTransition(q.phase, Step(q, e).phase)
    ensures Step(q, e).phase == FeedbackPhase <==> e == SelectAnswer
  {
  }

  /** The score changes only on a correct submission, by one, and on reset,
      to zero. */
  lemma ScoreChanges(q: Quiz, e: Event)
    requires Enabled(q, e)
    ensures Step(q, e).score != q.score ==>
      (e == SelectAnswer && Step(q, e).correct && Step(q, e).score == q.score + 1) ||
      (e.Reset? && Step(q, e).score == 0)
  {
  }

  // ---------------------------------------------------------------------
  // Any sequence of clicks

  /** Whatever the user clicks, the invariant holds: the cursor never leaves
      the answer list, the index never leaves the question list, and the
      score stays between 0 and the number of questions. */
  lemma {:induction false} RunPreservesValid(q: Quiz, events: seq<Event>)
    requires Valid(q)
    ensures Valid(Run(q, events))
    ensures 0 <= Run(q, events).score <= |Run(q, events).data.questions|
    decreases |events|
  {
    if events != [] {
      if Enabled(q, events[0]) {
        StepPreservesValid(q, events[0]);
      }
      RunPreservesValid(Dispatch(q, events[0]), events[1..]);
    }
  }

  /** Clicks in two batches reach the same state as all of them at once. */
  lemma {:induction false} RunAppend(q: Quiz, first: seq<Event>, second: seq<Event>)
    ensures Run(q, first + second) == Run(Run(q, first), second)
    decreases |first|
  {
    if first == [] {
      assert first + second == second;
    } else {
      assert (first + second)[0] == first[0];
      assert (first + second)[1..] == first[1..] + second;
      RunAppend(Dispatch(q, first[0]), first[1..], second);
    }
  }

  // ---------------------------------------------------------------------
  // A full pass

  /** `n` clicks of Next. */
  function NextClicks(n: nat): (es: seq<Event>)
    ensures |es| == n && forall i :: 0 <= i < n ==> es[i] == NextStep
  {
    if n == 0 then [] else [NextStep] + NextClicks(n - 1)
  }

  /** From the question view with the cursor at `c`, `n` clicks of Next move
      the cursor to `c + n` when that is still an answer. */
  lemma {:induction false} NextClicksMoveCursor(q: Quiz, n: nat)
    requires Valid(q) && q.phase == QuestionPhase
    requires q.activeStep + n < |q.data.answers|
    ensures Run(q, NextClicks(n)) == q.(activeStep := q.activeStep + n)
    decreases n
  {
    if n > 0 {
      var es := NextClicks(n);
      assert es[1..] == NextClicks(n - 1);
      NextClicksMoveCursor(q.(activeStep := q.activeStep + 1), n - 1);
    }
  }

  /** The clicks of a pass in which question `i` is answered with the
      answer at position `choices[i]`: page to it, select, continue. */
  function PassClicks(choices: seq<nat>): (es: seq<Event>)
    decreases |choices|
  {
    if choices == [] then []
    else NextClicks(choices[0]) + [SelectAnswer, NextQuestion] + PassClicks(choices[1..])
  }

  /** How many of `choices` are right, the first for question `from`. */
  function CorrectCount(d: QuestionData, from: nat, choices: seq<nat>): (n: nat)
    requires from + |choices| <= |d.questions|
    requires forall i :: 0 <= i < |choices| ==> choices[i] < |d.answers|
    ensures n <= |choices|
    decreases |choices|
  {
    if choices == [] then 0
    else
      (if IsCorrect(d, from, choices[0]) then 1 else 0) + CorrectCount(d, from + 1, choices[1..])
  }

  /** Answering one question with the answer at position `c`: page to it,
      select, continue. The score grows by one exactly when that answer is
      right, and the quiz moves to the next question or, after the last, to
      the end view. */
  lemma AnswerOneQuestion(q: Quiz, c: nat, later: seq<Event>) returns (r: Quiz)
    requires Valid(q) && q.phase == QuestionPhase && q.activeStep == 0
    requires c < |q.data.answers|
    ensures Run(q, NextClicks(c) + ([SelectAnswer, NextQuestion] + later)) == Run(r, later)
    ensures Valid(r) && r.data == q.data
    ensures r.score == q.score + (if IsCorrect(q.data, q.currentQuestion, c) then 1 else 0)
    ensures q.currentQuestion + 1 >= |q.data.questions| ==>
      r.phase == EndPhase && r.currentQuestion == 0 && r.activeStep == 0
    ensures q.currentQuestion + 1 < |q.data.questions| ==>
      r.phase == QuestionPhase && r.currentQuestion == q.currentQuestion + 1 && r.activeStep == 0
  {
    var moved := q.(activeStep := c);
    NextClicksMoveCursor(q, c);
    RunAppend(q, NextClicks(c), [SelectAnswer, NextQuestion] + later);
    var selected := Step(moved, SelectAnswer);
    StepPreservesValid(moved, SelectAnswer);
    r := Step(selected, NextQuestion);
    StepPreservesValid(selected, NextQuestion);
  }

  /** Answering the remaining questions in turn ends in the end view with
      one more point per right answer. */
  lemma {:induction false} PassFrom(q: Quiz, choices: seq<nat>)
    requires Valid(q) && q.phase == QuestionPhase && q.activeStep == 0
    requires choices != [] && q.currentQuestion + |choices| == |q.data.questions|
    requires forall i :: 0 <= i < |choices| ==> choices[i] < |q.data.answers|
    ensures var r := Run(q, PassClicks(choices));
      && r.phase == EndPhase && r.currentQuestion == 0 && r.activeStep == 0
      && r.data == q.data
      && r.score == q.score + CorrectCount(q.data, q.currentQuestion, choices)
    decreases |choices|
  {
    var later := PassClicks(choices[1..]);
    assert PassClicks(choices) == NextClicks(choices[0]) + ([SelectAnswer, NextQuestion] + later);
    var next := AnswerOneQuestion(q, choices[0], later);
    if |choices| > 1 {
      PassFrom(next, choices[1..]);
    }
  }

  /** A full pass from the start, answering question `i` with the answer at
      position `choices[i]`, ends in the end view with the score equal to the
      number of right answers, between 0 and the number of questions: the
      "scored X of N" of the end view. */
  lemma FullPassScore(q: Quiz, choices: seq<nat>)
    requires Valid(q) && q.phase == QuestionPhase
    requires q.currentQuestion == 0 && q.activeStep == 0 && q.score == 0
    requires |choices| == |q.data.questions|
    requires forall i :: 0 <= i < |choices| ==> choices[i] < |q.data.answers|
    ensures var r := Run(q, PassClicks(choices));
      && r.phase == EndPhase
      && r.score == CorrectCount(q.data, 0, choices)
      && 0 <= r.score <= |q.data.questions|
  {
    PassFrom(q, choices);
  }
}
