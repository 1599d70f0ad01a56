/** The quiz component: its fields, its handlers and its start-up. */
module Component {
  import opened Wrappers
  import opened QuizData
  import DataSource
  import Shuffle
  import QuizMachine

  class IntractiveWrapper {
    /** The path the question set is fetched from. */
    var usingDataSrc: string
    var questionData: QuestionData
    var displayState: Phase
    var currentQuestion: int
    var activeStep: int
    /** Whether the last submitted answer was right. */
    var correctResponce: bool
    var score: int

    /** The quiz state held in the fields. */
    function Model(): (q: QuizMachine.Quiz)
      reads this
    {
      QuizMachine.Quiz(questionData, displayState, currentQuestion, activeStep, correctResponce, score)
    }

    predicate Valid()
      reads this
    {
      QuizMachine.Valid(Model())
    }

    /** The component as constructed: the placeholder question set, the
      question view, question 0, cursor 0, score 0, no source chosen yet. */
    constructor ()
      ensures Valid()
      ensures Model() == QuizMachine.Initial()
      ensures usingDataSrc == ""
    {
      usingDataSrc := "";
      questionData := Placeholder();
      displayState := QuestionPhase;
      currentQuestion := 0;
      activeStep := 0;
      correctResponce := false;
      score := 0;
      new;
      QuizMachine.InitialIsValid();
    }

    /** The source chosen at mount: the window-level override is assigned
        first and then always overwritten, so the result is the parent
        frame's override if given, else the `src` property if given, else
        the default path. On a top-level page `window.parent` is the window
        itself, so the caller passes the page's override as both
        `windowOverride` and `parentOverride`, and a given one decides. */
    method ChooseDataSource(windowOverride: Option<string>, parentOverride: Option<string>, src: Option<string>)
      modifies this`usingDataSrc
      ensures usingDataSrc == DataSource.FirstPresent([parentOverride, src], DataSource.DefaultSource)
      ensures windowOverride == parentOverride && DataSource.Present(windowOverride) ==>
        usingDataSrc == windowOverride.value
    {
      if DataSource.Present(windowOverride) {
        usingDataSrc := windowOverride.value;
      }
      if DataSource.Present(parentOverride) {
        usingDataSrc := parentOverride.value;
      } else if DataSource.Present(src) {
        usingDataSrc := src.value;
      } else {
        usingDataSrc := DataSource.DefaultSource;
      }
    }

    /** Replaces the answer list with a shuffled copy of it; the title and
        the questions are kept. */
    method ShuffleAnswerData() returns (draws: seq<nat>)
      modifies this`questionData
      ensures Shuffle.IsDrawSequence(draws, |old(questionData.answers)|)
      ensures questionData == old(questionData).(answers := Shuffle.Shuffled(old(questionData.answers), draws))
      ensures multiset(questionData.answers) == multiset(old(questionData.answers))
    {
      var qDataCopy := questionData;
      var shuffled;
      shuffled, draws := Shuffle.ShuffleCopy(qDataCopy.answers);
      questionData := qDataCopy.(answers := shuffled);
    }

    /** The fetch of the question set and the two shuffles chained after it.
        When the fetch delivered a question set it is installed and its
        answers shuffled twice; when the fetch failed nothing happens and the
        placeholder stays. */
    method GetQuestionData(loaded: Option<QuestionData>) returns (first: seq<nat>, second: seq<nat>)
      requires Model() == QuizMachine.Initial()
      requires loaded.Some? ==> WellFormed(loaded.value)
      modifies this`questionData
      ensures Valid()
      ensures loaded.None? ==> Model() == QuizMachine.Initial() && first == [] && second == []
      ensures loaded.Some? ==>
        Shuffle.IsDrawSequence(first, |loaded.value.answers|) &&
        Shuffle.IsDrawSequence(second, |loaded.value.answers|) &&
        Model() == QuizMachine.Loaded(loaded.value, first, second)
    {
      first, second := [], [];
      QuizMachine.InitialIsValid();
      if loaded.Some? {
        var d := loaded.value;
        questionData := d;
        first := ShuffleAnswerData();
        second := ShuffleAnswerData();
        QuizMachine.LoadedIsValid(d, first, second);
      }
    }

    /** Mounting: chooses the source, then loads from it. */
    method ComponentDidMount(windowOverride: Option<string>, parentOverride: Option<string>,
                             src: Option<string>, loaded: Option<QuestionData>)
      returns (first: seq<nat>, second: seq<nat>)
      requires Model() == QuizMachine.Initial()
      requires loaded.Some? ==> WellFormed(loaded.value)
      modifies this`usingDataSrc, this`questionData
      ensures usingDataSrc == DataSource.FirstPresent([parentOverride, src], DataSource.DefaultSource)
      ensures Valid()
      ensures loaded.None? ==> Model() == QuizMachine.Initial()
      ensures loaded.Some? ==>
        Shuffle.IsDrawSequence(first, |loaded.value.answers|) &&
        Shuffle.IsDrawSequence(second, |loaded.value.answers|) &&
        Model() == QuizMachine.Loaded(loaded.value, first, second)
    {
      ChooseDataSource(windowOverride, parentOverride, src);
      first, second := GetQuestionData(loaded);
    }

    method HandleNextStep()
      requires Valid() && QuizMachine.Enabled(Model(), QuizMachine.NextStep)
      modifies this`activeStep
      ensures Valid()
      ensures Model() == QuizMachine.Step(old(Model()), QuizMachine.NextStep)
    {
      activeStep := activeStep + 1;
    }

    method HandlePreviousStep()
      requires Valid() && QuizMachine.Enabled(Model(), QuizMachine.PreviousStep)
      modifies this`activeStep
      ensures Valid()
      ensures Model() == QuizMachine.Step(old(Model()), QuizMachine.PreviousStep)
    {
      activeStep := activeStep - 1;
    }

    /** Submits the answer under the cursor. The component scores the point
        while rendering the feedback view; here it is scored once, on the
        transition into that view. */
    method HandleAnswerSelection()
      requires Valid() && QuizMachine.Enabled(Model(), QuizMachine.SelectAnswer)
      modifies this`correctResponce, this`displayState, this`score
      ensures Valid()
      ensures Model() == QuizMachine.Step(old(Model()), QuizMachine.SelectAnswer)
    {
      correctResponce := questionData.answers[activeStep].key == Some(questionData.questions[currentQuestion].answerKey);
      displayState := FeedbackPhase;
      if correctResponce {
        score := score + 1;
      }
    }

    method HandleNextQuestionSelection()
      requires Valid() && QuizMachine.Enabled(Model(), QuizMachine.NextQuestion)
      modifies this`currentQuestion, this`displayState, this`activeStep
      ensures Valid()
      ensures Model() == QuizMachine.Step(old(Model()), QuizMachine.NextQuestion)
    {
      if currentQuestion + 1 >= |questionData.questions| {
        currentQuestion := 0;
        displayState := EndPhase;
        activeStep := 0;
      } else {
        currentQuestion := currentQuestion + 1;
        displayState := QuestionPhase;
        activeStep := 0;
      }
    }

    method HandleReset() returns (draws: seq<nat>)
      requires Valid() && displayState == EndPhase
      modifies this`questionData, this`score, this`displayState
      ensures Valid()
      ensures QuizMachine.Enabled(old(Model()), QuizMachine.Reset(draws))
      ensures Model() == QuizMachine.Step(old(Model()), QuizMachine.Reset(draws))
    {
      draws := ShuffleAnswerData();
      score := 0;
      displayState := QuestionPhase;
      QuizMachine.StepPreservesValid(old(Model()), QuizMachine.Reset(draws));
    }
  }
}
