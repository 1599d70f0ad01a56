# Quiz widget interaction core, in Dafny

This project models the interaction core of the `IntractiveWrapper` quiz component
(`src/components/intractiveWrapper.tsx`). The component loads a question set, then shows one
question at a time. The user pages through a shuffled pool of answers with Next and Back,
submits one with Select Answer, sees feedback, continues with Next Question, and at the end
sees "scored X of N" with a Reset button.

Modules:

- `Wrappers` (`wrappers.dfy`): `Option`.
- `QuizData` (`quiz_data.dfy`): the loaded records (`Question`, `Answer` with an optional key,
  `QuestionData`), the display phase as a closed datatype, the built-in "Data Load Failure"
  placeholder, and the correctness comparison `IsCorrect`.
- `DataSource` (`data_source.dfy`): JavaScript truthiness of an optional string (`Present`) and
  the first-given resolver `FirstPresent`.
- `Shuffle` (`shuffle.dfy`): the Fisher–Yates shuffle. `ShuffleCopy` copies the answers into a
  fresh array and runs the source's `while (currentIndex !== 0)` loop in place. The spec function
  `Shuffled(s, draws)` gives the result of a run as a function of its random draws. Lemmas prove
  that every run is a permutation and that every permutation is produced by some run.
- `QuizMachine` (`quiz_machine.dfy`): the state machine as values. `Quiz` is the component state,
  `Valid` its invariant, `Event` the user intents, and `Enabled` the button-enable conditions of the
  view. `Step` is one handler and `Run` a sequence of clicks. Lemmas cover single steps, arbitrary
  click sequences, and a full pass.
- `Component` (`intractive_wrapper.dfy`): the class `IntractiveWrapper`. Its fields are those the
  component updates (`usingDataSrc`, `questionData`, `displayState`, `currentQuestion`,
  `activeStep`, `correctResponce`, `score`). Its methods are the handlers, the shuffle and the
  mount sequence. Each handler is proved to produce `QuizMachine.Step` of the old state and to
  keep `Valid`.

Modelling choices:

- Handlers have no guards in the source. The buttons that call them are disabled or absent
  outside their conditions: Next is disabled at the last answer, Back at the first, Select
  Answer exists only in the question view, Next Question only in the feedback view, and Reset
  only in the end view. The class methods therefore take these conditions as `requires`
  (`QuizMachine.Enabled`). At the level of the page, `QuizMachine.Dispatch` treats a click on a
  disabled or absent control as a no-op. `Run` is built from `Dispatch`, so the invariant is
  proved for every sequence of clicks.
- The source increments `score` while rendering the feedback view. The model increments it once,
  inside `HandleAnswerSelection`, when the submitted answer is right.
- The answer list is one pool shared by every question, as in the source. It is not reshuffled
  between questions.
- `Math.random()` is replaced by a nondeterministic choice of `randomIndex` in
  `[0, currentIndex)`. The draws are returned so that contracts can name the resulting order.
- The fetch of the question set is an input: `Some(data)` when it delivered data, `None` when it
  failed. On failure the source's promise never resolves, so no shuffle runs and the placeholder
  stays.
- JavaScript numbers are modelled as unbounded `int`.

Three behaviours of the code that its structure does not make obvious:

- The window-level source override is assigned first and then always overwritten. The source is
  therefore the parent frame's override, else the `src` property, else `./sample.json`. On a
  top-level page `window.parent` is the window itself, so the page's own override is read again
  as the parent's and, when given, decides ahead of `src`. The caller then passes the same value
  as `windowOverride` and `parentOverride`. Only inside a frame is the frame's own override
  ignored.
- The shuffled copy is stored back as the question set. Later shuffles start from the previous
  order, not from a pristine canonical one.
- Reset itself does not zero the question index or the cursor. It relies on the transition into
  the end view having done so. `ResetFromEnd` proves that a reset from the end view starts at
  question 0, cursor 0.

## Model

The definitions these rows state properties of have no rows of their own, because the handler rows cover them:

- `QuizMachine.Enabled`: the button conditions at lines 269-272 and 281, and the view each button appears in.
- `QuizMachine.Step`: the five handlers at lines 193-233.
- `QuizMachine.Dispatch`: a click on a disabled control does nothing.
- `QuizData.IsCorrect`: the key comparison at lines 202-204.
- `Shuffle.Swap`: the destructuring swap at lines 157-160.

| member | source | states |
|---|---|---|
| QuizData.Placeholder | src/components/intractiveWrapper.tsx:52-67 | The placeholder question set has at least one question and one answer, and the first answer's key equals the first question's answer key. |
| QuizMachine.InitialIsValid | src/components/intractiveWrapper.tsx:50-71 | The initial state (question view, question 0, cursor 0, score 0, exactly one question and one answer whose keys match) satisfies the invariant. |
| Component.IntractiveWrapper.constructor | src/components/intractiveWrapper.tsx:40-71 | A new component holds the placeholder state, `correctResponce` false, `score` 0, an empty source path, and satisfies the invariant. |
| DataSource.FirstPresent | src/components/intractiveWrapper.tsx:85-91 | The result is the first given (truthy) candidate, or the fallback when none is given. |
| Component.IntractiveWrapper.ChooseDataSource | src/components/intractiveWrapper.tsx:82-91 | The chosen source is the parent-frame override if given, else `src` if given, else `./sample.json`. The assignment from the window-level override is always overwritten. When the window is its own parent (a top-level page, same value for both overrides), a given override decides. |
| DataSource.TopLevelOverrideDecides | src/components/intractiveWrapper.tsx:85-86 | When the window is its own parent, the page's own non-empty override is chosen ahead of `src`. |
| Shuffle.ShuffleCopy | src/components/intractiveWrapper.tsx:151-161 | The in-place loop over a fresh copy makes exactly one draw per element, each in `[0, currentIndex)`. Its result is `Shuffled(source, draws)` and a permutation of the source. |
| Shuffle.SwapIsPermutation | src/components/intractiveWrapper.tsx:157-160 | Exchanging two positions keeps the same elements with the same multiplicities. |
| Shuffle.ShuffledUpToIsPermutation | src/components/intractiveWrapper.tsx:154-161 | After any number of iterations the list is a permutation of the original. |
| Shuffle.ShuffledIsPermutation | src/components/intractiveWrapper.tsx:153-161 | A complete or partial run, whatever the draws, keeps the length and the multiset of answers. |
| Shuffle.UpToUsesOnlyEarlierDraws | src/components/intractiveWrapper.tsx:154-161 | The first `m` iterations depend only on the first `m` draws, so drawing more does not change what is already done. |
| Shuffle.FirstDrawSettlesLast | src/components/intractiveWrapper.tsx:154-161 | After the first iteration the last position is never touched again; the remaining iterations shuffle only the prefix. |
| Shuffle.EveryArrangementReachable | src/components/intractiveWrapper.tsx:153-161 | Every permutation of the answers is the result of some valid draw sequence. |
| Component.IntractiveWrapper.ShuffleAnswerData | src/components/intractiveWrapper.tsx:148-176 | Replaces the answers with `Shuffled(old answers, draws)`, a permutation of them; the title and the questions are unchanged. |
| QuizMachine.LoadedIsValid | src/components/intractiveWrapper.tsx:93-97 | Loading a non-empty question set and shuffling twice gives a valid start state whose title and questions are as loaded and whose answers are a permutation of the loaded ones. |
| Component.IntractiveWrapper.GetQuestionData | src/components/intractiveWrapper.tsx:131-146 | A delivered question set is installed and shuffled twice (state `Loaded(data, first, second)`); a failed fetch leaves the placeholder state. |
| Component.IntractiveWrapper.ComponentDidMount | src/components/intractiveWrapper.tsx:78-98 | Mounting chooses the source by the priority above, then loads as `GetQuestionData`; the result satisfies the invariant. |
| Component.IntractiveWrapper.HandleNextStep | src/components/intractiveWrapper.tsx:193-195 | With Next enabled, the state becomes `Step(old, NextStep)` and stays valid. |
| Component.IntractiveWrapper.HandlePreviousStep | src/components/intractiveWrapper.tsx:197-199 | With Back enabled, the state becomes `Step(old, PreviousStep)` and stays valid. |
| Component.IntractiveWrapper.HandleAnswerSelection | src/components/intractiveWrapper.tsx:201-206 | In the question view, the state becomes `Step(old, SelectAnswer)` and stays valid. |
| Component.IntractiveWrapper.HandleNextQuestionSelection | src/components/intractiveWrapper.tsx:208-225 | In the feedback view, the state becomes `Step(old, NextQuestion)` and stays valid. |
| Component.IntractiveWrapper.HandleReset | src/components/intractiveWrapper.tsx:227-233 | In the end view, the state becomes `Step(old, Reset(draws))` for the draws of its reshuffle, which lie in range; the state stays valid. |
| QuizMachine.StepPreservesValid | src/components/intractiveWrapper.tsx:193-233 | Every enabled handler keeps the invariant: indices in range, index and cursor 0 in the end view, the feedback flag matching the selection, and the score between 0 and the number of questions already submitted. |
| QuizMachine.CursorMoves | src/components/intractiveWrapper.tsx:193-199 | Next and Back change only the cursor, by exactly +1 and -1, and keep it inside the answer list. |
| QuizMachine.NextThenBackRestores | src/components/intractiveWrapper.tsx:193-199 | Next then Back, or Back then Next, from a position where the first move is enabled, restores the state. |
| QuizMachine.SelectAnswerOutcome | src/components/intractiveWrapper.tsx:201-206 | `correctResponce` is true exactly when the answer under the cursor has the question's key. The phase becomes feedback, question, cursor and data are unchanged, and the score grows by one exactly for a right answer. |
| QuizMachine.NextQuestionOutcome | src/components/intractiveWrapper.tsx:208-225 | After the last question: end view, question 0, cursor 0. Otherwise: next question, question view, cursor 0. The index stays below the question count. |
| QuizMachine.ResetFromEnd | src/components/intractiveWrapper.tsx:227-233 | Reset from the end view gives score 0, question view, question 0, cursor 0, the same title and questions, and a permutation of the answers. |
| QuizMachine.PhaseTransitions | src/components/intractiveWrapper.tsx:201-233 | The phase moves only Question→Feedback, Feedback→Question, Feedback→End, End→Question (or stays in the question view for cursor moves), and it becomes Feedback exactly on submission. |
| QuizMachine.ScoreChanges | src/components/intractiveWrapper.tsx:299-302 | The score changes only on a right submission, by +1, or on reset, to 0. |
| QuizMachine.RunPreservesValid | src/components/intractiveWrapper.tsx:260-293 | For any sequence of clicks, the invariant holds: the cursor never leaves the answer list, the index never leaves the question list, and `0 <= score <= questions.length`. |
| QuizMachine.NextClicksMoveCursor | src/components/intractiveWrapper.tsx:193-195 | `n` clicks of Next from cursor `c` put the cursor at `c + n` when that is an answer, changing nothing else. |
| QuizMachine.AnswerOneQuestion | src/components/intractiveWrapper.tsx:201-225 | Paging to answer `c`, selecting and continuing adds one point exactly when `c` is right, and leads to the next question or, after the last, to the end view. |
| QuizMachine.PassFrom | src/components/intractiveWrapper.tsx:201-225 | Answering the remaining questions ends in the end view with the score raised by the number of right answers. |
| QuizMachine.FullPassScore | src/components/intractiveWrapper.tsx:332-338 | A full pass from the start ends in the end view with the score equal to the number of questions answered right, between 0 and the number of questions ("scored X of N"). |

## Left out

- Rendering, Material-UI components and styling: only the button enable conditions are kept, as `QuizMachine.Enabled`.
- `getLangData`, the language override and `langKey`: they only choose and fetch the string bundle. When the language override is unsupported, the source assigns the question-source override `si_srcOverride` as the language. When it is supported, the source only warns, and the warning prints `si_srcOverride`. Either way the choice feeds only the path of the string-bundle fetch.
- `fetch`, JSON parsing and promise chaining: the outcome of loading the question set is an input (`Option<QuestionData>`).
- React's asynchronous `setState`: each handler is one atomic update. The race between a slow load and user clicks is not modelled. `ComponentDidMount` and `GetQuestionData` require the initial state.
- Component.IntractiveWrapper.GetQuestionData and Component.IntractiveWrapper.ComponentDidMount: require that a delivered question set has at least one question and one answer. The views index the first question and answer without a guard, so the source fails on such data rather than handling it.
- Component.IntractiveWrapper.HandleAnswerSelection: scores once on entering the feedback view. The source scores each time the feedback view renders, so extra renders would add extra points. That is not modelled.
- Uniformity of `Math.random()` and of the resulting permutation: draws are any values in range.
- `deepcopy`: modelled as value copying (a `seq` value and a fresh array).
- `defineStepper`: it builds display labels and is never called.
- Console logging, the "invalid display state" error branch (impossible with a closed phase type), and the `ref` field.
- Component.IntractiveWrapper.ComponentDidMount: covers only a parent frame whose override can be read. With a cross-origin parent, reading `window.parent.si_srcOverride` throws and aborts `componentDidMount` before the fetch. React then unmounts the component, or an error boundary takes over. That exception path is not modelled. The parent override is an input, `None` when the parent sets none.
