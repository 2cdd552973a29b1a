# Grade 8 English quiz: the quiz session, modelled in Dafny

The application walks a learner through ten multiple-choice questions for a
curriculum topic. It selects an option, checks the answer, moves on to the
next question, and ends on a results panel with an accuracy percentage and a
feedback message. All of this lives in the `Quiz` component. This project
models that component's state machine and the values it derives from it:

- `types.dfy` (module `QuizTypes`) mirrors the `Option` and `Question`
  records, adds `Maybe` for TypeScript's `T | null`, and counts option
  identifiers.
- `session.dfy` (module `QuizSession`) holds class `Session`. Its fields are
  the component's eight pieces of state. It has one method per handler, with
  the fetch split into its synchronous start and its completion. It also has
  the function that picks the screen to render, and the "Correct!/Incorrect"
  and "Next Question/Finish Quiz" captions.
- `results.dfy` (module `QuizResults`) holds the accuracy percentage, the
  three feedback bands and the award highlight.
- `option_display.dfy` (module `OptionDisplay`) holds the look of each
  option button: correct, wrong, dimmed, highlighted or plain.

The session invariant `Session.Valid` carries a ghost record `answers`. It
holds the selection in force at each check, one entry per question checked
so far. The score is always the number of those answers that matched their
question's correct option. So each question is scored at most once, and the
score never exceeds the number of questions checked.

The buttons the view renders decide which handlers can run. These become
preconditions:
- option buttons, "Check Answer" and "Next" exist only on the question
  screen;
- "Check Answer" is rendered only before a check;
- "Next" is rendered only after a check.

Two behaviours of the code matter here, and the model follows the code.
First, the code does not validate what the question generator returns: it
only casts the parsed JSON (`services/geminiService.ts:68`). So a `Question` may have
any number of options, and its correct id need not name one of them.
Second, nothing guards against a stale response arriving after a topic
change (`components/Quiz.tsx:41-44`).

The model keeps JavaScript truthiness where the code relies on it. A
selection that is the empty string counts as no selection: "Check Answer"
stays disabled and the handler returns at once. An empty error string
counts as no error.

## Model

| member | source | states |
|---|---|---|
| `QuizSession.Session.constructor` | english-grade-8-master/components/Quiz.tsx:11-19 | The initial state: no questions, loading, no error, index 0, no selection, not checked, score 0, results hidden; the invariant holds and the spinner is shown. |
| `QuizSession.Session.StartFetch` | english-grade-8-master/components/Quiz.tsx:21-28 | From any state: loading, error cleared, results hidden, index 0, score 0, no selection, not checked, no recorded answers. The old questions stay. The invariant is re-established. |
| `QuizSession.Session.CompleteFetch` | english-grade-8-master/components/Quiz.tsx:30-37 | Loading is always cleared. Success replaces the questions with the returned list, and the screen becomes the question panel (or the blank screen for an empty list). Failure keeps the old questions, sets the fixed error message and shows the error panel. Index, score and selection stay at their reset values. |
| `QuizSession.Session.FetchQuiz` | english-grade-8-master/components/Quiz.tsx:21-44 | A whole fetch, as run on mount, on a topic change and by both retry buttons, ends in the reset shape whatever state it started from. |
| `QuizSession.Session.SelectOption` | english-grade-8-master/components/Quiz.tsx:46-50 | Before a check the selection becomes the clicked id. After a check nothing changes. No other field changes, and the invariant is kept. |
| `QuizSession.Session.CheckAnswer` | english-grade-8-master/components/Quiz.tsx:52-59 | It changes state exactly when "Check Answer" is enabled: the answer becomes checked iff the button was enabled, and with no (or an empty) selection every field is unchanged. Otherwise the check flag is set, the selection is recorded once, and the score rises by exactly 1 iff the selection is the current question's correct id. The score rises iff the verdict shown is "Correct!". The index and selection are unchanged, and the score never decreases. |
| `QuizSession.Session.NextQuestion` | english-grade-8-master/components/Quiz.tsx:61-69 | Results are shown iff the button read "Finish Quiz". Before the last index, the index advances by exactly 1, the selection and check flag are cleared, and the question panel stays. At the last index only the results flag is set. The score and recorded answers never change. |
| `QuizSession.Session.CurrentScreen` | english-grade-8-master/components/Quiz.tsx:71-136 | The question panel is shown iff nothing is loading, there is no error, results are hidden and the list is non-empty. The results panel is shown iff nothing is loading, there is no error and results are set. |
| `QuizSession.Session.HasError` | english-grade-8-master/components/Quiz.tsx:80 | The truthiness test on the error: under the invariant it holds exactly when the last fetch failed and left the fixed message. |
| `QuizSession.Session.CheckEnabled` | english-grade-8-master/components/Quiz.tsx:223-227 | "Check Answer" is clickable iff the question panel is shown, the answer is unchecked and the selection is truthy (neither null nor empty). |
| `QuizSession.Session.Accuracy` | english-grade-8-master/components/Quiz.tsx:97 | On the results panel the accuracy lies in [0, 100]. It is 100 for a perfect score and 0 for no correct answer. |
| `QuizSession.QuestionScreenBounds` | english-grade-8-master/components/Quiz.tsx:136-138 | While a question is shown: `0 <= currentIndex < |questions|` and `score <= currentIndex + (checked ? 1 : 0) <= |questions|`. |
| `QuizSession.ResultsBounds` | english-grade-8-master/components/Quiz.tsx:96-114 | On the results panel every question has been checked once, the score is at most the number of questions, and the score is full iff every answer was the correct one. |
| `QuizSession.CountCorrect` | english-grade-8-master/components/Quiz.tsx:56-58 | The number of checks that matched the correct option is at most the number of checks. |
| `QuizSession.FullMarksIffAllCorrect` | english-grade-8-master/components/Quiz.tsx:52-59 | The count of correct checks equals the number of checks iff every recorded answer equals its question's correct id. |
| `QuizSession.VerdictLabel` | english-grade-8-master/components/Quiz.tsx:208-211 | "Correct!" iff the selection equals the correct id, and "Incorrect" otherwise. |
| `QuizSession.NextLabel` | english-grade-8-master/components/Quiz.tsx:218 | "Finish Quiz" iff the index is the last one, and "Next Question" otherwise. |
| `QuizResults.Percentage` | english-grade-8-master/components/Quiz.tsx:97 | The percentage is `score*100/total` rounded to the nearest integer, halves up. It lies in [0, 100] when the score does not exceed the total. |
| `QuizResults.PercentageUnique` | english-grade-8-master/components/Quiz.tsx:97 | Any integer within that rounding window is the percentage, so the rounding determines it. |
| `QuizResults.PercentageMonotone` | english-grade-8-master/components/Quiz.tsx:97 | A higher score never gives a lower percentage. |
| `QuizResults.PercentageExtremes` | english-grade-8-master/components/Quiz.tsx:97 | No correct answers give 0%, and all correct give 100%. |
| `QuizResults.BandOf` | english-grade-8-master/components/Quiz.tsx:98-101 | "Excellent" iff the percentage is at least 90. "Great job" iff it is at least 70 and below 90. "Good effort" iff it is below 70. |
| `QuizResults.Feedback` | english-grade-8-master/components/Quiz.tsx:98-101 | The exact feedback sentence: the "Excellent!" text iff the percentage is at least 90, the "Great job!" text iff it is in [70, 90), and the "Good effort!" text iff it is below 70. |
| `QuizResults.AwardHighlighted` | english-grade-8-master/components/Quiz.tsx:106 | The award is coloured iff the band is above "Good effort". |
| `QuizResults.BandMonotone` | english-grade-8-master/components/Quiz.tsx:97-101 | A higher score never earns a lower feedback band. |
| `QuizResults.SevenOfTen` | english-grade-8-master/components/Quiz.tsx:97-101 | 7 of 10 gives 70%, which falls in the middle band because the boundary is inclusive. |
| `OptionDisplay.DisplayOf` | english-grade-8-master/components/Quiz.tsx:165-185 | After a check: correct iff the option is the correct one; wrong iff it is selected and not correct; dimmed iff neither. Before a check: highlighted iff it is selected, and plain otherwise. |
| `OptionDisplay.Displays` | english-grade-8-master/components/Quiz.tsx:165-200 | One look per option, in order, each given by `DisplayOf`. |
| `OptionDisplay.CorrectMarksCount` | english-grade-8-master/components/Quiz.tsx:173-176 | After a check, the number of buttons marked correct equals the number of options carrying the correct id. |
| `OptionDisplay.WrongMarksCount` | english-grade-8-master/components/Quiz.tsx:177-179 | After a check, the number of buttons marked wrong equals the number of options carrying the selected id when that id is not the correct one, and is zero otherwise. |
| `OptionDisplay.HighlightCount` | english-grade-8-master/components/Quiz.tsx:183-185 | Before a check, the number of highlighted buttons equals the number of options carrying the selected id. |
| `OptionDisplay.ExactlyOneCorrect` | english-grade-8-master/components/Quiz.tsx:165-185 | With unique option ids and a correct id that names an option, exactly one button is marked correct. |
| `OptionDisplay.AtMostOneWrong` | english-grade-8-master/components/Quiz.tsx:165-185 | With unique option ids, exactly one button is marked wrong if a non-correct option was selected, and none otherwise. |
| `OptionDisplay.AtMostOneHighlighted` | english-grade-8-master/components/Quiz.tsx:165-185 | With unique option ids, exactly one button is highlighted if the selection is one of the options, and none otherwise. |

## Left out

- The question generator (`services/geminiService.ts`) is not part of this
  model. It covers prompt construction, the network call, the model
  settings and JSON parsing, all of which are foreign calls. Its result is
  the parameter `FetchOutcome` of `CompleteFetch` and `FetchQuiz`: an
  arbitrary list of questions, or a failure.
- The stale-response race is not modelled. A fetch for an older topic can
  resolve after a newer one, because the effect at `Quiz.tsx:41-44` has no
  guard. That is concurrency, so the model runs each fetch start and its
  completion as separate, sequential steps.
- `App.tsx` (tab and menu chrome), `constants.ts` (static topic table and
  curriculum text) and the `QuizData`, `TabId` and `TabConfig` declarations
  of `types.ts` are not part of this model. They hold no session logic.
- QuizResults.Percentage: it idealises JavaScript's floating-point
  `Math.round((score / total) * 100)` as exact integer round-half-up,
  `(200*score + total) / (2*total)`. A float product that lands just below
  a half is not modelled.
- The progress bar width (`Quiz.tsx:139`, floating point) is not modelled.
  Neither are the CSS class strings built from the topic colour, the icons
  or the JSX markup.
- JavaScript numbers for the index and score are modelled as unbounded
  natural numbers. They stay far below 2^53.
- QuizSession.Session.SelectOption: it accepts any id, not only the ids of
  the rendered options, which is more general than the view allows.
