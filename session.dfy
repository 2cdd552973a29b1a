/** The quiz session of one topic: the state the quiz component keeps, the
    handlers that change it, and what the component shows from it. */
module QuizSession {
  import opened QuizTypes
  import opened QuizResults

  /** The only error text the component ever sets. */
  const FetchErrorMessage: string := "Failed to load quiz. Please check your connection or API key."

  /** What the question generator hands back: a list of questions (taken as
      it comes, without any check) or a failure of any kind. */
  datatype FetchOutcome = Success(data: seq<Question>) | Failure

  /** The five things the component can render, tried in this order. */
  datatype Screen = LoadingScreen | ErrorScreen(message: string) | ResultsScreen | EmptyScreen | QuestionScreen

  /** JavaScript truthiness of the selection: both `null` and the empty
      string count as "nothing selected". */
  predicate HasSelection(selected: Maybe<string>) {
    selected.Just? && selected.value != ""
  }

  /** How many of the recorded answers match the correct option of the
      question they were given for, the i-th answer for the i-th question. */
  function CountCorrect(questions: seq<Question>, answers: seq<string>): (n: nat)
    requires |answers| <= |questions|
    ensures n <= |answers|
    decreases |answers|
  {
    if answers == [] then 0
    else
      var k := |answers| - 1;
      CountCorrect(questions, answers[..k]) + (if answers[k] == questions[k].correctOptionId then 1 else 0)
  }

  /** Full marks exactly when every recorded answer was the correct one. */
  lemma {:induction false} FullMarksIffAllCorrect(questions: seq<Question>, answers: seq<string>)
    requires |answers| <= |questions|
    ensures CountCorrect(questions, answers) == |answers|
        <==> forall i :: 0 <= i < |answers| ==> answers[i] == questions[i].correctOptionId
  {
    if answers != [] {
      var k := |answers| - 1;
      FullMarksIffAllCorrect(questions, answers[..k]);
      assert forall i :: 0 <= i < k ==> answers[..k][i] == answers[i];
    }
  }

  /** The verdict printed above the explanation once an answer is checked. */
  function VerdictLabel(selected: Maybe<string>, q: Question): (caption: string)
    ensures caption == "Correct!" <==> selected == Just(q.correctOptionId)
    ensures caption == "Correct!" || caption == "Incorrect"
  {
    if selected == Just(q.correctOptionId) then "Correct!" else "Incorrect"
  }

  /** The caption of the button that moves on from a checked question. */
  function NextLabel(index: nat, total: nat): (caption: string)
    ensures caption == "Finish Quiz" <==> index + 1 == total
    ensures caption == "Finish Quiz" || caption == "Next Question"
  {
    if index == total - 1 then "Finish Quiz" else "Next Question"
  }

  class Session {
    var questions: seq<Question>
    var loading: bool
    var error: Maybe<string>
    var currentIndex: nat
    var selectedOption: Maybe<string>
    var isAnswerChecked: bool
    var score: nat
    var showResults: bool
    /** The selection in force at each check of the current run, one per
        question checked so far. */
    ghost var answers: seq<string>

    /** Index, score, selection and flags as a fresh fetch leaves them. */
    ghost predicate Reset()
      reads this
    {
      currentIndex == 0 && score == 0 && selectedOption == Nothing && !isAnswerChecked && !showResults
    }

    /** The session invariant: every question up to the current one has been
        checked once (the current one when the check flag is set), the score
        counts the correct ones among those checks, and results are shown
        only after the last question was checked. */
    ghost predicate Valid()
      reads this
    {
      && |answers| == currentIndex + (if isAnswerChecked then 1 else 0)
      && |answers| <= |questions|
      && (currentIndex == 0 || currentIndex < |questions|)
      && score == CountCorrect(questions, answers)
      && (isAnswerChecked ==> HasSelection(selectedOption) && answers[currentIndex] == selectedOption.value)
      && (showResults ==> isAnswerChecked && currentIndex + 1 == |questions|)
      && (error == Nothing || error == Just(FetchErrorMessage))
      && (loading || error != Nothing ==> Reset() && answers == [])
      && (loading ==> error == Nothing)
    }

    /** JavaScript truthiness of the error: under the invariant, exactly
        when the last fetch failed. */
    predicate HasError()
      reads this
      ensures Valid() ==> (HasError() <==> error == Just(FetchErrorMessage))
    {
      error.Just? && error.value != ""
    }

    /** What the component renders: the spinner while loading, then the error
        panel, then the results, then nothing for an empty list, and the
        question panel otherwise. */
    function CurrentScreen(): (s: Screen)
      reads this
      ensures s == QuestionScreen <==> !loading && !HasError() && !showResults && |questions| > 0
      ensures s == ResultsScreen <==> !loading && !HasError() && showResults
    {
      if loading then LoadingScreen
      else if HasError() then ErrorScreen(error.value)
      else if showResults then ResultsScreen
      else if |questions| == 0 then EmptyScreen
      else QuestionScreen
    }

    /** Whether "Check Answer" can be clicked: it is rendered only on the
        question panel before a check, and disabled without a selection. */
    function CheckEnabled(): (enabled: bool)
      reads this
      ensures enabled <==> CurrentScreen() == QuestionScreen && !isAnswerChecked && HasSelection(selectedOption)
      ensures enabled ==> |questions| > 0 && !showResults
    {
      && !loading && !HasError() && !showResults && |questions| > 0
      && !isAnswerChecked && HasSelection(selectedOption)
    }

    /** The accuracy on the results panel. */
    function Accuracy(): (p: nat)
      reads this
      requires Valid() && CurrentScreen() == ResultsScreen
      ensures p <= 100
      ensures score == |questions| ==> p == 100
      ensures score == 0 ==> p == 0
    {
      PercentageExtremes(|questions|);
      Percentage(score, |questions|)
    }

    /** The component's initial state: loading, with no questions yet. */
    constructor ()
      ensures questions == [] && loading && error == Nothing && Reset() && answers == []
      ensures Valid() && CurrentScreen() == LoadingScreen
    {
      questions := [];
      loading := true;
      error := Nothing;
      currentIndex := 0;
      selectedOption := Nothing;
      isAnswerChecked := false;
      score := 0;
      showResults := false;
      answers := [];
    }

    /** The synchronous start of a fetch: everything is reset and the spinner
        shown; the old questions stay until the fetch completes. */
    method StartFetch()
      modifies this
      ensures Valid() && loading && error == Nothing && Reset() && answers == []
      ensures questions == old(questions)
      ensures CurrentScreen() == LoadingScreen
    {
      loading := true;
      error := Nothing;
      showResults := false;
      currentIndex := 0;
      score := 0;
      selectedOption := Nothing;
      isAnswerChecked := false;
      answers := [];
    }

    /** The completion of a fetch: the questions on success, the fixed error
        message on failure, and the spinner cleared in both cases. */
    method CompleteFetch(outcome: FetchOutcome)
      requires Valid() && loading
      modifies this
      ensures Valid() && !loading && Reset() && answers == []
      ensures outcome.Success? ==> questions == outcome.data && error == Nothing
      ensures outcome.Failure? ==> questions == old(questions) && error == Just(FetchErrorMessage)
      ensures CurrentScreen() == match outcome
        case Success(qs) => if qs == [] then EmptyScreen else QuestionScreen
        case Failure => ErrorScreen(FetchErrorMessage)
    {
      match outcome {
        case Success(qs) =>
          questions := qs;
        case Failure =>
          error := Just(FetchErrorMessage);
      }
      loading := false;
    }

    /** A whole fetch, as run on mount, on a topic change, by "Try Again" and
        by "Practice Again": whatever came before, the session restarts at the
        first question with no score. */
    method FetchQuiz(outcome: FetchOutcome)
      modifies this
      ensures Valid() && !loading && Reset() && answers == []
      ensures outcome.Success? ==> questions == outcome.data && error == Nothing
      ensures outcome.Failure? ==> questions == old(questions) && error == Just(FetchErrorMessage)
    {
      StartFetch();
      CompleteFetch(outcome);
    }

    /** A click on an option button: it takes effect only before the check. */
    method SelectOption(optionId: string)
      requires Valid() && CurrentScreen() == QuestionScreen
      modifies this
      ensures Valid() && CurrentScreen() == QuestionScreen
      ensures selectedOption == if old(isAnswerChecked) then old(selectedOption) else Just(optionId)
      ensures questions == old(questions) && loading == old(loading) && error == old(error)
      ensures currentIndex == old(currentIndex) && score == old(score) && answers == old(answers)
      ensures isAnswerChecked == old(isAnswerChecked) && showResults == old(showResults)
    {
      if !isAnswerChecked {
        selectedOption := Just(optionId);
      }
    }

    /** "Check Answer": ignored without a selection; otherwise the answer is
        recorded and scored once, and the verdict shown matches the score. */
    method CheckAnswer()
      requires Valid() && CurrentScreen() == QuestionScreen && !isAnswerChecked
      modifies this
      ensures Valid() && CurrentScreen() == QuestionScreen
      ensures !old(CheckEnabled()) ==> unchanged(this)
      ensures old(CheckEnabled()) <==> isAnswerChecked
      ensures HasSelection(old(selectedOption)) ==>
        && isAnswerChecked
        && answers == old(answers) + [old(selectedOption).value]
        && score == old(score) + (if old(selectedOption).value == questions[currentIndex].correctOptionId then 1 else 0)
        && (score == old(score) + 1 <==> VerdictLabel(selectedOption, questions[currentIndex]) == "Correct!")
      ensures questions == old(questions) && loading == old(loading) && error == old(error)
      ensures currentIndex == old(currentIndex) && selectedOption == old(selectedOption)
      ensures showResults == old(showResults) && score >= old(score)
    {
      if !HasSelection(selectedOption) {
        return;
      }
      isAnswerChecked := true;
      var chosen := selectedOption.value;
      answers := answers + [chosen];
      assert answers[..|answers| - 1] == old(answers);
      if chosen == questions[currentIndex].correctOptionId {
        score := score + 1;
      }
    }

    /** "Next Question" / "Finish Quiz": move to the next question with a
        clean slate, or, from the last one, show the results. */
    method NextQuestion()
      requires Valid() && CurrentScreen() == QuestionScreen && isAnswerChecked
      modifies this
      ensures Valid()
      ensures showResults <==> NextLabel(old(currentIndex), |questions|) == "Finish Quiz"
      ensures old(currentIndex) + 1 < |questions| ==>
        currentIndex == old(currentIndex) + 1 && selectedOption == Nothing && !isAnswerChecked
        && CurrentScreen() == QuestionScreen
      ensures old(currentIndex) + 1 == |questions| ==>
        currentIndex == old(currentIndex) && selectedOption == old(selectedOption) && isAnswerChecked
        && CurrentScreen() == ResultsScreen
      ensures questions == old(questions) && loading == old(loading) && error == old(error)
      ensures score == old(score) && answers == old(answers) && currentIndex >= old(currentIndex)
    {
      if currentIndex < |questions| - 1 {
        currentIndex := currentIndex + 1;
        selectedOption := Nothing;
        isAnswerChecked := false;
      } else {
        showResults := true;
      }
    }
  }

  /** While a question is on screen its index is in range, and the score is
      at most the number of questions checked, which is at most the number
      of questions. */
  lemma QuestionScreenBounds(s: Session)
    requires s.Valid() && s.CurrentScreen() == QuestionScreen
    ensures s.currentIndex < |s.questions|
    ensures s.score <= s.currentIndex + (if s.isAnswerChecked then 1 else 0) <= |s.questions|
  {
  }

  /** On the results panel the score lies between 0 and the number of
      questions, and every question has been checked exactly once. */
  lemma ResultsBounds(s: Session)
    requires s.Valid() && s.CurrentScreen() == ResultsScreen
    ensures |s.answers| == |s.questions| > 0
    ensures s.score <= |s.questions|
    ensures s.score == |s.questions| <==>
      forall i :: 0 <= i < |s.answers| ==> s.answers[i] == s.questions[i].correctOptionId
  {
    FullMarksIffAllCorrect(s.questions, s.answers);
  }
}
