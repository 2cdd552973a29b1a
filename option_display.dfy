/** How each option button of the current question is drawn: the style
    chosen inside the options loop of the question panel. */
module OptionDisplay {
  import opened QuizTypes

  /** The five looks an option button can take. */
  datatype Display =
    | MarkedCorrect   // green, with a check mark
    | MarkedWrong     // red, with a cross
    | Dimmed          // faded out
    | Highlighted     // outlined in the topic colour
    | Plain           // the default look

  /** The look of option `o` of a question whose correct option is
      `correctId`, given the current selection and whether it was checked. */
  function DisplayOf(o: Option, correctId: string, selected: Maybe<string>, checked: bool): (d: Display)
    ensures checked ==> (d == MarkedCorrect <==> o.id == correctId)
    ensures checked ==> (d == MarkedWrong <==> selected == Just(o.id) && o.id != correctId)
    ensures checked ==> (d == Dimmed <==> selected != Just(o.id) && o.id != correctId)
    ensures !checked ==> (d == Highlighted <==> selected == Just(o.id))
    ensures !checked ==> (d == Highlighted || d == Plain)
  {
    var isSelected := selected == Just(o.id);
    var isCorrect := o.id == correctId;
    var isWrongSelection := isSelected && !isCorrect;
    if checked then
      if isCorrect then MarkedCorrect
      else if isWrongSelection then MarkedWrong
      else Dimmed
    else if isSelected then Highlighted
    else Plain
  }

  /** The looks of all options, in the order they are listed. */
  function Displays(opts: seq<Option>, correctId: string, selected: Maybe<string>, checked: bool): (ds: seq<Display>)
    ensures |ds| == |opts|
    ensures forall i :: 0 <= i < |opts| ==> ds[i] == DisplayOf(opts[i], correctId, selected, checked)
  {
    if opts == [] then []
    else [DisplayOf(opts[0], correctId, selected, checked)] + Displays(opts[1..], correctId, selected, checked)
  }

  /** How many buttons in `ds` take the look `d`. */
  function CountOf(ds: seq<Display>, d: Display): (n: nat)
    ensures n <= |ds|
  {
    if ds == [] then 0 else (if ds[0] == d then 1 else 0) + CountOf(ds[1..], d)
  }

  /** The buttons of the question panel for question `q`. */
  function QuestionDisplays(q: Question, selected: Maybe<string>, checked: bool): seq<Display> {
    Displays(q.options, q.correctOptionId, selected, checked)
  }

  /** After a check, the buttons marked correct are exactly the options whose
      id is the correct one. */
  lemma {:induction false} CorrectMarksCount(opts: seq<Option>, correctId: string, selected: Maybe<string>)
    ensures CountOf(Displays(opts, correctId, selected, true), MarkedCorrect) == CountIds(opts, correctId)
  {
    if opts != [] {
      var ds := Displays(opts, correctId, selected, true);
      assert ds[1..] == Displays(opts[1..], correctId, selected, true);
      CorrectMarksCount(opts[1..], correctId, selected);
    }
  }

  /** After a check, the buttons marked wrong are the options carrying the
      selected id, and only when that id is not the correct one. */
  lemma {:induction false} WrongMarksCount(opts: seq<Option>, correctId: string, selected: Maybe<string>)
    ensures CountOf(Displays(opts, correctId, selected, true), MarkedWrong)
         == if selected.Just? && selected.value != correctId then CountIds(opts, selected.value) else 0
  {
    if opts != [] {
      var ds := Displays(opts, correctId, selected, true);
      assert ds[1..] == Displays(opts[1..], correctId, selected, true);
      WrongMarksCount(opts[1..], correctId, selected);
    }
  }

  /** Before a check, the highlighted buttons are the options carrying the
      selected id, and none without a selection. */
  lemma {:induction false} HighlightCount(opts: seq<Option>, correctId: string, selected: Maybe<string>)
    ensures CountOf(Displays(opts, correctId, selected, false), Highlighted)
         == if selected.Just? then CountIds(opts, selected.value) else 0
  {
    if opts != [] {
      var ds := Displays(opts, correctId, selected, false);
      assert ds[1..] == Displays(opts[1..], correctId, selected, false);
      HighlightCount(opts[1..], correctId, selected);
    }
  }

  /** With unique option ids and a correct id that names one of them, a
      checked question shows exactly one correct button. */
  lemma ExactlyOneCorrect(q: Question, selected: Maybe<string>)
    requires UniqueIds(q.options) && HasId(q.options, q.correctOptionId)
    ensures CountOf(QuestionDisplays(q, selected, true), MarkedCorrect) == 1
  {
    CorrectMarksCount(q.options, q.correctOptionId, selected);
    UniqueIdsCountAtMostOne(q.options, q.correctOptionId);
  }

  /** With unique option ids, a checked question shows at most one wrong
      button, and one exactly when an option other than the correct one was
      selected. */
  lemma AtMostOneWrong(q: Question, selected: Maybe<string>)
    requires UniqueIds(q.options)
    ensures CountOf(QuestionDisplays(q, selected, true), MarkedWrong)
         == if selected.Just? && selected.value != q.correctOptionId && HasId(q.options, selected.value) then 1 else 0
  {
    WrongMarksCount(q.options, q.correctOptionId, selected);
    if selected.Just? {
      UniqueIdsCountAtMostOne(q.options, selected.value);
    }
  }

  /** With unique option ids, an unchecked question highlights at most one
      button: the selected option, if it is one of the question's. */
  lemma AtMostOneHighlighted(q: Question, selected: Maybe<string>)
    requires UniqueIds(q.options)
    ensures CountOf(QuestionDisplays(q, selected, false), Highlighted)
         == if selected.Just? && HasId(q.options, selected.value) then 1 else 0
  {
    HighlightCount(q.options, q.correctOptionId, selected);
    if selected.Just? {
      UniqueIdsCountAtMostOne(q.options, selected.value);
    }
  }
}
