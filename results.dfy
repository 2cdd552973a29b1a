/** The results panel of a finished quiz: the accuracy percentage, the
    feedback band it falls in, and whether the award icon is lit. */
module QuizResults {

  /** The accuracy shown for `score` correct answers out of `total`
      questions, rounded to the nearest whole percent with halves rounded up. */
  function Percentage(score: nat, total: nat): (p: nat)
    requires total > 0
    ensures 2 * total * p <= 200 * score + total < 2 * total * (p + 1)
    ensures score <= total ==> p <= 100
  {
    var p := (200 * score + total) / (2 * total);
    DivisionBounds(200 * score + total, 2 * total);
    assert score <= total ==> p <= 100 by {
      if score <= total {
        CancelFactor(2 * total, p, 101);
      }
    }
    p
  }

  /** The quotient of Euclidean division brackets the dividend. */
  lemma DivisionBounds(x: nat, d: nat)
    requires d > 0
    ensures d * (x / d) <= x < d * (x / d + 1)
  {
  }

  /** A positive factor can be cancelled from a strict inequality. */
  lemma CancelFactor(k: int, a: int, b: int)
    requires k > 0 && k * a < k * b
    ensures a < b
  {
  }

  /** The percentage is the only value within half a percent of the exact
      ratio (halves going up), so the rounding above determines it. */
  lemma {:induction false} PercentageUnique(score: nat, total: nat, q: int)
    requires total > 0
    requires 2 * total * q <= 200 * score + total < 2 * total * (q + 1)
    ensures q == Percentage(score, total)
  {
    var p := Percentage(score, total);
    CancelFactor(2 * total, q, p + 1);
    CancelFactor(2 * total, p, q + 1);
  }

  /** Answering more questions correctly never lowers the percentage. */
  lemma {:induction false} PercentageMonotone(s1: nat, s2: nat, total: nat)
    requires total > 0 && s1 <= s2
    ensures Percentage(s1, total) <= Percentage(s2, total)
  {
    var p1, p2 := Percentage(s1, total), Percentage(s2, total);
    CancelFactor(2 * total, p1, p2 + 1);
  }

  /** No correct answers give 0%, all correct give 100%. */
  lemma {:induction false} PercentageExtremes(total: nat)
    requires total > 0
    ensures Percentage(0, total) == 0
    ensures Percentage(total, total) == 100
  {
    PercentageUnique(0, total, 0);
    PercentageUnique(total, total, 100);
  }

  /** The three feedback messages of the results panel. */
  datatype Band = Excellent | GreatJob | GoodEffort

  /** The feedback band of a percentage; both thresholds are inclusive. */
  function BandOf(percentage: int): (b: Band)
    ensures b == Excellent <==> percentage >= 90
    ensures b == GreatJob <==> 70 <= percentage < 90
    ensures b == GoodEffort <==> percentage < 70
  {
    if percentage >= 90 then Excellent
    else if percentage >= 70 then GreatJob
    else GoodEffort
  }

  /** The text shown for each band. */
  function Message(b: Band): string {
    match b
    case Excellent => "Excellent! You've mastered this topic."
    case GreatJob => "Great job! Keep practicing."
    case GoodEffort => "Good effort! Review the material and try again."
  }

  /** The bands in increasing order of merit. */
  function Rank(b: Band): nat {
    match b
    case GoodEffort => 0
    case GreatJob => 1
    case Excellent => 2
  }

  /** The feedback sentence shown on the results panel for a percentage. */
  function Feedback(percentage: int): (m: string)
    ensures m == "Excellent! You've mastered this topic." <==> percentage >= 90
    ensures m == "Great job! Keep practicing." <==> 70 <= percentage < 90
    ensures m == "Good effort! Review the material and try again." <==> percentage < 70
  {
    Message(BandOf(percentage))
  }

  /** The award icon (and the accuracy figure) is coloured exactly when the
      learner did better than the lowest band. */
  function AwardHighlighted(percentage: int): (lit: bool)
    ensures lit <==> BandOf(percentage) != GoodEffort
  {
    percentage >= 70
  }

  /** A better score never earns a lower band. */
  lemma {:induction false} BandMonotone(s1: nat, s2: nat, total: nat)
    requires total > 0 && s1 <= s2
    ensures Rank(BandOf(Percentage(s1, total))) <= Rank(BandOf(Percentage(s2, total)))
  {
    PercentageMonotone(s1, s2, total);
  }

  /** Seven right out of ten is 70%, which is already the middle band. */
  lemma SevenOfTen()
    ensures Percentage(7, 10) == 70 && BandOf(Percentage(7, 10)) == GreatJob
  {
    PercentageUnique(7, 10, 70);
  }
}
