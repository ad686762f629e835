/** Decay of a task's score with the submission time: internal/deadlines/scoring.go. */
module ScoringPolicies {
  import opened Models
  import opened GoMath

  /**
   * decay(x) stands for 1/e^x. Durations are in seconds. A zero multiplier makes the
   * source divide by zero; past the deadline its quotient is infinite and the decay 0.
   */
  datatype ScoringPolicy =
    | Exponential(multiplier: int, threshold: real, decay: real -> real)
    | Linear(after: int, multiplierAfter: real)
  {
    function Factor(late: nat): real {
      match this
      case Exponential(multiplier, threshold, decay) =>
        var decayed := if multiplier == 0 then 0.0 else decay(late as real / multiplier as real);
        if threshold <= decayed then decayed else threshold
      case Linear(after, multiplierAfter) =>
        if late < after then
          var delta := late as real / after as real;
          (1.0 - delta) + multiplierAfter * delta
        else multiplierAfter
    }

    function Score(maxScore: int, deadline: Time, submitted: Time): int {
      if submitted < deadline then maxScore
      else Scaled(Factor(submitted - deadline), maxScore)
    }

    /** The configurations for which a later submission can only lose points. */
    ghost predicate Decays() {
      match this
      case Exponential(multiplier, threshold, decay) =>
        && 0 < multiplier && 0.0 <= threshold <= 1.0
        && decay(0.0) == 1.0
        && (forall x :: 0.0 < decay(x))
        && (forall x, y :: x <= y ==> decay(y) <= decay(x))
      case Linear(_, multiplierAfter) =>
        0.0 <= multiplierAfter <= 1.0
    }
  }

  function Scaled(factor: real, maxScore: int): int {
    Truncate(Product(factor, maxScore))
  }

  function Product(factor: real, maxScore: int): real {
    factor * maxScore as real
  }

  lemma DivMonotone(a: real, b: real, k: real)
    requires a <= b && 0.0 < k
    ensures a / k <= b / k
  {
  }

  lemma LinearFactor(after: int, m: real, late: nat)
    requires 0.0 <= m <= 1.0 && late < after
    ensures var f := Linear(after, m).Factor(late);
            m <= f <= 1.0 && f == 1.0 - (1.0 - m) * (late as real / after as real)
  {
    var delta := late as real / after as real;
    DivMonotone(late as real, after as real, after as real);
    assert 0.0 <= delta <= 1.0;
    assert (1.0 - delta) + m * delta == 1.0 - (1.0 - m) * delta;
    MulMonotone(delta, 1.0, 1.0 - m);
    MulMonotone(0.0, delta, 1.0 - m);
  }

  lemma LinearDecays(after: int, m: real, early: nat, late: nat)
    requires 0.0 <= m <= 1.0 && early <= late < after
    ensures Linear(after, m).Factor(late) <= Linear(after, m).Factor(early)
  {
    LinearFactor(after, m, early);
    LinearFactor(after, m, late);
    DivMonotone(early as real, late as real, after as real);
    var a, b := early as real / after as real, late as real / after as real;
    MulMonotone(a, b, 1.0 - m);
    assert (1.0 - m) * a == a * (1.0 - m) && (1.0 - m) * b == b * (1.0 - m);
  }

  lemma FactorDecays(policy: ScoringPolicy, early: nat, late: nat)
    requires policy.Decays() && early <= late
    ensures 0.0 <= policy.Factor(late) <= policy.Factor(early) <= 1.0
  {
    match policy
    case Exponential(multiplier, threshold, decay) =>
      DivMonotone(early as real, late as real, multiplier as real);
      DivMonotone(0.0, early as real, multiplier as real);
      assert decay(late as real / multiplier as real) <= decay(early as real / multiplier as real) <= decay(0.0);
    case Linear(after, m) =>
      if late < after {
        LinearFactor(after, m, early);
        LinearFactor(after, m, late);
        LinearDecays(after, m, early, late);
      } else if early < after {
        LinearFactor(after, m, early);
      }
  }

  lemma ProductRises(f: real, g: real, maxScore: nat)
    requires f <= g
    ensures Product(f, maxScore) <= Product(g, maxScore)
  {
    MulMonotone(f, g, maxScore as real);
  }

  lemma ProductEnds(maxScore: nat)
    ensures Product(0.0, maxScore) == 0.0 && Product(1.0, maxScore) == maxScore as real
  {
  }

  lemma ScaledDown(f: real, g: real, maxScore: nat)
    requires 0.0 <= f <= g <= 1.0
    ensures 0 <= Scaled(f, maxScore) <= Scaled(g, maxScore) <= maxScore
  {
    ProductEnds(maxScore);
    ProductRises(0.0, f, maxScore);
    ProductRises(f, g, maxScore);
    ProductRises(g, 1.0, maxScore);
    TruncateWithin(Product(f, maxScore), Product(g, maxScore), maxScore);
  }

  lemma LateScore(policy: ScoringPolicy, maxScore: nat, deadline: Time, early: Time, late: Time)
    requires policy.Decays() && deadline <= early <= late
    ensures 0 <= policy.Score(maxScore, deadline, late) <= policy.Score(maxScore, deadline, early) <= maxScore
  {
    FactorDecays(policy, early - deadline, late - deadline);
    ScaledDown(policy.Factor(late - deadline), policy.Factor(early - deadline), maxScore);
  }

  /** A policy never goes below 0 or above the task's score, and only falls with time. */
  lemma ScoreDecays(policy: ScoringPolicy, maxScore: nat, deadline: Time, early: Time, late: Time)
    requires policy.Decays() && early <= late
    ensures 0 <= policy.Score(maxScore, deadline, late) <= policy.Score(maxScore, deadline, early) <= maxScore
  {
    if deadline <= late {
      LateScore(policy, maxScore, deadline, if deadline <= early then early else deadline, late);
    }
  }
}
