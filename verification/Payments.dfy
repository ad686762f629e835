/** Points as numbers between bounds: decay, final deadline, retake and bonus without the scorer's functions. */
module Payments {
  import opened Wrappers
  import opened Models
  import opened GoMath
  import opened ScoringPolicies
  import opened TaskScore

  /** n is x without its fraction. */
  ghost predicate IsTruncated(n: int, x: real) {
    if 0.0 <= x then n as real <= x < n as real + 1.0 else n as real - 1.0 < x <= n as real
  }

  /** n is the integer next to x, and of two the one farther from zero. */
  ghost predicate IsRounded(n: int, x: real) {
    if 0.0 <= x then n as real - 0.5 <= x < n as real + 0.5 else n as real - 0.5 < x <= n as real + 0.5
  }

  /** The share of a score that the policy leaves at a time past the deadline. */
  function Kept(policy: ScoringPolicy, late: nat): real {
    match policy
    case Linear(after, m) =>
      if late < after then 1.0 - late as real / after as real + m * (late as real / after as real) else m
    case Exponential(multiplier, threshold, decay) =>
      if multiplier == 0 then (if threshold < 0.0 then 0.0 else threshold)
      else if decay(late as real / multiplier as real) < threshold then threshold
      else decay(late as real / multiplier as real)
  }

  /** The whole score before the deadline, the policy's share from it on, nothing past the final deadline. */
  ghost predicate IsTimely(policy: ScoringPolicy, finalDeadline: Option<Time>, score: int, deadline: Time, at: Time, points: int) {
    if finalDeadline != None && finalDeadline.value < at then points == 0
    else if at < deadline then points == score
    else IsTruncated(points, Kept(policy, at - deadline) * score as real)
  }

  ghost predicate IsFloor(score: int, penalty: real, floor: int) {
    IsTruncated(floor, score as real * penalty)
  }

  /** With a retake at least the penalty's share of the score. */
  ghost predicate IsBase(timely: int, score: int, penalty: real, hasRetake: bool, points: int) {
    if hasRetake then exists floor :: IsFloor(score, penalty, floor) && points == if timely < floor then floor else timely
    else points == timely
  }

  /** Everything for the first of n, nothing for the last, in equal steps between. */
  function Part(p: int, n: int): real
    requires n >= 1
  {
    if n == 1 then 1.0 else (n - p) as real / (n - 1) as real
  }

  function Raised(base: int, bonus: real, part: real): real {
    base as real * (1.0 + bonus * part)
  }

  /** The bonus by the place, if the submission was made in time. */
  ghost predicate IsTotal(base: int, bonus: Option<real>, place: Option<Place>, onTime: bool, points: int)
    requires ValidPlace(place)
  {
    if bonus == None || place == None || !onTime then points == base
    else IsRounded(points, Raised(base, bonus.value, Part(place.value.rank, place.value.total)))
  }

  lemma TruncateIs(x: real)
    ensures IsTruncated(Truncate(x), x) && IsRounded(Round(x), x)
  {
  }

  lemma KeptIs(policy: ScoringPolicy, late: nat)
    ensures policy.Factor(late) == Kept(policy, late)
  {
  }

  lemma TimelyIs(rules: Rules, score: int, deadline: Time, at: Time)
    requires rules.policy.Some?
    ensures IsTimely(rules.policy.value, rules.finalDeadline, score, deadline, at, TimelyScore(rules, score, deadline, at))
  {
    if deadline <= at {
      KeptIs(rules.policy.value, at - deadline);
      TruncateIs(Product(Kept(rules.policy.value, at - deadline), score));
    }
  }

  lemma BaseIs(rules: Rules, score: int, deadline: Time, at: Time)
    requires rules.policy.Some?
    ensures IsBase(
              TimelyScore(rules, score, deadline, at), score, rules.retakePenalty, rules.hasRetake,
              ScorePipeline(rules, score, deadline, Success, at))
  {
    TruncateIs(score as real * rules.retakePenalty);
    assert IsFloor(score, rules.retakePenalty, RetakeScore(score, rules.retakePenalty));
  }

  lemma RaisedIs(base: int, bonus: real, place: Place)
    requires 1 <= place.rank <= place.total
    ensures LeaderboardScore(base, bonus, place) == Round(Raised(base, bonus, Part(place.rank, place.total)))
  {
    var part := Part(place.rank, place.total);
    assert part == Fraction(place);
    assert Factor(bonus, place) == 1.0 + bonus * part;
    assert Scale(base, Factor(bonus, place)) == Round(base as real * Factor(bonus, place));
  }

  lemma TotalIs(base: int, bonus: Option<real>, place: Option<Place>, deadline: Time, at: Time)
    requires ValidPlace(place)
    ensures IsTotal(base, bonus, place, at <= deadline, AddBonus(base, true, at, deadline, bonus, place))
  {
    if bonus.Some? && place.Some? {
      RaisedIs(base, bonus.value, place.value);
      TruncateIs(Raised(base, bonus.value, Part(place.value.rank, place.value.total)));
    }
  }
}
