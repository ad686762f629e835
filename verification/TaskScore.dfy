/**
 * Points of one successful submission: policy decay, final deadline, retake floor
 * (internal/scorer/scorer.go, scorePipeline) and the leaderboard bonus
 * (internal/scorer/leaderboard.go, leaderboardScore).
 */
module TaskScore {
  import opened Wrappers
  import opened Models
  import opened GoMath
  import opened ScoringPolicies

  /** What the deadlines file and the student's record say about a task, beside its group. */
  datatype Rules = Rules(
    policy: Option<ScoringPolicy>,
    finalDeadline: Option<Time>,
    retakePenalty: real,
    hasRetake: bool)
  {
    /** The configurations the scoring theorems are about; the source accepts any. */
    ghost predicate Fair() {
      policy.Some? && policy.value.Decays()
    }
  }

  function ScorePipeline(rules: Rules, taskScore: int, deadline: Time, status: PipelineStatus, startedAt: Time): int {
    if status != Success then 0
    else if rules.policy.None? then -1
    else
      var score := TimelyScore(rules, taskScore, deadline, startedAt);
      var minScore := RetakeScore(taskScore, rules.retakePenalty);
      if rules.hasRetake && score < minScore then minScore else score
  }

  function TimelyScore(rules: Rules, taskScore: int, deadline: Time, startedAt: Time): int
    requires rules.policy.Some?
  {
    if rules.finalDeadline.Some? && rules.finalDeadline.value < startedAt then 0
    else rules.policy.value.Score(taskScore, deadline, startedAt)
  }

  function RetakeScore(taskScore: int, penalty: real): int {
    Truncate(taskScore as real * penalty)
  }

  /** A place on a leaderboard: rank 1 is the best of total entries. */
  datatype Place = Place(rank: int, total: int)

  function LeaderboardScore(base: int, bonus: real, place: Place): int {
    if place.rank <= 0 || place.total <= 0 then base
    else Scale(base, Factor(bonus, place))
  }

  function Scale(base: int, factor: real): int {
    Round(base as real * factor)
  }

  function Factor(bonus: real, place: Place): real {
    1.0 + bonus * Fraction(place)
  }

  function Fraction(place: Place): real {
    if place.total > 1 then (place.total - place.rank) as real / (place.total - 1) as real else 1.0
  }

  /** The bonus step: only a successful task submitted by the group's deadline is scaled. */
  function AddBonus(points: int, success: bool, submittedAt: Time, deadline: Time, bonus: Option<real>, place: Option<Place>): int {
    if bonus.Some? && place.Some? && success && submittedAt <= deadline
    then LeaderboardScore(points, bonus.value, place.value)
    else points
  }

  ghost predicate ValidPlace(place: Option<Place>) {
    place.Some? ==> 1 <= place.value.rank <= place.value.total
  }

  /** A student moved from the place `after` to the place `before` has not lost ground. */
  ghost predicate NoBetter(after: Option<Place>, before: Option<Place>) {
    after.Some? ==> before.Some? && before.value.rank <= after.value.rank && before.value.total == after.value.total
  }

  ghost predicate ValidBonus(bonus: Option<real>) {
    bonus.Some? ==> 0.0 <= bonus.value
  }

  lemma FractionRange(place: Place)
    requires 1 <= place.rank <= place.total
    ensures 0.0 <= Fraction(place) <= 1.0
    ensures place.rank == 1 ==> Fraction(place) == 1.0
    ensures place.rank == place.total > 1 ==> Fraction(place) == 0.0
  {
    if place.total > 1 {
      DivMonotone(0.0, (place.total - place.rank) as real, (place.total - 1) as real);
      DivMonotone((place.total - place.rank) as real, (place.total - 1) as real, (place.total - 1) as real);
    }
  }

  lemma FractionAntitone(better: Place, worse: Place)
    requires 1 <= better.rank <= worse.rank <= worse.total == better.total
    ensures Fraction(worse) <= Fraction(better)
  {
    if worse.total > 1 {
      DivMonotone((worse.total - worse.rank) as real, (worse.total - better.rank) as real, (worse.total - 1) as real);
    }
  }

  lemma ScaleUp(a: nat, f: real)
    requires 1.0 <= f
    ensures a <= Scale(a, f)
  {
    var x := a as real;
    MulMonotone(1.0, f, x);
    var p := x * f;
    assert x <= p;
    RoundWhole(a);
    RoundMonotone(x, p);
  }

  lemma ScaleMonotone(a: nat, b: nat, f: real, g: real)
    requires a <= b && 0.0 <= f <= g
    ensures Scale(a, f) <= Scale(b, g)
  {
    ProductMonotone(a as real, b as real, f, g);
    RoundMonotone(a as real * f, b as real * g);
  }

  lemma BonusShares(bonus: real, p: real, q: real)
    requires 0.0 <= bonus && 0.0 <= p <= q <= 1.0
    ensures 0.0 <= bonus * p <= bonus * q <= bonus
  {
    MulMonotone(0.0, p, bonus);
    MulMonotone(p, q, bonus);
    MulMonotone(q, 1.0, bonus);
  }

  lemma FactorRange(bonus: real, worse: Place, better: Place)
    requires 0.0 <= bonus && 1 <= better.rank <= worse.rank <= worse.total == better.total
    ensures 1.0 <= Factor(bonus, worse) <= Factor(bonus, better) <= 1.0 + bonus
  {
    FractionRange(worse);
    FractionRange(better);
    FractionAntitone(better, worse);
    BonusShares(bonus, Fraction(worse), Fraction(better));
  }

  /** A higher base and a better place never pay less, and the bonus never takes points away. */
  lemma BonusMonotone(low: nat, high: nat, bonus: real, worse: Place, better: Place)
    requires low <= high && 0.0 <= bonus
    requires 1 <= better.rank <= worse.rank <= worse.total == better.total
    ensures low <= LeaderboardScore(low, bonus, worse) <= LeaderboardScore(high, bonus, better)
  {
    FactorRange(bonus, worse, better);
    var f, g := Factor(bonus, worse), Factor(bonus, better);
    ScaleUp(low, f);
    ScaleMonotone(low, high, f, g);
    assert LeaderboardScore(low, bonus, worse) == Scale(low, f);
    assert LeaderboardScore(high, bonus, better) == Scale(high, g);
  }

  /** The first of several places gets the whole bonus and the last exactly the base. */
  lemma BonusAtTheEnds(base: int, bonus: real, total: int)
    requires 1 < total
    ensures LeaderboardScore(base, bonus, Place(1, total)) == Scale(base, 1.0 + bonus)
    ensures LeaderboardScore(base, bonus, Place(total, total)) == base
  {
    FractionRange(Place(1, total));
    FractionRange(Place(total, total));
    assert bonus * 1.0 == bonus && bonus * 0.0 == 0.0 && base as real * 1.0 == base as real;
    RoundWhole(base);
  }

  /** The share of the bonus falls by the same step from each place to the next. */
  lemma BonusSteps(rank: int, total: int)
    requires 1 <= rank < total
    ensures Fraction(Place(rank, total)) - Fraction(Place(rank + 1, total)) == 1.0 / (total - 1) as real
  {
    var n := (total - 1) as real;
    assert (total - rank) as real == (total - (rank + 1)) as real + 1.0;
    assert (total - rank) as real / n - (total - (rank + 1)) as real / n == 1.0 / n;
  }

  /** The place of a student once another one has left the field. */
  function Without(own: Place, theirs: Place): Place {
    Place(if theirs.rank < own.rank then own.rank - 1 else own.rank, own.total - 1)
  }

  ghost predicate OnOneBoard(own: Place, theirs: Place) {
    1 <= own.rank <= own.total && 1 <= theirs.rank <= theirs.total == own.total && own.rank != theirs.rank
  }

  lemma QuotientLess(a: int, n: int, b: int, m: int)
    requires 0 < n && 0 < m
    ensures a as real / n as real < b as real / m as real <==> a * m < b * n
  {
    var x, y := a as real / n as real, b as real / m as real;
    assert x * n as real == a as real && y * m as real == b as real;
    assert (x - y) * (n * m) as real == (a * m - b * n) as real by {
      assert (x - y) * (n as real * m as real) == (x * n as real) * m as real - (y * m as real) * n as real;
    }
    if x < y {
      MulSign(x - y, (n * m) as real);
    } else {
      MulMonotone(0.0, x - y, (n * m) as real);
    }
  }

  lemma MulSign(d: real, k: real)
    requires d < 0.0 < k
    ensures d * k < 0.0
  {
  }

  /**
   * A rival who leaves the field costs a share of the bonus exactly if the rival was behind
   * and the student not first: the same rank is worth less in a smaller field.
   */
  lemma FractionWithout(own: Place, theirs: Place)
    requires OnOneBoard(own, theirs)
    ensures Fraction(Without(own, theirs)) < Fraction(own) <==> 1 < own.rank < theirs.rank
  {
    var after := Without(own, theirs);
    if own.total == 2 {
      FractionRange(own);
    } else {
      QuotientLess(after.total - after.rank, after.total - 1, own.total - own.rank, own.total - 1);
      if own.rank < theirs.rank {
        LessByRank(own.total, own.rank);
      } else {
        MoreByRank(own.total, own.rank);
      }
    }
  }

  lemma LessByRank(total: int, rank: int)
    ensures (total - rank - 1) * (total - 1) == (total - rank) * (total - 2) + 1 - rank
  {
  }

  lemma MoreByRank(total: int, rank: int)
    requires rank <= total
    ensures (total - rank) * (total - 1) >= (total - rank) * (total - 2)
  {
  }

  lemma FactorWithout(bonus: real, own: Place, theirs: Place)
    requires OnOneBoard(own, theirs) && 0.0 <= bonus
    ensures Factor(bonus, Without(own, theirs)) < Factor(bonus, own) <==> 0.0 < bonus && 1 < own.rank < theirs.rank
  {
    FractionWithout(own, theirs);
    var d := Fraction(Without(own, theirs)) - Fraction(own);
    assert Factor(bonus, Without(own, theirs)) - Factor(bonus, own) == bonus * d;
    if d < 0.0 < bonus {
      MulSign(d, bonus);
    } else if 0.0 <= d {
      MulMonotone(0.0, d, bonus);
    }
  }

  /** So points are lost under no other condition; under it they never rise, and rounding may hide the loss. */
  lemma ScoreWithout(base: nat, bonus: real, own: Place, theirs: Place)
    requires OnOneBoard(own, theirs) && 0.0 <= bonus
    ensures var was, now := LeaderboardScore(base, bonus, own), LeaderboardScore(base, bonus, Without(own, theirs));
            if 0.0 < bonus && 1 < own.rank < theirs.rank then now <= was else was <= now
  {
    var after := Without(own, theirs);
    FactorWithout(bonus, own, theirs);
    FactorRange(bonus, own, own);
    FactorRange(bonus, after, after);
    if 0.0 < bonus && 1 < own.rank < theirs.rank {
      ScaleMonotone(base, base, Factor(bonus, after), Factor(bonus, own));
    } else {
      ScaleMonotone(base, base, Factor(bonus, own), Factor(bonus, after));
    }
  }

  /** No bonus without a place. */
  lemma OffTheBoard(base: int, bonus: real, place: Place)
    requires place.rank < 1 || place.total < 1
    ensures LeaderboardScore(base, bonus, place) == base
  {
  }

  /** No place pays more than the first one. */
  lemma BonusAtMostFirst(base: nat, bonus: real, place: Place)
    requires 1 <= place.rank <= place.total && 0.0 <= bonus
    ensures LeaderboardScore(base, bonus, place) <= Scale(base, 1.0 + bonus)
  {
    FactorRange(bonus, place, place);
    ScaleMonotone(base, base, Factor(bonus, place), 1.0 + bonus);
  }

  lemma RetakeScoreBounded(taskScore: nat, penalty: real)
    requires penalty <= 1.0
    ensures RetakeScore(taskScore, penalty) <= taskScore
  {
    MulMonotone(penalty, 1.0, taskScore as real);
    var p := taskScore as real * penalty;
    assert p <= taskScore as real;
    TruncateMonotone(p, taskScore as real);
    TruncateWhole(taskScore);
  }

  lemma TimelyScoreDecays(rules: Rules, taskScore: nat, deadline: Time, early: Time, late: Time)
    requires rules.Fair() && early <= late
    ensures 0 <= TimelyScore(rules, taskScore, deadline, late) <= TimelyScore(rules, taskScore, deadline, early) <= taskScore
  {
    ScoreDecays(rules.policy.value, taskScore, deadline, early, late);
  }

  lemma SuccessDecays(rules: Rules, taskScore: nat, deadline: Time, early: Time, late: Time)
    requires rules.Fair() && early <= late
    ensures 0 <= ScorePipeline(rules, taskScore, deadline, Success, late)
              <= ScorePipeline(rules, taskScore, deadline, Success, early)
    ensures (rules.hasRetake ==> rules.retakePenalty <= 1.0) ==>
              ScorePipeline(rules, taskScore, deadline, Success, early) <= taskScore
  {
    TimelyScoreDecays(rules, taskScore, deadline, early, late);
    if rules.retakePenalty <= 1.0 {
      RetakeScoreBounded(taskScore, rules.retakePenalty);
    }
  }

  /** All the points of a task solved by one submission made at the given time. */
  function FullScore(rules: Rules, task: Task, deadline: Time, place: Option<Place>, submittedAt: Time): int {
    AddBonus(ScorePipeline(rules, task.score, deadline, Success, submittedAt), true, submittedAt, deadline, task.leaderboard, place)
  }

  /**
   * Bonus step of two outcomes of one task: a success with more points, no later and no
   * worse placed ends with at least as much; an unsuccessful outcome has no points to lose.
   */
  lemma AddBonusMonotone(
    low: nat, lowSuccess: bool, lowAt: Time, lowPlace: Option<Place>,
    high: nat, highSuccess: bool, highAt: Time, highPlace: Option<Place>,
    deadline: Time, bonus: Option<real>)
    requires ValidBonus(bonus) && ValidPlace(lowPlace) && ValidPlace(highPlace)
    requires low <= high
    requires lowSuccess ==> highSuccess && highAt <= lowAt && NoBetter(lowPlace, highPlace)
    ensures 0 <= AddBonus(low, lowSuccess, lowAt, deadline, bonus, lowPlace)
              <= AddBonus(high, highSuccess, highAt, deadline, bonus, highPlace)
  {
    if bonus.Some? && highPlace.Some? && highSuccess && highAt <= deadline {
      var place := highPlace.value;
      BonusMonotone(high, high, bonus.value, place, place);
      if lowPlace.Some? && lowSuccess && lowAt <= deadline {
        BonusMonotone(low, high, bonus.value, lowPlace.value, place);
      }
    }
  }

  /** The whole score of a task never grows with the submission time. */
  lemma FullScoreDecays(rules: Rules, task: Task, deadline: Time, place: Option<Place>, early: Time, late: Time)
    requires rules.Fair() && 0 <= task.score && ValidBonus(task.leaderboard) && ValidPlace(place)
    requires early <= late
    ensures 0 <= FullScore(rules, task, deadline, place, late) <= FullScore(rules, task, deadline, place, early)
  {
    SuccessDecays(rules, task.score, deadline, early, late);
    AddBonusMonotone(
      ScorePipeline(rules, task.score, deadline, Success, late), true, late, place,
      ScorePipeline(rules, task.score, deadline, Success, early), true, early, place,
      deadline, task.leaderboard);
  }

  /** ... and never exceeds the task's score scaled by the whole bonus. */
  lemma FullScoreBounded(rules: Rules, task: Task, deadline: Time, place: Option<Place>, submittedAt: Time)
    requires rules.Fair() && 0 <= task.score && ValidBonus(task.leaderboard) && ValidPlace(place)
    requires rules.hasRetake ==> rules.retakePenalty <= 1.0
    ensures var bonus := if task.leaderboard.Some? then task.leaderboard.value else 0.0;
            0 <= FullScore(rules, task, deadline, place, submittedAt) <= Scale(task.score, 1.0 + bonus)
  {
    FullScoreDecays(rules, task, deadline, place, submittedAt, submittedAt);
    SuccessDecays(rules, task.score, deadline, submittedAt, submittedAt);
    var bonus := if task.leaderboard.Some? then task.leaderboard.value else 0.0;
    var points := ScorePipeline(rules, task.score, deadline, Success, submittedAt);
    ScaleUp(points, 1.0 + bonus);
    ScaleMonotone(points, task.score, 1.0 + bonus, 1.0 + bonus);
    if task.leaderboard.Some? && place.Some? {
      BonusAtMostFirst(points, bonus, place.value);
    }
  }

  /**
   * A success stays within the task's own score exactly when the retake floor does: a
   * retake penalty above 1 can lift the floor over the score.
   */
  lemma WithinTaskScore(rules: Rules, taskScore: nat, deadline: Time, startedAt: Time)
    requires rules.Fair()
    ensures ScorePipeline(rules, taskScore, deadline, Success, startedAt) <= taskScore
            <==> !rules.hasRetake || RetakeScore(taskScore, rules.retakePenalty) <= taskScore
  {
    TimelyScoreDecays(rules, taskScore, deadline, startedAt, startedAt);
  }

  /** A green submission costs points exactly when its group has no policy. */
  lemma NegativeWithoutPolicy(rules: Rules, taskScore: nat, deadline: Time, startedAt: Time)
    requires rules.policy.Some? ==> rules.policy.value.Decays()
    ensures ScorePipeline(rules, taskScore, deadline, Success, startedAt) < 0 <==> rules.policy.None?
  {
    if rules.policy.Some? {
      SuccessDecays(rules, taskScore, deadline, startedAt, startedAt);
    }
  }

  lemma RetakeAboveOne()
    ensures var rules := Rules(Some(Linear(1, 0.0)), None, 2.0, true);
            rules.Fair() && ScorePipeline(rules, 10, 0, Success, 5) == 20
  {
  }
}
