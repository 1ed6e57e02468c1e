/**
 * Precision and recall of one evaluation run.  The run's division by a zero
 * counter is an explicit error instead of an exception, and Python's
 * `round(_, 3)` is the caller-supplied function `round`.
 */
module Scoring {
  import opened Wrappers
  import opened Tally

  datatype Scores = Scores(precision: real, recall: real)

  /** The exact quotient of two counters. */
  function Ratio(n: nat, d: nat): (q: real)
    requires d > 0
    ensures q * d as real == n as real
    ensures 0.0 <= q
    ensures q <= 1.0 <==> n <= d
  {
    var q := n as real / d as real;
    assert q * d as real == n as real;
    assert q > 1.0 ==> q * d as real > 1.0 * d as real;
    q
  }

  /**
   * `cur_precision` and `cur_recall`.  Precision is divided first, so a run
   * with nothing found reports that even when nothing is relevant either.
   */
  function ScoresOf(c: Counts, round: real -> real): (r: Result<Scores, EvalError>)
    ensures r.Success? <==> c.found > 0 && c.relevant > 0
    ensures c.found == 0 ==> r == Failure(NothingFound)
    ensures c.found > 0 && c.relevant == 0 ==> r == Failure(NothingRelevant)
    ensures r.Success? ==>
      && r.value.precision == round(Ratio(c.correct, c.found))
      && r.value.recall == round(Ratio(c.correct, c.relevant))
  {
    if c.found == 0 then Failure(NothingFound)
    else if c.relevant == 0 then Failure(NothingRelevant)
    else Success(Scores(round(Ratio(c.correct, c.found)), round(Ratio(c.correct, c.relevant))))
  }

  /**
   * A degenerate run: scoring the visited pairs fails for lack of found
   * mentions exactly when the worker linked none of them, and for lack of
   * relevant mentions exactly when it linked some but every gold id is the
   * no-entity sentinel.
   */
  lemma DegenerateIff(ps: seq<Pair>, round: real -> real)
    ensures ScoresOf(CountsOf(ps), round) == Failure(NothingFound) <==>
      forall i :: 0 <= i < |ps| ==> !Found(ps[i])
    ensures ScoresOf(CountsOf(ps), round) == Failure(NothingRelevant) <==>
      && (exists i :: 0 <= i < |ps| && Found(ps[i]))
      && (forall i :: 0 <= i < |ps| ==> ps[i].gold == NoEntity)
  {
    NothingFoundIff(ps);
    NothingRelevantIff(ps);
  }

  /** Before rounding, the precision of a successful tally lies between 0 and 1. */
  lemma TallyPrecisionInUnitInterval(samples: seq<Sample>, responses: seq<seq<seq<string>>>)
    requires |responses| == |samples|
    requires TallyOf(samples, responses).Success? && TallyOf(samples, responses).value.found > 0
    ensures var c := TallyOf(samples, responses).value;
      0.0 <= Ratio(c.correct, c.found) <= 1.0
  {
    TallyBounds(samples, responses);
  }

  /** Three mentions, one correct, two found, two relevant: precision and recall are both one half. */
  lemma ThreeMentionScores(round: real -> real)
    ensures ScoresOf(Counts(1, 2, 2), round) == Success(Scores(round(0.5), round(0.5)))
  {
  }
}
