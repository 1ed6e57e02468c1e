/**
 * The body of the `/test` endpoint once a worker has been picked: count, score,
 * record a promotion, and answer with the run's precision and recall.
 */
module Evaluation {
  import opened Wrappers
  import opened Tally
  import opened Scoring
  import opened Promotion

  /** The run's answer as a function of the samples, the worker's answers and the rounding. */
  function EvaluationOf(samples: seq<Sample>, responses: seq<seq<seq<string>>>, round: real -> real)
    : Result<Scores, EvalError>
    requires |responses| == |samples|
  {
    match TallyOf(samples, responses)
    case Failure(e) => Failure(e)
    case Success(c) => ScoresOf(c, round)
  }

  /**
   * Runs the evaluation against the metrics history.  A failed run leaves the
   * history alone; a successful one hands its rounded scores to the promotion
   * step and answers with them.
   */
  method Evaluate(store: MetricsStore, samples: seq<Sample>, responses: seq<seq<seq<string>>>,
                  round: real -> real)
    returns (r: Result<Scores, EvalError>)
    requires |responses| == |samples|
    requires store.Valid()
    modifies store
    ensures store.Valid()
    ensures r == EvaluationOf(samples, responses, round)
    ensures r.Failure? ==> store.rows == old(store.rows)
    ensures r.Success? ==>
      store.rows == Appended(old(store.rows), Decide(old(store.rows), r.value.precision, r.value.recall))
  {
    var tally := TallyRun(samples, responses);
    if tally.Failure? {
      return Failure(tally.error);
    }
    var counts := tally.value;
    if counts.found == 0 {
      return Failure(NothingFound);
    }
    if counts.relevant == 0 {
      return Failure(NothingRelevant);
    }
    var curPrecision := round(Ratio(counts.correct, counts.found));
    var curRecall := round(Ratio(counts.correct, counts.relevant));
    var _ := store.Promote(curPrecision, curRecall);
    r := Success(Scores(curPrecision, curRecall));
  }
}
