/**
 * The counting part of the `/test` endpoint: every sample's gold entity ids are
 * zipped with the candidate lists the worker returned for its mentions, and
 * three counters are kept over all zipped pairs.
 */
module Tally {
  import opened Wrappers

  /** The worker's top candidate when it could not link a mention. */
  const NotInWiki: string := "not in wiki"
  /** The gold id of a mention that has no linkable entity. */
  const NoEntity: string := "0"

  /** A labelled sample; the request fields it carries are forwarded unchanged and are not modelled. */
  datatype Sample = Sample(goldEntities: seq<string>)

  /** One element of `zip(entity_ids_list, gold_entities)`. */
  datatype Pair = Pair(candidates: seq<string>, gold: string)

  datatype Counts = Counts(correct: nat, found: nat, relevant: nat)

  datatype EvalError =
    | MalformedResponse   // a zipped candidate list is empty: `entity_ids[0]` raises
    | NothingFound        // num_found == 0: the precision division raises
    | NothingRelevant     // num_relevant == 0: the recall division raises

  /** The worker linked the mention to some entity. */
  predicate Found(p: Pair) {
    |p.candidates| > 0 && p.candidates[0] != NotInWiki
  }

  /** The worker linked the mention to its gold entity. */
  predicate Correct(p: Pair) {
    Found(p) && p.candidates[0] == p.gold
  }

  /** The mention has a gold entity. */
  predicate Relevant(p: Pair) {
    p.gold != NoEntity
  }

  function Min(a: nat, b: nat): nat {
    if a <= b then a else b
  }

  /** Python's `zip`: pairs up the two lists and stops at the shorter one. */
  function Zip(candidateLists: seq<seq<string>>, gold: seq<string>): (ps: seq<Pair>)
    ensures |ps| == Min(|candidateLists|, |gold|)
  {
    if candidateLists == [] || gold == [] then []
    else [Pair(candidateLists[0], gold[0])] + Zip(candidateLists[1..], gold[1..])
  }

  /** The `j`-th zipped pair holds the `j`-th candidate list and the `j`-th gold id. */
  lemma {:induction false} ZipAt(candidateLists: seq<seq<string>>, gold: seq<string>, j: nat)
    requires j < |candidateLists| && j < |gold|
    ensures Zip(candidateLists, gold)[j] == Pair(candidateLists[j], gold[j])
  {
    if j > 0 {
      ZipAt(candidateLists[1..], gold[1..], j - 1);
    }
  }

  /** All pairs the nested loops visit, sample by sample, in order. */
  function AllPairs(samples: seq<Sample>, responses: seq<seq<seq<string>>>): seq<Pair>
    requires |responses| == |samples|
  {
    if samples == [] then []
    else
      var n := |samples| - 1;
      AllPairs(samples[..n], responses[..n]) + Zip(responses[n], samples[n].goldEntities)
  }

  /** How many pairs zipping visits: the shorter length of each sample's two lists, summed. */
  function ZippedPairs(samples: seq<Sample>, responses: seq<seq<seq<string>>>): nat
    requires |responses| == |samples|
  {
    if samples == [] then 0
    else
      var n := |samples| - 1;
      ZippedPairs(samples[..n], responses[..n]) + Min(|responses[n]|, |samples[n].goldEntities|)
  }

  function CountCorrect(ps: seq<Pair>): (c: nat)
    ensures c <= |ps|
  {
    if ps == [] then 0
    else CountCorrect(ps[..|ps| - 1]) + (if Correct(ps[|ps| - 1]) then 1 else 0)
  }

  function CountFound(ps: seq<Pair>): (c: nat)
    ensures c <= |ps|
  {
    if ps == [] then 0
    else CountFound(ps[..|ps| - 1]) + (if Found(ps[|ps| - 1]) then 1 else 0)
  }

  function CountRelevant(ps: seq<Pair>): (c: nat)
    ensures c <= |ps|
  {
    if ps == [] then 0
    else CountRelevant(ps[..|ps| - 1]) + (if Relevant(ps[|ps| - 1]) then 1 else 0)
  }

  /** The three counters over a sequence of visited pairs. */
  function CountsOf(ps: seq<Pair>): Counts {
    Counts(CountCorrect(ps), CountFound(ps), CountRelevant(ps))
  }

  /** Some visited pair has no candidate at all. */
  predicate HasEmptyCandidates(ps: seq<Pair>) {
    ps != [] && (HasEmptyCandidates(ps[..|ps| - 1]) || ps[|ps| - 1].candidates == [])
  }

  /** What the counting loops produce: the three counters, or the IndexError of an empty candidate list. */
  function TallyOf(samples: seq<Sample>, responses: seq<seq<seq<string>>>): Result<Counts, EvalError>
    requires |responses| == |samples|
  {
    var ps := AllPairs(samples, responses);
    if HasEmptyCandidates(ps) then Failure(MalformedResponse)
    else Success(CountsOf(ps))
  }

  /**
   * The nested counting loops of the `/test` endpoint.  `responses[i]` is the
   * worker's `entity_ids_list` for `samples[i]`.
   */
  method TallyRun(samples: seq<Sample>, responses: seq<seq<seq<string>>>)
    returns (r: Result<Counts, EvalError>)
    requires |responses| == |samples|
    ensures r == TallyOf(samples, responses)
  {
    var counts := Counts(0, 0, 0);
    var i := 0;
    while i < |samples|
      invariant 0 <= i <= |samples|
      invariant !HasEmptyCandidates(AllPairs(samples[..i], responses[..i]))
      invariant counts == CountsOf(AllPairs(samples[..i], responses[..i]))
    {
      AllPairsStep(samples, responses, i);
      var step := TallySample(counts, AllPairs(samples[..i], responses[..i]), responses[i], samples[i].goldEntities);
      if step.Failure? {
        EmptyCandidatesSpread(samples, responses, i + 1, AllPairs(samples[..i + 1], responses[..i + 1]));
        return step;
      }
      counts := step.value;
      i := i + 1;
    }
    assert samples[..i] == samples;
    assert responses[..i] == responses;
    r := Success(counts);
  }

  /**
   * The inner loop for one sample: continues the counters `counts` of the
   * pairs `visited` so far over the sample's zipped pairs.
   */
  method TallySample(counts: Counts, ghost visited: seq<Pair>,
                     entityIdsList: seq<seq<string>>, goldEntities: seq<string>)
    returns (r: Result<Counts, EvalError>)
    requires !HasEmptyCandidates(visited) && counts == CountsOf(visited)
    ensures var ps := visited + Zip(entityIdsList, goldEntities);
      r == if HasEmptyCandidates(ps) then Failure(MalformedResponse) else Success(CountsOf(ps))
  {
    ghost var zipped := Zip(entityIdsList, goldEntities);
    var numCorrect, numFound, numRelevant := counts.correct, counts.found, counts.relevant;
    ghost var seen := visited;
    var j := 0;
    assert visited + zipped[..j] == visited;
    while j < |entityIdsList| && j < |goldEntities|
      invariant 0 <= j <= |zipped|
      invariant seen == visited + zipped[..j]
      invariant !HasEmptyCandidates(seen)
      invariant Counts(numCorrect, numFound, numRelevant) == CountsOf(seen)
    {
      var entityIds, goldEntity := entityIdsList[j], goldEntities[j];
      ghost var pair := Pair(entityIds, goldEntity);
      ZipAt(entityIdsList, goldEntities, j);
      SliceStep(visited, zipped, j);
      CountsStep(seen, pair);
      seen := seen + [pair];
      if entityIds == [] {
        // `entity_ids[0]` raises IndexError, which ends the request
        HasEmptyCandidatesPrefix(seen, visited + zipped);
        return Failure(MalformedResponse);
      }
      assert Found(pair) == (entityIds[0] != NotInWiki);
      if entityIds[0] != NotInWiki && entityIds[0] == goldEntity {
        numCorrect := numCorrect + 1;
      }
      if entityIds[0] != NotInWiki {
        numFound := numFound + 1;
      }
      if goldEntity != NoEntity {
        numRelevant := numRelevant + 1;
      }
      j := j + 1;
    }
    assert zipped[..j] == zipped;
    r := Success(Counts(numCorrect, numFound, numRelevant));
  }

  /** A malformed prefix makes the whole sequence malformed. */
  lemma HasEmptyCandidatesPrefix(ps: seq<Pair>, qs: seq<Pair>)
    requires ps <= qs && HasEmptyCandidates(ps)
    ensures HasEmptyCandidates(qs)
  {
  }

  lemma SliceStep<T>(a: seq<T>, b: seq<T>, j: nat)
    requires j < |b|
    ensures a + b[..j + 1] == (a + b[..j]) + [b[j]]
  {
  }

  lemma SnocSplit<T>(a: seq<T>, b: seq<T>)
    requires b != []
    ensures a + b == (a + b[..|b| - 1]) + [b[|b| - 1]]
  {
  }

  /** Visiting one more pair adds its contribution to each counter. */
  lemma CountsStep(ps: seq<Pair>, p: Pair)
    ensures CountsOf(ps + [p]) == Counts(CountsOf(ps).correct + (if Correct(p) then 1 else 0),
                                         CountsOf(ps).found + (if Found(p) then 1 else 0),
                                         CountsOf(ps).relevant + (if Relevant(p) then 1 else 0))
    ensures CountCorrect(ps + [p]) == CountCorrect(ps) + (if Correct(p) then 1 else 0)
    ensures CountFound(ps + [p]) == CountFound(ps) + (if Found(p) then 1 else 0)
    ensures CountRelevant(ps + [p]) == CountRelevant(ps) + (if Relevant(p) then 1 else 0)
    ensures HasEmptyCandidates(ps + [p]) <==> HasEmptyCandidates(ps) || p.candidates == []
  {
  }

  /** The outer loop's step: the first `i + 1` samples add the zip of sample `i`. */
  lemma AllPairsStep(samples: seq<Sample>, responses: seq<seq<seq<string>>>, i: nat)
    requires |responses| == |samples| && i < |samples|
    ensures AllPairs(samples[..i + 1], responses[..i + 1])
         == AllPairs(samples[..i], responses[..i]) + Zip(responses[i], samples[i].goldEntities)
  {
    assert samples[..i + 1][..i] == samples[..i];
    assert responses[..i + 1][..i] == responses[..i];
  }

  /** An empty candidate list among the pairs of the first `i` samples is one of all the pairs. */
  lemma EmptyCandidatesSpread(samples: seq<Sample>, responses: seq<seq<seq<string>>>, i: nat, ps: seq<Pair>)
    requires |responses| == |samples| && i <= |samples|
    requires ps <= AllPairs(samples[..i], responses[..i])
    requires HasEmptyCandidates(ps)
    ensures HasEmptyCandidates(AllPairs(samples, responses))
  {
    AllPairsPrefix(samples, responses, i);
    HasEmptyCandidatesPrefix(ps, AllPairs(samples, responses));
  }

  /** A malformed response is exactly one in which some visited pair has no candidate. */
  lemma {:induction false} HasEmptyCandidatesIff(ps: seq<Pair>)
    ensures HasEmptyCandidates(ps) <==> exists k :: 0 <= k < |ps| && ps[k].candidates == []
  {
    if ps != [] {
      var n := |ps| - 1;
      HasEmptyCandidatesIff(ps[..n]);
      if HasEmptyCandidates(ps[..n]) {
        var k :| 0 <= k < n && ps[..n][k].candidates == [];
        assert ps[k] == ps[..n][k];
      }
      if exists k :: 0 <= k < |ps| && ps[k].candidates == [] {
        var k :| 0 <= k < |ps| && ps[k].candidates == [];
        if k < n {
          assert ps[..n][k] == ps[k];
        }
      }
    }
  }

  /** The pairs of the first `i` samples are the first pairs visited overall. */
  lemma {:induction false} AllPairsPrefix(samples: seq<Sample>, responses: seq<seq<seq<string>>>, i: nat)
    requires |responses| == |samples| && i <= |samples|
    ensures AllPairs(samples[..i], responses[..i]) <= AllPairs(samples, responses)
  {
    if i < |samples| {
      var n := |samples| - 1;
      AllPairsPrefix(samples[..n], responses[..n], i);
      assert samples[..n][..i] == samples[..i];
      assert responses[..n][..i] == responses[..i];
    } else {
      assert samples[..i] == samples;
      assert responses[..i] == responses;
    }
  }

  /** Every pair counted as correct is also counted as found. */
  lemma {:induction false} CorrectAtMostFound(ps: seq<Pair>)
    ensures CountCorrect(ps) <= CountFound(ps)
  {
    if ps != [] {
      CorrectAtMostFound(ps[..|ps| - 1]);
    }
  }

  /**
   * Correct pairs whose gold id is the no-entity sentinel are not relevant, so
   * recall stays at most one only while the worker never answers that sentinel.
   */
  lemma {:induction false} CorrectAtMostRelevant(ps: seq<Pair>)
    requires forall i :: 0 <= i < |ps| && Found(ps[i]) ==> ps[i].candidates[0] != NoEntity
    ensures CountCorrect(ps) <= CountRelevant(ps)
  {
    if ps != [] {
      CorrectAtMostRelevant(ps[..|ps| - 1]);
    }
  }

  /** Nothing is found exactly when no visited pair has a linked top candidate. */
  lemma {:induction false} NothingFoundIff(ps: seq<Pair>)
    ensures CountFound(ps) == 0 <==> forall i :: 0 <= i < |ps| ==> !Found(ps[i])
  {
    if ps != [] {
      var n := |ps| - 1;
      NothingFoundIff(ps[..n]);
      assert forall i :: 0 <= i < n ==> ps[..n][i] == ps[i];
    }
  }

  /** Nothing is relevant exactly when every visited gold id is the no-entity sentinel. */
  lemma {:induction false} NothingRelevantIff(ps: seq<Pair>)
    ensures CountRelevant(ps) == 0 <==> forall i :: 0 <= i < |ps| ==> ps[i].gold == NoEntity
  {
    if ps != [] {
      var n := |ps| - 1;
      NothingRelevantIff(ps[..n]);
      assert forall i :: 0 <= i < n ==> ps[..n][i] == ps[i];
    }
  }

  /** Pairs whose top candidate is "not in wiki" add nothing to num_correct or num_found. */
  lemma {:induction false} UnlinkedAddNothing(ps: seq<Pair>, qs: seq<Pair>)
    requires forall i :: 0 <= i < |qs| ==> |qs[i].candidates| > 0 && qs[i].candidates[0] == NotInWiki
    ensures CountCorrect(ps + qs) == CountCorrect(ps)
    ensures CountFound(ps + qs) == CountFound(ps)
  {
    if qs == [] {
      assert ps + qs == ps;
    } else {
      var n := |qs| - 1;
      UnlinkedAddNothing(ps, qs[..n]);
      SnocSplit(ps, qs);
      CountsStep(ps + qs[..n], qs[n]);
    }
  }

  /** Pairs whose gold id is "0" add nothing to num_relevant. */
  lemma {:induction false} UnlabelledAddNothing(ps: seq<Pair>, qs: seq<Pair>)
    requires forall i :: 0 <= i < |qs| ==> qs[i].gold == NoEntity
    ensures CountRelevant(ps + qs) == CountRelevant(ps)
  {
    if qs == [] {
      assert ps + qs == ps;
    } else {
      var n := |qs| - 1;
      UnlabelledAddNothing(ps, qs[..n]);
      SnocSplit(ps, qs);
      CountsStep(ps + qs[..n], qs[n]);
    }
  }

  /** Zipping visits exactly the shorter length of each sample's two lists. */
  lemma {:induction false} AllPairsLength(samples: seq<Sample>, responses: seq<seq<seq<string>>>)
    requires |responses| == |samples|
    ensures |AllPairs(samples, responses)| == ZippedPairs(samples, responses)
  {
    if samples != [] {
      var n := |samples| - 1;
      AllPairsLength(samples[..n], responses[..n]);
    }
  }

  /**
   * A successful tally has num_correct <= num_found, and each counter is at
   * most the number of zipped pairs.
   */
  lemma TallyBounds(samples: seq<Sample>, responses: seq<seq<seq<string>>>)
    requires |responses| == |samples|
    ensures TallyOf(samples, responses).Success? ==>
      var c := TallyOf(samples, responses).value;
      && c.correct <= c.found
      && c.found <= ZippedPairs(samples, responses)
      && c.relevant <= ZippedPairs(samples, responses)
  {
    AllPairsLength(samples, responses);
    CorrectAtMostFound(AllPairs(samples, responses));
  }

  /** The tally fails exactly when some zipped candidate list is empty. */
  lemma TallyFailsIff(samples: seq<Sample>, responses: seq<seq<seq<string>>>)
    requires |responses| == |samples|
    ensures var ps := AllPairs(samples, responses);
      TallyOf(samples, responses).Failure? <==> exists k :: 0 <= k < |ps| && ps[k].candidates == []
  {
    HasEmptyCandidatesIff(AllPairs(samples, responses));
  }

  /**
   * Three mentions with gold ids Q1, 0, Q3 and top candidates Q1, Q5,
   * "not in wiki": one correct, two found, two relevant.
   */
  lemma ThreeMentionScenario()
    ensures TallyOf([Sample(["Q1", "0", "Q3"])], [[["Q1"], ["Q5"], [NotInWiki]]])
         == Success(Counts(1, 2, 2))
  {
    ThreeMentionPairs();
    ThreeMentionCounts();
  }

  lemma ThreeMentionPairs()
    ensures AllPairs([Sample(["Q1", "0", "Q3"])], [[["Q1"], ["Q5"], [NotInWiki]]])
         == [Pair(["Q1"], "Q1"), Pair(["Q5"], "0"), Pair([NotInWiki], "Q3")]
  {
    var samples := [Sample(["Q1", "0", "Q3"])];
    var responses := [[["Q1"], ["Q5"], [NotInWiki]]];
    ZipAt(responses[0], samples[0].goldEntities, 0);
    ZipAt(responses[0], samples[0].goldEntities, 1);
    ZipAt(responses[0], samples[0].goldEntities, 2);
    assert samples[..0] == [] && responses[..0] == [];
  }

  lemma ThreeMentionCounts()
    ensures var ps := [Pair(["Q1"], "Q1"), Pair(["Q5"], "0"), Pair([NotInWiki], "Q3")];
      CountsOf(ps) == Counts(1, 2, 2) && !HasEmptyCandidates(ps)
  {
    var p0, p1, p2 := Pair(["Q1"], "Q1"), Pair(["Q5"], "0"), Pair([NotInWiki], "Q3");
    CountsStep([], p0);
    assert [] + [p0] == [p0];
    CountsStep([p0], p1);
    assert [p0] + [p1] == [p0, p1];
    CountsStep([p0, p1], p2);
    assert [p0, p1] + [p2] == [p0, p1, p2];
  }

}
