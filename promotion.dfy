/**
 * The metrics history of the `/test` endpoint and its promotion decision: a
 * run's scores are compared with the best scores ever recorded, and a row is
 * appended when the run beats them.
 */
module Promotion {
  import opened Wrappers

  /** One history row; the `time` column is not modelled. */
  datatype Record = Record(
    oldPrecision: real,
    newPrecision: real,
    oldRecall: real,
    newRecall: real,
    updateModel: bool)

  function Max(a: real, b: real): real {
    if a >= b then a else b
  }

  /** `Series.max()` of a non-empty column. */
  function ColumnMax(xs: seq<real>): (m: real)
    requires xs != []
    ensures m in xs
    ensures forall i :: 0 <= i < |xs| ==> xs[i] <= m
  {
    if |xs| == 1 then xs[0]
    else Max(ColumnMax(xs[..|xs| - 1]), xs[|xs| - 1])
  }

  function OldPrecisions(rows: seq<Record>): seq<real> {
    seq(|rows|, i requires 0 <= i < |rows| => rows[i].oldPrecision)
  }

  function NewPrecisions(rows: seq<Record>): seq<real> {
    seq(|rows|, i requires 0 <= i < |rows| => rows[i].newPrecision)
  }

  function OldRecalls(rows: seq<Record>): seq<real> {
    seq(|rows|, i requires 0 <= i < |rows| => rows[i].oldRecall)
  }

  function NewRecalls(rows: seq<Record>): seq<real> {
    seq(|rows|, i requires 0 <= i < |rows| => rows[i].newRecall)
  }

  /** `max_precision`: the largest precision in either precision column. */
  function MaxPrecision(rows: seq<Record>): (m: real)
    requires rows != []
    ensures forall i :: 0 <= i < |rows| ==> rows[i].oldPrecision <= m && rows[i].newPrecision <= m
    ensures exists i :: 0 <= i < |rows| && (rows[i].oldPrecision == m || rows[i].newPrecision == m)
  {
    var olds, news := OldPrecisions(rows), NewPrecisions(rows);
    assert forall i :: 0 <= i < |rows| ==> olds[i] == rows[i].oldPrecision && news[i] == rows[i].newPrecision;
    Max(ColumnMax(olds), ColumnMax(news))
  }

  /** `max_recall`: the largest recall in either recall column. */
  function MaxRecall(rows: seq<Record>): (m: real)
    requires rows != []
    ensures forall i :: 0 <= i < |rows| ==> rows[i].oldRecall <= m && rows[i].newRecall <= m
    ensures exists i :: 0 <= i < |rows| && (rows[i].oldRecall == m || rows[i].newRecall == m)
  {
    var olds, news := OldRecalls(rows), NewRecalls(rows);
    assert forall i :: 0 <= i < |rows| ==> olds[i] == rows[i].oldRecall && news[i] == rows[i].newRecall;
    Max(ColumnMax(olds), ColumnMax(news))
  }

  /**
   * The row the promotion step appends to the history, if any.  Without a
   * history the row is written whatever the scores, with baselines of zero;
   * with one, only when a score strictly beats every recorded score of its kind.
   */
  function Decide(rows: seq<Record>, precision: real, recall: real): (row: Option<Record>)
    ensures row.Some? <==>
      || rows == []
      || (forall i :: 0 <= i < |rows| ==> precision > rows[i].oldPrecision && precision > rows[i].newPrecision)
      || (forall i :: 0 <= i < |rows| ==> recall > rows[i].oldRecall && recall > rows[i].newRecall)
    ensures row.Some? ==>
      && row.value.newPrecision == precision
      && row.value.newRecall == recall
      && row.value.updateModel
    ensures row.Some? && rows == [] ==> row.value.oldPrecision == 0.0 && row.value.oldRecall == 0.0
    ensures row.Some? && rows != [] ==>
      row.value.oldPrecision == MaxPrecision(rows) && row.value.oldRecall == MaxRecall(rows)
  {
    if rows == [] then Some(Record(0.0, precision, 0.0, recall, true))
    else
      var maxPrecision, maxRecall := MaxPrecision(rows), MaxRecall(rows);
      if precision > maxPrecision || recall > maxRecall then
        Some(Record(maxPrecision, precision, maxRecall, recall, true))
      else None
  }

  /** The history after the decision: the old rows, then the decided row if there is one. */
  function Appended(rows: seq<Record>, row: Option<Record>): seq<Record> {
    match row
    case Some(r) => rows + [r]
    case None => rows
  }

  /**
   * A history that only this code wrote: every row is exactly what the
   * promotion decision appends to the rows before it.
   */
  ghost predicate Chained(rows: seq<Record>) {
    forall i :: 0 <= i < |rows| ==> Decide(rows[..i], rows[i].newPrecision, rows[i].newRecall) == Some(rows[i])
  }

  /** The promotion step keeps a history chained. */
  lemma ChainedAppend(rows: seq<Record>, precision: real, recall: real)
    requires Chained(rows)
    ensures Chained(Appended(rows, Decide(rows, precision, recall)))
  {
    var row := Decide(rows, precision, recall);
    if row.Some? {
      var rows' := rows + [row.value];
      forall i | 0 <= i < |rows'|
        ensures Decide(rows'[..i], rows'[i].newPrecision, rows'[i].newRecall) == Some(rows'[i])
      {
        if i < |rows| {
          assert rows'[..i] == rows[..i];
        } else {
          assert rows'[..i] == rows;
        }
      }
    }
  }

  /** In a chained history the baseline columns never decrease from row to row. */
  lemma BaselinesNonDecreasing(rows: seq<Record>, i: nat, j: nat)
    requires Chained(rows)
    requires i <= j < |rows|
    ensures rows[i].oldPrecision <= rows[j].oldPrecision
    ensures rows[i].oldRecall <= rows[j].oldRecall
  {
    if i < j {
      var before := rows[..j];
      assert Decide(before, rows[j].newPrecision, rows[j].newRecall) == Some(rows[j]);
      assert before[i] == rows[i];
    }
  }

  /** Every row after the first beats the best scores recorded before it in precision or recall. */
  lemma ChainedRowsImprove(rows: seq<Record>, j: nat)
    requires Chained(rows)
    requires 0 < j < |rows|
    ensures rows[j].newPrecision > MaxPrecision(rows[..j]) || rows[j].newRecall > MaxRecall(rows[..j])
    ensures rows[j].oldPrecision == MaxPrecision(rows[..j]) && rows[j].oldRecall == MaxRecall(rows[..j])
  {
  }

  /**
   * The promotion step never lowers the recorded maxima: they become the
   * larger of the old maxima and the run's scores when a row is appended,
   * and stay put otherwise.
   */
  lemma MaximaAfterPromotion(rows: seq<Record>, precision: real, recall: real)
    requires rows != []
    ensures var rows' := Appended(rows, Decide(rows, precision, recall));
      if Decide(rows, precision, recall).Some? then
        && MaxPrecision(rows') == Max(MaxPrecision(rows), precision)
        && MaxRecall(rows') == Max(MaxRecall(rows), recall)
      else rows' == rows
  {
  }

  /** The metrics history file, `metrics_score_history.csv`. */
  class MetricsStore {
    var rows: seq<Record>

    ghost predicate Valid()
      reads this
    {
      Chained(rows)
    }

    /** No history file yet. */
    constructor ()
      ensures Valid() && rows == []
    {
      rows := [];
    }

    /**
     * Reads the history, decides, and writes the history back with at most
     * one new row at its end.  Returns whether a row was appended.
     */
    method Promote(precision: real, recall: real) returns (promoted: bool)
      requires Valid()
      modifies this
      ensures Valid()
      ensures promoted == Decide(old(rows), precision, recall).Some?
      ensures rows == Appended(old(rows), Decide(old(rows), precision, recall))
      ensures old(rows) <= rows && |rows| <= |old(rows)| + 1
    {
      ChainedAppend(rows, precision, recall);
      if rows != [] {
        var maxPrecision := MaxPrecision(rows);
        var maxRecall := MaxRecall(rows);
        if precision > maxPrecision || recall > maxRecall {
          rows := rows + [Record(maxPrecision, precision, maxRecall, recall, true)];
          promoted := true;
        } else {
          promoted := false;
        }
      } else {
        rows := [Record(0.0, precision, 0.0, recall, true)];
        promoted := true;
      }
    }
  }
}
