/** `KyoboProcessor.preprocess` of
    review_analysis/preprocessing/kyobo_processor.py: like the Aladin
    processor, whose date, score and dropped columns it shares, with a
    third fallback for `text`, and with the scores coerced to numbers
    before the range check. */
module Kyobo {
  import opened Wrappers
  import opened Strings
  import opened Table
  import opened Reviews
  import Aladin

  /** `text`: `리뷰`, else `review`, else `text`, each as a string. */
  function TextCell(rows: seq<Row>, row: Row): Cell {
    if HasColumn(rows, "리뷰") then Str(AsStr(Get(row, "리뷰")))
    else if HasColumn(rows, "review") then Str(AsStr(Get(row, "review")))
    else Str(AsStr(Get(row, "text")))
  }

  /** Every input row after the column mapping and the drop. */
  function MapRows(rows: seq<Row>, toDate: DateParse): (ms: seq<Mapped>)
    ensures |ms| == |rows|
    ensures forall i :: 0 <= i < |rows| ==>
              ms[i] == Mapped(TextCell(rows, rows[i]), Aladin.DateOf(rows, rows[i], toDate), Aladin.ScoreCell(rows, rows[i]), Carried(rows[i], Aladin.Dropped))
  {
    seq(|rows|, i requires 0 <= i < |rows| =>
      Mapped(TextCell(rows, rows[i]), Aladin.DateOf(rows, rows[i], toDate), Aladin.ScoreCell(rows, rows[i]), Carried(rows[i], Aladin.Dropped)))
  }

  /** `KyoboProcessor.preprocess`: a frame lacking one of the three columns
      raises `KeyError`; otherwise the kept reviews in input order. The
      coercion means a score never raises. */
  function Preprocess(rows: seq<Row>, toDate: DateParse, toNumeric: NumericParse): (r: Result<seq<Review>, PreprocessError>)
    ensures r.Failure? <==> !(Aladin.HasScore(rows) && Aladin.HasText(rows) && Aladin.HasDate(rows))
    ensures r.Failure? ==> r.error == MissingColumns(MissingOf(Aladin.HasScore(rows), Aladin.HasText(rows), Aladin.HasDate(rows)))
    ensures r.Success? ==>
              && (forall p :: 0 <= p < |r.value| ==> WellFormed(r.value[p]) && r.value[p].index < |rows|)
              && (forall p, q :: 0 <= p < q < |r.value| ==> r.value[p].index < r.value[q].index)
  {
    if !(Aladin.HasScore(rows) && Aladin.HasText(rows) && Aladin.HasDate(rows)) then
      Failure(MissingColumns(MissingOf(Aladin.HasScore(rows), Aladin.HasText(rows), Aladin.HasDate(rows))))
    else Filters(MapRows(rows, toDate), Coerce(toNumeric))
  }

  /** A row is kept if and only if its mapped form passes every filter. */
  lemma KeepsExactlyPassingRows(rows: seq<Row>, toDate: DateParse, toNumeric: NumericParse, j: nat)
    requires Preprocess(rows, toDate, toNumeric).Success? && j < |rows|
    ensures Keeps(MapRows(rows, toDate)[j], Coerce(toNumeric)) <==>
              exists p :: 0 <= p < |Preprocess(rows, toDate, toNumeric).value| &&
                Preprocess(rows, toDate, toNumeric).value[p].index == j
  {
    FiltersKeepExactlyPassingRows(MapRows(rows, toDate), Coerce(toNumeric), j);
  }

  /** A string score the coercion cannot read is dropped, where the Aladin
      processor would raise. */
  lemma UnreadableScoreDropped(rows: seq<Row>, toDate: DateParse, toNumeric: NumericParse, j: nat)
    requires j < |rows| && Aladin.ScoreCell(rows, rows[j]).Str? && toNumeric(Aladin.ScoreCell(rows, rows[j]).s).None?
    ensures !Keeps(MapRows(rows, toDate)[j], Coerce(toNumeric))
  {
  }

  /** On MongoDB documents with a review column and a star or rating
      column whose values are numbers, the Kyobo and Aladin processors give
      the same reviews. */
  lemma AgreesWithAladin(rows: seq<Row>, toDate: DateParse, toNumeric: NumericParse)
    requires HasColumn(rows, "리뷰") || HasColumn(rows, "review")
    requires HasColumn(rows, "별점") || HasColumn(rows, "rating")
    requires forall i :: 0 <= i < |rows| ==> !Get(rows[i], "별점").Str? && !Get(rows[i], "rating").Str?
    ensures Preprocess(rows, toDate, toNumeric) == Aladin.Preprocess(rows, toDate)
  {
    var ms := MapRows(rows, toDate);
    assert ms == Aladin.MapRows(rows, toDate);
    assert forall k :: 0 <= k < |ms| ==> !ms[k].score.Str?;
    assert !ComparisonRaises(ms, Compare);
    KeptFromRuleIrrelevant(ms, Coerce(toNumeric), Compare, 0);
  }
}
