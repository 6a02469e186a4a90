/** `AladinProcessor.preprocess` of
    review_analysis/preprocessing/aladin_processor.py: map the site's
    columns onto `text`, `date` and `score` (stars doubled to a 0..10
    scale), drop the source columns, then apply the shared filters with the
    scores compared as they are. */
module Aladin {
  import opened Wrappers
  import opened Strings
  import opened Table
  import opened Reviews

  /** The columns removed after the mapping. */
  const Dropped: set<string> := {"리뷰", "날짜", "별점", "review", "rating", "_id"}

  /** `text`: `리뷰` as a string, else `review` as a string, else an
      existing `text` column as it is. */
  function TextCell(rows: seq<Row>, row: Row): Cell {
    if HasColumn(rows, "리뷰") then Str(AsStr(Get(row, "리뷰")))
    else if HasColumn(rows, "review") then Str(AsStr(Get(row, "review")))
    else Get(row, "text")
  }

  /** `date`: `날짜` parsed, else `date` parsed. */
  function DateOf(rows: seq<Row>, row: Row, toDate: DateParse): Option<Timestamp> {
    if HasColumn(rows, "날짜") then ParseDate(toDate, Get(row, "날짜"))
    else ParseDate(toDate, Get(row, "date"))
  }

  /** `score`: `별점` doubled, else `rating` doubled, else an existing
      `score` column as it is. */
  function ScoreCell(rows: seq<Row>, row: Row): Cell {
    if HasColumn(rows, "별점") then Scale2(Get(row, "별점"))
    else if HasColumn(rows, "rating") then Scale2(Get(row, "rating"))
    else Get(row, "score")
  }

  /** Every input row after the column mapping and the drop. */
  function MapRows(rows: seq<Row>, toDate: DateParse): (ms: seq<Mapped>)
    ensures |ms| == |rows|
    ensures forall i :: 0 <= i < |rows| ==>
              ms[i] == Mapped(TextCell(rows, rows[i]), DateOf(rows, rows[i], toDate), ScoreCell(rows, rows[i]), Carried(rows[i], Dropped))
  {
    seq(|rows|, i requires 0 <= i < |rows| =>
      Mapped(TextCell(rows, rows[i]), DateOf(rows, rows[i], toDate), ScoreCell(rows, rows[i]), Carried(rows[i], Dropped)))
  }

  predicate HasText(rows: seq<Row>) {
    HasColumn(rows, "리뷰") || HasColumn(rows, "review") || HasColumn(rows, "text")
  }

  predicate HasDate(rows: seq<Row>) {
    HasColumn(rows, "날짜") || HasColumn(rows, "date")
  }

  predicate HasScore(rows: seq<Row>) {
    HasColumn(rows, "별점") || HasColumn(rows, "rating") || HasColumn(rows, "score")
  }

  /** `AladinProcessor.preprocess`: a frame lacking one of the three
      columns raises `KeyError`; a string score that reaches the range
      check raises `TypeError`; otherwise the kept reviews in input order. */
  function Preprocess(rows: seq<Row>, toDate: DateParse): (r: Result<seq<Review>, PreprocessError>)
    ensures !(HasScore(rows) && HasText(rows) && HasDate(rows)) <==> r.Failure? && r.error.MissingColumns?
    ensures r.Failure? && r.error.MissingColumns? ==>
              r.error.names == MissingOf(HasScore(rows), HasText(rows), HasDate(rows))
    ensures r == Failure(TypeError) <==>
              HasScore(rows) && HasText(rows) && HasDate(rows) && ComparisonRaises(MapRows(rows, toDate), Compare)
    ensures r.Success? ==>
              && (forall p :: 0 <= p < |r.value| ==> WellFormed(r.value[p]) && r.value[p].index < |rows|)
              && (forall p, q :: 0 <= p < q < |r.value| ==> r.value[p].index < r.value[q].index)
  {
    if !(HasScore(rows) && HasText(rows) && HasDate(rows)) then
      Failure(MissingColumns(MissingOf(HasScore(rows), HasText(rows), HasDate(rows))))
    else Filters(MapRows(rows, toDate), Compare)
  }

  /** With a `별점` column and a `리뷰` column, a kept review carries the
      row's review text, and a score twice its stars, which lay in 0..5. */
  lemma StarsDoubled(rows: seq<Row>, toDate: DateParse, p: nat)
    requires HasColumn(rows, "별점") && HasColumn(rows, "리뷰") && HasDate(rows)
    requires Preprocess(rows, toDate).Success? && p < |Preprocess(rows, toDate).value|
    ensures
      var rv := Preprocess(rows, toDate).value[p];
      var stars := Get(rows[rv.index], "별점");
      && rv.text == AsStr(Get(rows[rv.index], "리뷰"))
      && stars.Number? && rv.score == 2 * stars.tenths && 0 <= stars.tenths <= 50
  {
    var ms := MapRows(rows, toDate);
    var rv := Preprocess(rows, toDate).value[p];
    assert Keeps(ms[rv.index], Compare);
  }

  /** A row is kept if and only if its mapped form passes every filter. */
  lemma KeepsExactlyPassingRows(rows: seq<Row>, toDate: DateParse, j: nat)
    requires Preprocess(rows, toDate).Success? && j < |rows|
    ensures Keeps(MapRows(rows, toDate)[j], Compare) <==>
              exists p :: 0 <= p < |Preprocess(rows, toDate).value| && Preprocess(rows, toDate).value[p].index == j
  {
    FiltersKeepExactlyPassingRows(MapRows(rows, toDate), Compare, j);
  }
}
