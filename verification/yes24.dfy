/** `Yes24Processor.preprocess` of
    review_analysis/preprocessing/yes24_processor.py: the score is the
    first run of digits in the `rate` text (`평점10점` is 10), `review`
    becomes `text` and `day` becomes `date`; then the shared filters, with
    the scores coerced to numbers. */
module Yes24 {
  import opened Wrappers
  import opened Strings
  import opened Table
  import opened Reviews

  const Dropped: set<string> := {"_id", "rate", "day", "review"}

  /** The digits at the front of `s`. */
  function LeadingDigits(s: string): (d: string)
    ensures |d| <= |s| && d == s[..|d|]
    ensures forall i :: 0 <= i < |d| ==> IsDigit(d[i])
    ensures |d| < |s| ==> !IsDigit(s[|d|])
  {
    if s == [] || !IsDigit(s[0]) then []
    else
      var rest := LeadingDigits(s[1..]);
      assert s[..|rest| + 1] == [s[0]] + s[1..][..|rest|];
      [s[0]] + rest
  }

  /** `str.extract(r"(\d+)")`: the value of the first run of digits, or
      `None` when there is no digit. */
  function FirstDigitRun(s: string): (n: Option<nat>)
    ensures n.None? <==> forall i :: 0 <= i < |s| ==> !IsDigit(s[i])
  {
    if s == [] then None
    else if IsDigit(s[0]) then Some(ParseDigits(LeadingDigits(s)))
    else FirstDigitRun(s[1..])
  }

  /** Text without digits in front of a number does not change which
      number is read. */
  lemma {:induction false} FirstDigitRunSkips(a: string, b: string)
    requires forall i :: 0 <= i < |a| ==> !IsDigit(a[i])
    ensures FirstDigitRun(a + b) == FirstDigitRun(b)
  {
    if a != [] {
      assert (a + b)[0] == a[0];
      assert (a + b)[1..] == a[1..] + b;
      FirstDigitRunSkips(a[1..], b);
    } else {
      assert a + b == b;
    }
  }

  /** The digits in front of a non-digit are read up to it. */
  lemma {:induction false} LeadingDigitsOf(d: string, t: string)
    requires forall i :: 0 <= i < |d| ==> IsDigit(d[i])
    requires t == [] || !IsDigit(t[0])
    ensures LeadingDigits(d + t) == d
  {
    if d != [] {
      assert (d + t)[0] == d[0];
      assert (d + t)[1..] == d[1..] + t;
      LeadingDigitsOf(d[1..], t);
      assert d == [d[0]] + d[1..];
    } else {
      assert d + t == t;
    }
  }

  /** A Yes24 rating label reads as the number it shows. */
  lemma RatingLabelRead(n: nat)
    ensures FirstDigitRun("평점" + Decimal(n) + "점") == Some(n)
  {
    var s := Decimal(n) + "점";
    assert "평점" + Decimal(n) + "점" == "평점" + s;
    FirstDigitRunSkips("평점", s);
    LeadingDigitsOf(Decimal(n), "점");
    assert s[0] == Decimal(n)[0];
    DecimalRoundTrip(n);
  }

  /** `rate.astype(str).str.extract(r"(\d+)").astype(float)` on one cell. */
  function RateScore(v: Cell): (r: Cell)
    ensures r.Null? || (r.Number? && r.tenths >= 0 && r.tenths % 10 == 0)
  {
    match FirstDigitRun(AsStr(v))
    case None => Null
    case Some(n) => Number(10 * n)
  }

  /** `text`: `review` as a string, else an existing `text` column as a
      string. */
  function TextCell(rows: seq<Row>, row: Row): Cell {
    if HasColumn(rows, "review") then Str(AsStr(Get(row, "review")))
    else Str(AsStr(Get(row, "text")))
  }

  /** `date`: `day` parsed, else an existing `date` column parsed. */
  function DateOf(rows: seq<Row>, row: Row, toDate: DateParse): Option<Timestamp> {
    if HasColumn(rows, "day") then ParseDate(toDate, Get(row, "day"))
    else ParseDate(toDate, Get(row, "date"))
  }

  /** `score`: read from `rate`, else an existing `score` column. */
  function ScoreCell(rows: seq<Row>, row: Row): Cell {
    if HasColumn(rows, "rate") then RateScore(Get(row, "rate"))
    else Get(row, "score")
  }

  function MapRows(rows: seq<Row>, toDate: DateParse): (ms: seq<Mapped>)
    ensures |ms| == |rows|
    ensures forall i :: 0 <= i < |rows| ==>
              ms[i] == Mapped(TextCell(rows, rows[i]), DateOf(rows, rows[i], toDate), ScoreCell(rows, rows[i]), Carried(rows[i], Dropped))
  {
    seq(|rows|, i requires 0 <= i < |rows| =>
      Mapped(TextCell(rows, rows[i]), DateOf(rows, rows[i], toDate), ScoreCell(rows, rows[i]), Carried(rows[i], Dropped)))
  }

  /** `Yes24Processor.preprocess`: the `text` conversion raises without a
      `review` or `text` column, the `date` conversion without a `day` or
      `date` column, the missing-value filter without a `rate` or `score`
      column; otherwise the kept reviews in input order. */
  function Preprocess(rows: seq<Row>, toDate: DateParse, toNumeric: NumericParse): (r: Result<seq<Review>, PreprocessError>)
    ensures !(HasColumn(rows, "review") || HasColumn(rows, "text")) ==> r == Failure(MissingColumns(["text"]))
    ensures (HasColumn(rows, "review") || HasColumn(rows, "text")) && !(HasColumn(rows, "day") || HasColumn(rows, "date")) ==>
              r == Failure(MissingColumns(["date"]))
    ensures (HasColumn(rows, "review") || HasColumn(rows, "text")) && (HasColumn(rows, "day") || HasColumn(rows, "date"))
              && !(HasColumn(rows, "rate") || HasColumn(rows, "score")) ==>
              r == Failure(MissingColumns(["score"]))
    ensures r.Success? <==>
              (HasColumn(rows, "review") || HasColumn(rows, "text")) && (HasColumn(rows, "day") || HasColumn(rows, "date"))
              && (HasColumn(rows, "rate") || HasColumn(rows, "score"))
    ensures r.Success? ==>
              && (forall p :: 0 <= p < |r.value| ==> WellFormed(r.value[p]) && r.value[p].index < |rows|)
              && (forall p, q :: 0 <= p < q < |r.value| ==> r.value[p].index < r.value[q].index)
  {
    if !(HasColumn(rows, "review") || HasColumn(rows, "text")) then Failure(MissingColumns(["text"]))
    else if !(HasColumn(rows, "day") || HasColumn(rows, "date")) then Failure(MissingColumns(["date"]))
    else if !(HasColumn(rows, "rate") || HasColumn(rows, "score")) then Failure(MissingColumns(["score"]))
    else Filters(MapRows(rows, toDate), Coerce(toNumeric))
  }

  /** A row is kept if and only if its mapped form passes every filter. */
  lemma KeepsExactlyPassingRows(rows: seq<Row>, toDate: DateParse, toNumeric: NumericParse, j: nat)
    requires Preprocess(rows, toDate, toNumeric).Success? && j < |rows|
    ensures Keeps(MapRows(rows, toDate)[j], Coerce(toNumeric)) <==>
              exists p :: 0 <= p < |Preprocess(rows, toDate, toNumeric).value| &&
                Preprocess(rows, toDate, toNumeric).value[p].index == j
  {
    FiltersKeepExactlyPassingRows(MapRows(rows, toDate), Coerce(toNumeric), j);
  }

  /** A row rated `평점n점` has score `n` on the 0..10 scale, and is kept
      only if `n` is at most 10. */
  lemma RatedRowScore(rows: seq<Row>, toDate: DateParse, toNumeric: NumericParse, j: nat, n: nat)
    requires j < |rows| && HasColumn(rows, "rate")
    requires Get(rows[j], "rate") == Str("평점" + Decimal(n) + "점")
    ensures MapRows(rows, toDate)[j].score == Number(10 * n)
    ensures Keeps(MapRows(rows, toDate)[j], Coerce(toNumeric)) ==> n <= 10
  {
    RatingLabelRead(n);
  }
}
