/** What the three review preprocessors under review_analysis/preprocessing
    share once each has mapped its site's columns onto `text`, `date` and
    `score`: drop rows missing any of the three, keep scores in 0..10 and
    texts of 5 to 1000 characters, and add the text length and the text
    with special characters removed. */
module Reviews {
  import opened Wrappers
  import opened Strings
  import opened Table

  // ---------------------------------------------------------------------
  // Removing special characters
  // ---------------------------------------------------------------------

  /** Characters `\w` matches, as far as this model knows them: ASCII
      letters and digits, the underscore, and Hangul syllables and
      compatibility jamo. */
  predicate IsWordChar(c: char) {
    || ('a' <= c <= 'z') || ('A' <= c <= 'Z') || IsDigit(c) || c == '_'
    || IsHangul(c)
  }

  /** The Hangul ranges the pattern names: `ㄱ-ㅎ`, `ㅏ-ㅣ` and `가-힣`. */
  predicate IsHangul(c: char) {
    ('ㄱ' <= c <= 'ㅎ') || ('ㅏ' <= c <= 'ㅣ') || ('가' <= c <= '힣')
  }

  /** The characters `[^\w\sㄱ-ㅎㅏ-ㅣ가-힣]` does not match. */
  predicate CleanKeeps(c: char) {
    IsWordChar(c) || IsSpace(c) || IsHangul(c)
  }

  /** `re.sub(r"[^\w\sㄱ-ㅎㅏ-ㅣ가-힣]", "", text)`. */
  function Clean(text: string): (r: string)
    ensures AllChars(r, CleanKeeps)
    ensures |r| <= |text|
  {
    Filter(text, CleanKeeps)
  }

  /** Cleaning removes exactly the special characters: a text without
      any is left as it is, and cleaning twice is cleaning once. */
  lemma CleanFixesPlainText(text: string)
    ensures AllChars(text, CleanKeeps) ==> Clean(text) == text
    ensures Clean(Clean(text)) == Clean(text)
  {
    if AllChars(text, CleanKeeps) {
      FilterKeepsAll(text, CleanKeeps);
    }
    FilterKeepsAll(Clean(text), CleanKeeps);
  }

  /** Cleaning works character by character: the cleaned text of a
      concatenation is the concatenation of the cleaned texts. */
  lemma CleanAppend(a: string, b: string)
    ensures Clean(a + b) == Clean(a) + Clean(b)
  {
    FilterAppend(a, b, CleanKeeps);
  }

  /** A special character is removed and any other character is kept, so
      with `CleanAppend` this fixes the cleaned text of every string. */
  lemma CleanChar(c: char)
    ensures Clean([c]) == if CleanKeeps(c) then [c] else []
  {
    assert [c][1..] == [];
  }

  /** A special character anywhere in the text leaves no trace: cleaning
      the text is cleaning what stands before and after it. */
  lemma CleanDeletes(a: string, c: char, b: string)
    requires !CleanKeeps(c)
    ensures Clean(a + [c] + b) == Clean(a) + Clean(b)
  {
    CleanAppend(a + [c], b);
    CleanAppend(a, [c]);
    CleanChar(c);
    assert Clean(a) + [] == Clean(a);
  }

  // ---------------------------------------------------------------------
  // Rows after column mapping
  // ---------------------------------------------------------------------

  /** A timestamp as `pd.to_datetime` produces it. */
  type Timestamp = int

  /** `pd.to_datetime(..., errors="coerce")` on one cell: the timestamp, or
      `None` (`NaT`) when the value cannot be read as a date. */
  type DateParse = Cell -> Option<Timestamp>

  /** `pd.to_numeric(..., errors="coerce")` on a string: the number in
      tenths, or `None` (`NaN`). */
  type NumericParse = string -> Option<int>

  /** A date column parsed: a missing value is `NaT`. */
  function ParseDate(toDate: DateParse, v: Cell): (d: Option<Timestamp>)
    ensures v.Null? ==> d.None?
  {
    if v.Null? then None else toDate(v)
  }

  /** `column * 2` on one cell: numbers double, strings repeat. */
  function Scale2(v: Cell): (r: Cell)
    ensures v.Null? <==> r.Null?
    ensures v.Number? ==> r == Number(2 * v.tenths)
    ensures v.Str? ==> r.Str? && |r.s| == 2 * |v.s| && r.s[..|v.s|] == v.s && r.s[|v.s|..] == v.s
  {
    match v
    case Null => Null
    case Number(t) => Number(2 * t)
    case Str(s) => Str(s + s)
  }

  /** One input row after the site's column mapping: the `text`, `date`
      and `score` columns, and the columns that are carried along. */
  datatype Mapped = Mapped(text: Cell, date: Option<Timestamp>, score: Cell, rest: Row)

  /** How the score range check treats the column: compared as it is (a
      string among the scores raises `TypeError`), or first coerced with
      `pd.to_numeric(errors="coerce")`. */
  datatype ScoreRule = Compare | Coerce(toNumeric: NumericParse)

  /** Why a preprocessing run raises. */
  datatype PreprocessError =
    | MissingColumns(names: seq<string>)
    | TypeError

  /** One kept review: its input position (the frame keeps its index), its
      columns, and the carried columns. Scores are in tenths. */
  datatype Review = Review(
    index: nat,
    text: string,
    date: Timestamp,
    score: int,
    textLength: nat,
    cleanedText: string,
    rest: Row)

  /** The bounds of a kept review: score 0..10, text of 5 to 1000
      characters, its length recorded, its cleaned text only word, space
      and Hangul characters. */
  predicate WellFormed(r: Review) {
    && 0 <= r.score <= 100
    && 5 <= |r.text| <= 1000
    && r.textLength == |r.text|
    && r.cleanedText == Clean(r.text)
  }

  /** `dropna(subset=["score", "text", "date"])` keeps the row. */
  predicate HasAll(m: Mapped) {
    m.text != Null && m.score != Null && m.date.Some?
  }

  /** The score the range check sees. */
  function NumericScore(m: Mapped, rule: ScoreRule): (v: Option<int>)
    ensures m.score.Number? ==> v == Some(m.score.tenths)
    ensures m.score.Null? ==> v.None?
  {
    match m.score
    case Null => None
    case Number(t) => Some(t)
    case Str(s) => if rule.Coerce? then rule.toNumeric(s) else None
  }

  /** The row survives every filter. A text that is not a string has no
      length (`NaN`) and is dropped. */
  predicate Keeps(m: Mapped, rule: ScoreRule) {
    && HasAll(m)
    && NumericScore(m, rule).Some? && 0 <= NumericScore(m, rule).value <= 100
    && m.text.Str? && 5 <= |m.text.s| <= 1000
  }

  /** The review a kept row becomes. */
  function ReviewOf(i: nat, m: Mapped, rule: ScoreRule): (r: Review)
    requires Keeps(m, rule)
    ensures WellFormed(r)
    ensures r.index == i && r.text == m.text.s && Some(r.date) == m.date && Some(r.score) == NumericScore(m, rule)
    ensures r.rest == m.rest
  {
    Review(i, m.text.s, m.date.value, NumericScore(m, rule).value, |m.text.s|, Clean(m.text.s), m.rest)
  }

  /** The reviews from rows `i ..`, in row order. */
  function KeptFrom(rows: seq<Mapped>, rule: ScoreRule, i: nat): (out: seq<Review>)
    requires i <= |rows|
    decreases |rows| - i
    ensures forall p :: 0 <= p < |out| ==>
              i <= out[p].index < |rows| && Keeps(rows[out[p].index], rule) &&
              out[p] == ReviewOf(out[p].index, rows[out[p].index], rule)
    ensures forall p, q :: 0 <= p < q < |out| ==> out[p].index < out[q].index
    ensures |out| <= |rows| - i
  {
    if i == |rows| then []
    else if Keeps(rows[i], rule) then [ReviewOf(i, rows[i], rule)] + KeptFrom(rows, rule, i + 1)
    else KeptFrom(rows, rule, i + 1)
  }

  /** One step of `KeptFrom`. */
  lemma KeptFromStep(rows: seq<Mapped>, rule: ScoreRule, i: nat)
    requires i < |rows|
    ensures KeptFrom(rows, rule, i) ==
              if Keeps(rows[i], rule) then [ReviewOf(i, rows[i], rule)] + KeptFrom(rows, rule, i + 1)
              else KeptFrom(rows, rule, i + 1)
  {
  }

  /** Some review in `out` came from row `j`. */
  predicate HasIndex(out: seq<Review>, j: nat) {
    exists p :: 0 <= p < |out| && out[p].index == j
  }

  /** Putting a review in front keeps every row already present. */
  lemma ConsHasIndex(head: Review, rest: seq<Review>, j: nat)
    requires head.index == j || HasIndex(rest, j)
    ensures HasIndex([head] + rest, j)
  {
    if head.index == j {
      assert ([head] + rest)[0] == head;
    } else {
      var p :| 0 <= p < |rest| && rest[p].index == j;
      assert ([head] + rest)[p + 1] == rest[p];
    }
  }

  /** A row that survives every filter is kept. */
  lemma {:induction false} KeptFromComplete(rows: seq<Mapped>, rule: ScoreRule, i: nat, j: nat)
    requires i <= j < |rows| && Keeps(rows[j], rule)
    ensures HasIndex(KeptFrom(rows, rule, i), j)
    decreases |rows| - i
  {
    KeptFromStep(rows, rule, i);
    if j != i {
      KeptFromComplete(rows, rule, i + 1, j);
    }
    if Keeps(rows[i], rule) {
      ConsHasIndex(ReviewOf(i, rows[i], rule), KeptFrom(rows, rule, i + 1), j);
    }
  }

  /** Under `Compare`, a string score that survives the missing-value
      filter makes the range comparison raise. */
  predicate ComparisonRaises(rows: seq<Mapped>, rule: ScoreRule) {
    rule.Compare? && exists i :: 0 <= i < |rows| && HasAll(rows[i]) && rows[i].score.Str?
  }

  /** The filters shared by the three processors: missing values, score
      range, text length, then the derived columns. */
  function Filters(rows: seq<Mapped>, rule: ScoreRule): (r: Result<seq<Review>, PreprocessError>)
    ensures r.Failure? <==> ComparisonRaises(rows, rule)
    ensures r.Failure? ==> r.error == TypeError
    ensures r.Success? ==>
              && (forall p :: 0 <= p < |r.value| ==> WellFormed(r.value[p]))
              && (forall p :: 0 <= p < |r.value| ==>
                    r.value[p].index < |rows| && Keeps(rows[r.value[p].index], rule))
              && (forall p, q :: 0 <= p < q < |r.value| ==> r.value[p].index < r.value[q].index)
  {
    if ComparisonRaises(rows, rule) then Failure(TypeError)
    else Success(KeptFrom(rows, rule, 0))
  }

  /** The output is exactly the rows that pass: a row is kept if and only
      if it survives every filter, and then as `ReviewOf` it. */
  lemma FiltersKeepExactlyPassingRows(rows: seq<Mapped>, rule: ScoreRule, j: nat)
    requires !ComparisonRaises(rows, rule) && j < |rows|
    ensures Keeps(rows[j], rule) <==>
              exists p :: 0 <= p < |Filters(rows, rule).value| && Filters(rows, rule).value[p].index == j
    ensures forall p :: 0 <= p < |Filters(rows, rule).value| && Filters(rows, rule).value[p].index == j ==>
              Filters(rows, rule).value[p] == ReviewOf(j, rows[j], rule)
  {
    var out := Filters(rows, rule).value;
    if Keeps(rows[j], rule) {
      KeptFromComplete(rows, rule, 0, j);
    } else {
      forall p | 0 <= p < |out|
        ensures out[p].index != j
      {
        assert Keeps(rows[out[p].index], rule);
      }
    }
  }

  /** A missing text is never kept: `astype(str)` turns it into `"nan"`,
      which the length filter drops. */
  lemma MissingTextDropped(rest: Row, date: Option<Timestamp>, score: Cell, rule: ScoreRule)
    ensures !Keeps(Mapped(Str(AsStr(Null)), date, score, rest), rule)
  {
  }

  /** The columns `dropna` asks for that the frame lacks, in the order of
      its subset. */
  function MissingOf(hasScore: bool, hasText: bool, hasDate: bool): (names: seq<string>)
    ensures names == [] <==> hasScore && hasText && hasDate
    ensures "score" in names <==> !hasScore
    ensures "text" in names <==> !hasText
    ensures "date" in names <==> !hasDate
  {
    (if hasScore then [] else ["score"]) + (if hasText then [] else ["text"]) + (if hasDate then [] else ["date"])
  }

  /** The input columns every processor removes, plus the ones it
      derives; the rest are carried along. */
  function Carried(row: Row, dropped: set<string>): (r: Row)
    ensures forall k :: k in r <==> k in row && k !in dropped && k !in DerivedColumns
    ensures forall k :: k in r ==> r[k] == row[k]
  {
    map k | k in row && k !in dropped && k !in DerivedColumns :: row[k]
  }

  const DerivedColumns: set<string> := {"text", "date", "score", "text_length", "cleaned_text"}

  /** On a row whose score is a number or missing, the two score rules
      agree on keeping it and on the review it becomes. */
  lemma RowRuleIrrelevant(i: nat, m: Mapped, r1: ScoreRule, r2: ScoreRule)
    requires !m.score.Str?
    ensures Keeps(m, r1) == Keeps(m, r2)
    ensures Keeps(m, r1) ==> ReviewOf(i, m, r1) == ReviewOf(i, m, r2)
  {
    assert NumericScore(m, r1) == NumericScore(m, r2);
  }

  /** On rows whose scores are numbers or missing, the two score rules
      keep the same rows with the same values. */
  lemma {:induction false} KeptFromRuleIrrelevant(rows: seq<Mapped>, r1: ScoreRule, r2: ScoreRule, i: nat)
    requires i <= |rows|
    requires forall k :: 0 <= k < |rows| ==> !rows[k].score.Str?
    ensures KeptFrom(rows, r1, i) == KeptFrom(rows, r2, i)
    decreases |rows| - i
  {
    if i < |rows| {
      KeptFromStep(rows, r1, i);
      KeptFromStep(rows, r2, i);
      KeptFromRuleIrrelevant(rows, r1, r2, i + 1);
      RowRuleIrrelevant(i, rows[i], r1, r2);
    }
  }
}
