/** The retrievers of st_app/rag/retriever.py, with the similarity
    computations abstracted: the TF-IDF retriever ranks the whole corpus
    by a stable descending sort of the query's similarity scores, the FAISS
    retriever turns a nearest-neighbour search into documents, and
    `_load_review_texts` turns CSV rows into corpus documents. */
module Retriever {
  import opened Wrappers
  import opened Strings
  import opened Records
  import opened Table

  // ---------------------------------------------------------------------
  // Ranking
  // ---------------------------------------------------------------------

  /** Corpus entry `i` is ranked before entry `j`: a higher score, or an
      equal score and an earlier corpus position (the sort is stable). */
  predicate Before(sims: seq<Score>, i: nat, j: nat) {
    i < |sims| && j < |sims| && (sims[i] > sims[j] || (sims[i] == sims[j] && i < j))
  }

  /** `order` lists corpus positions in ranking order. */
  predicate RankedBy(sims: seq<Score>, order: seq<nat>) {
    forall p, q :: 0 <= p < q < |order| ==> Before(sims, order[p], order[q])
  }

  /** The positions `0 .. n-1`, Python's `range(n)`. */
  function Range(n: nat): (r: seq<nat>)
    ensures |r| == n
    ensures forall i :: 0 <= i < n ==> r[i] == i
  {
    if n == 0 then [] else Range(n - 1) + [n - 1]
  }

  /** Inserting position `i`, later than every position already ranked. */
  function Insert(sims: seq<Score>, i: nat, xs: seq<nat>): (r: seq<nat>)
    requires i < |sims|
    requires forall p :: 0 <= p < |xs| ==> xs[p] < i
    requires RankedBy(sims, xs)
    ensures multiset(r) == multiset(xs) + multiset{i}
    ensures forall p :: 0 <= p < |r| ==> r[p] == i || r[p] in xs
    ensures RankedBy(sims, r)
  {
    if xs == [] then [i]
    else if sims[i] > sims[xs[0]] then
      NewHeadBefore(sims, i, xs);
      ConsRanked(sims, i, xs);
      [i] + xs
    else
      var rest := Insert(sims, i, xs[1..]);
      assert xs == [xs[0]] + xs[1..];
      OldHeadBefore(sims, i, xs, rest);
      ConsRanked(sims, xs[0], rest);
      [xs[0]] + rest
  }

  /** A position ranked before every entry of a ranking can lead it. */
  lemma ConsRanked(sims: seq<Score>, x: nat, rest: seq<nat>)
    requires RankedBy(sims, rest)
    requires forall q :: 0 <= q < |rest| ==> Before(sims, x, rest[q])
    ensures RankedBy(sims, [x] + rest)
  {
    var r := [x] + rest;
    forall p, q | 0 <= p < q < |r|
      ensures Before(sims, r[p], r[q])
    {
      assert r[q] == rest[q - 1];
      if p > 0 {
        assert r[p] == rest[p - 1];
      }
    }
  }

  /** A strictly higher score goes before the whole ranking. */
  lemma NewHeadBefore(sims: seq<Score>, i: nat, xs: seq<nat>)
    requires i < |sims| && xs != []
    requires forall p :: 0 <= p < |xs| ==> xs[p] < |sims|
    requires RankedBy(sims, xs)
    requires sims[i] > sims[xs[0]]
    ensures forall q :: 0 <= q < |xs| ==> Before(sims, i, xs[q])
  {
    forall q | 0 < q < |xs|
      ensures Before(sims, i, xs[q])
    {
      assert Before(sims, xs[0], xs[q]);
    }
  }

  /** A head with at least the new score stays before everything after it. */
  lemma OldHeadBefore(sims: seq<Score>, i: nat, xs: seq<nat>, rest: seq<nat>)
    requires i < |sims| && xs != []
    requires forall p :: 0 <= p < |xs| ==> xs[p] < i
    requires RankedBy(sims, xs)
    requires sims[i] <= sims[xs[0]]
    requires forall p :: 0 <= p < |rest| ==> rest[p] == i || rest[p] in xs[1..]
    ensures forall q :: 0 <= q < |rest| ==> Before(sims, xs[0], rest[q])
  {
    forall q | 0 <= q < |rest|
      ensures Before(sims, xs[0], rest[q])
    {
      if rest[q] != i {
        var k :| 0 <= k < |xs[1..]| && xs[1..][k] == rest[q];
        assert Before(sims, xs[0], xs[k + 1]);
      }
    }
  }

  /** The ranking of the first `n` corpus positions. */
  function Rank(sims: seq<Score>, n: nat): (r: seq<nat>)
    requires n <= |sims|
    ensures multiset(r) == multiset(Range(n))
    ensures forall p :: 0 <= p < |r| ==> r[p] < n
    ensures RankedBy(sims, r)
  {
    if n == 0 then []
    else
      var xs := Rank(sims, n - 1);
      assert Range(n) == Range(n - 1) + [n - 1];
      var r := Insert(sims, n - 1, xs);
      assert forall p :: 0 <= p < |r| ==> r[p] < n;
      r
  }

  /** `sorted(enumerate(sims), key=lambda x: x[1], reverse=True)`, as the
      positions in ranking order: every corpus position once, higher scores
      first, ties in corpus order. */
  function RankOrder(sims: seq<Score>): (order: seq<nat>)
    ensures |order| == |sims|
    ensures multiset(order) == multiset(Range(|sims|))
    ensures RankedBy(sims, order)
  {
    var r := Rank(sims, |sims|);
    assert |r| == |multiset(r)| == |multiset(Range(|sims|))| == |sims|;
    r
  }

  /** A ranking lists every corpus position exactly once. */
  lemma RankOrderCoversCorpus(sims: seq<Score>)
    ensures forall i :: 0 <= i < |sims| ==> i in RankOrder(sims)
    ensures forall p, q :: 0 <= p < q < |sims| ==> RankOrder(sims)[p] != RankOrder(sims)[q]
  {
    var order := RankOrder(sims);
    forall i | 0 <= i < |sims|
      ensures i in order
    {
      assert Range(|sims|)[i] == i;
      assert i in multiset(Range(|sims|));
    }
    forall p, q | 0 <= p < q < |sims|
      ensures order[p] != order[q]
    {
      assert Before(sims, order[p], order[q]);
    }
  }

  /** The ranking is the only one: two orders of the same positions that
      both follow `Before` are the same order. */
  lemma {:induction false} RankingUnique(sims: seq<Score>, a: seq<nat>, b: seq<nat>)
    requires RankedBy(sims, a) && RankedBy(sims, b)
    requires multiset(a) == multiset(b)
    ensures a == b
  {
    if a != [] {
      RankedHeadsAgree(sims, a, b);
      TailMultiset(a);
      TailMultiset(b);
      RankingUnique(sims, a[1..], b[1..]);
      assert a == [a[0]] + a[1..] && b == [b[0]] + b[1..];
    }
  }

  /** Two rankings of the same non-empty set of positions start alike. */
  lemma RankedHeadsAgree(sims: seq<Score>, a: seq<nat>, b: seq<nat>)
    requires RankedBy(sims, a) && RankedBy(sims, b)
    requires multiset(a) == multiset(b) && a != []
    ensures b != [] && a[0] == b[0]
  {
    assert a[0] in multiset(b);
    assert b[0] in multiset(a);
    if a[0] != b[0] {
      FirstRankedBefore(sims, a, b[0]);
      FirstRankedBefore(sims, b, a[0]);
    }
  }

  /** The first position of a ranking comes before every other one. */
  lemma FirstRankedBefore(sims: seq<Score>, a: seq<nat>, x: nat)
    requires RankedBy(sims, a) && a != []
    requires x in a && x != a[0]
    ensures Before(sims, a[0], x)
  {
    var p :| 0 <= p < |a| && a[p] == x;
    assert Before(sims, a[0], a[p]);
  }

  lemma TailMultiset(a: seq<nat>)
    requires a != []
    ensures multiset(a[1..]) == multiset(a) - multiset{a[0]}
  {
    assert a == [a[0]] + a[1..];
  }

  // ---------------------------------------------------------------------
  // TF-IDF retrieval
  // ---------------------------------------------------------------------

  /** A fitted TF-IDF retriever: the corpus texts, their metadata, and the
      cosine similarity of a query to every corpus text. */
  datatype TfIdfRetriever = TfIdfRetriever(
    texts: seq<string>,
    metas: seq<Metadata>,
    similarity: string -> seq<Score>)

  /** The retriever was built from one list of documents, and the
      similarity row has one entry per document. */
  ghost predicate ValidTfIdf(ix: TfIdfRetriever) {
    && |ix.texts| == |ix.metas|
    && forall q :: |ix.similarity(q)| == |ix.texts|
  }

  /** The document returned for corpus entry `i` with score `s`: the
      entry's metadata with `"score"` added, and the score itself. */
  function Scored(texts: seq<string>, metas: seq<Metadata>, i: nat, s: Score): (d: RetrievedDocument)
    requires i < |texts| && i < |metas|
    ensures d.score == Some(s) && "score" in d.metadata && d.metadata["score"] == Num(s)
    ensures d.pageContent == texts[i]
    ensures forall key :: key in metas[i] && key != "score" ==> key in d.metadata && d.metadata[key] == metas[i][key]
  {
    RetrievedDocument(texts[i], metas[i]["score" := Num(s)], Some(s))
  }

  /** The documents for the corpus positions `order`, in that order. */
  function ScoredAll(texts: seq<string>, metas: seq<Metadata>, sims: seq<Score>, order: seq<nat>): (docs: seq<RetrievedDocument>)
    requires |texts| == |metas| == |sims|
    requires forall p :: 0 <= p < |order| ==> order[p] < |texts|
    ensures |docs| == |order|
    ensures forall p :: 0 <= p < |docs| ==> docs[p] == Scored(texts, metas, order[p], sims[order[p]])
  {
    seq(|order|, p requires 0 <= p < |order| => Scored(texts, metas, order[p], sims[order[p]]))
  }

  /** Every position of a ranking of `sims` is a corpus position. */
  lemma RankOrderInRange(sims: seq<Score>)
    ensures forall p :: 0 <= p < |RankOrder(sims)| ==> RankOrder(sims)[p] < |sims|
  {
    var order := RankOrder(sims);
    forall p | 0 <= p < |order|
      ensures order[p] < |sims|
    {
      assert order[p] in multiset(Range(|sims|));
    }
  }

  /** `TfIdfRetriever.get_relevant_documents`: nothing for an empty query;
      otherwise the whole corpus, ranked by similarity to the query. */
  function TfIdfRetrieve(ix: TfIdfRetriever, query: string): (docs: seq<RetrievedDocument>)
    requires ValidTfIdf(ix)
    ensures query == [] ==> docs == []
    ensures query != [] ==>
              var sims := ix.similarity(query);
              && |docs| == |ix.texts|
              && (forall p :: 0 <= p < |docs| ==> RankOrder(sims)[p] < |ix.texts|)
              && docs == ScoredAll(ix.texts, ix.metas, sims, RankOrder(sims))
    ensures forall p, q :: 0 <= p < q < |docs| ==> docs[p].score.value >= docs[q].score.value
  {
    if query == [] then []
    else
      var sims := ix.similarity(query);
      var order := RankOrder(sims);
      RankOrderInRange(sims);
      var docs := ScoredAll(ix.texts, ix.metas, sims, order);
      assert forall p, q :: 0 <= p < q < |docs| ==> docs[p].score.value >= docs[q].score.value by {
        forall p, q | 0 <= p < q < |docs|
          ensures docs[p].score.value >= docs[q].score.value
        {
          assert Before(sims, order[p], order[q]);
        }
      }
      docs
  }

  /** Every corpus entry is returned exactly once for a non-empty query,
      and entries of equal score keep their corpus order. */
  lemma TfIdfReturnsCorpusOnce(ix: TfIdfRetriever, query: string, i: nat)
    requires ValidTfIdf(ix) && query != [] && i < |ix.texts|
    ensures exists p :: 0 <= p < |TfIdfRetrieve(ix, query)| &&
              TfIdfRetrieve(ix, query)[p] == Scored(ix.texts, ix.metas, i, ix.similarity(query)[i])
  {
    var sims := ix.similarity(query);
    var order := RankOrder(sims);
    var docs := TfIdfRetrieve(ix, query);
    RankOrderCoversCorpus(sims);
    assert i in order;
    var p :| 0 <= p < |order| && order[p] == i;
    assert docs[p] == Scored(ix.texts, ix.metas, i, sims[i]);
  }

  // ---------------------------------------------------------------------
  // FAISS retrieval
  // ---------------------------------------------------------------------

  /** One slot of a nearest-neighbour search: a corpus position, or `-1`
      for an empty slot, and its inner-product score. */
  datatype Hit = Hit(index: int, score: Score)

  /** A FAISS retriever: the corpus, and the index search returning `k`
      slots for a query. */
  datatype FaissRetriever = FaissRetriever(
    texts: seq<string>,
    metas: seq<Metadata>,
    search: (string, nat) -> seq<Hit>)

  /** The search fills exactly `k` slots, each empty or a corpus position. */
  ghost predicate ValidFaiss(ix: FaissRetriever) {
    && |ix.texts| == |ix.metas|
    && (forall q, k :: |ix.search(q, k)| == k)
    && (forall q, k, p :: 0 <= p < |ix.search(q, k)| ==> ix.search(q, k)[p].index < |ix.texts|)
  }

  /** The filled slots, in search order: the loop's `if i < 0: continue`
      skips exactly the empty slots. */
  function FilledSlots(hits: seq<Hit>): (r: seq<Hit>)
    ensures |r| <= |hits|
    ensures forall p :: 0 <= p < |r| ==> r[p].index >= 0 && r[p] in hits
    ensures forall p :: 0 <= p < |hits| && hits[p].index >= 0 ==> hits[p] in r
    ensures (forall p :: 0 <= p < |hits| ==> hits[p].index >= 0) ==> r == hits
    ensures (forall p :: 0 <= p < |hits| ==> hits[p].index < 0) ==> r == []
  {
    if hits == [] then []
    else if hits[0].index < 0 then FilledSlots(hits[1..])
    else [hits[0]] + FilledSlots(hits[1..])
  }

  /** One slot is kept exactly when it is filled. */
  lemma FilledSlotsOne(h: Hit)
    ensures FilledSlots([h]) == if h.index >= 0 then [h] else []
  {
    assert [h][1..] == [];
  }

  /** Filtering the slots of two consecutive result lists is filtering each
      and concatenating: together with `FilledSlotsOne` this fixes which
      slots survive and in what order. */
  lemma {:induction false} FilledSlotsAppend(a: seq<Hit>, b: seq<Hit>)
    ensures FilledSlots(a + b) == FilledSlots(a) + FilledSlots(b)
  {
    if a == [] {
      assert a + b == b;
    } else {
      assert (a + b)[0] == a[0];
      assert (a + b)[1..] == a[1..] + b;
      FilledSlotsAppend(a[1..], b);
    }
  }

  /** The search slots `k` asks for: fifty, or the corpus size if smaller. */
  function SearchWidth(n: nat): (k: nat)
    ensures k <= 50 && k <= n
    ensures k == 50 || k == n
  {
    if n < 50 then n else 50
  }

  /** `FaissRetriever.get_relevant_documents`: nothing for an empty query;
      otherwise one document per filled slot of a search for
      `min(50, n)` slots, in search order. */
  function FaissRetrieve(ix: FaissRetriever, query: string): (docs: seq<RetrievedDocument>)
    requires ValidFaiss(ix)
    ensures query == [] ==> docs == []
    ensures |docs| <= SearchWidth(|ix.texts|)
    ensures query != [] ==>
              var kept := FilledSlots(ix.search(query, SearchWidth(|ix.texts|)));
              && |docs| == |kept|
              && forall p :: 0 <= p < |docs| ==>
                   0 <= kept[p].index < |ix.texts| &&
                   docs[p] == Scored(ix.texts, ix.metas, kept[p].index, kept[p].score)
    ensures query != [] ==>
              var hits := ix.search(query, SearchWidth(|ix.texts|));
              forall p :: 0 <= p < |hits| && hits[p].index >= 0 ==>
                Scored(ix.texts, ix.metas, hits[p].index, hits[p].score) in docs
  {
    if query == [] then []
    else
      var hits := ix.search(query, SearchWidth(|ix.texts|));
      ScoredSlotsCover(ix.texts, ix.metas, hits);
      ScoredSlots(ix.texts, ix.metas, hits)
  }

  /** The kept slots of a search whose slots lie below `n` are corpus
      positions. */
  lemma FilledInRange(hits: seq<Hit>, n: nat)
    requires forall p :: 0 <= p < |hits| ==> hits[p].index < n
    ensures forall p :: 0 <= p < |FilledSlots(hits)| ==> 0 <= FilledSlots(hits)[p].index < n
  {
    var kept := FilledSlots(hits);
    forall p | 0 <= p < |kept|
      ensures 0 <= kept[p].index < n
    {
      var j :| 0 <= j < |hits| && hits[j] == kept[p];
    }
  }

  /** One scored document per kept slot, in slot order. */
  function ScoredSlots(texts: seq<string>, metas: seq<Metadata>, hits: seq<Hit>): (docs: seq<RetrievedDocument>)
    requires |texts| == |metas|
    requires forall p :: 0 <= p < |hits| ==> hits[p].index < |texts|
    ensures
      var kept := FilledSlots(hits);
      && |docs| == |kept|
      && forall p :: 0 <= p < |docs| ==>
           0 <= kept[p].index < |texts| &&
           docs[p] == Scored(texts, metas, kept[p].index, kept[p].score)
  {
    FilledInRange(hits, |texts|);
    var kept := FilledSlots(hits);
    seq(|kept|, p requires 0 <= p < |kept| => Scored(texts, metas, kept[p].index, kept[p].score))
  }

  /** Every filled slot's document is among the documents of the kept
      slots. */
  lemma ScoredSlotsCover(texts: seq<string>, metas: seq<Metadata>, hits: seq<Hit>)
    requires |texts| == |metas|
    requires forall p :: 0 <= p < |hits| ==> hits[p].index < |texts|
    ensures forall p :: 0 <= p < |hits| && hits[p].index >= 0 ==>
              Scored(texts, metas, hits[p].index, hits[p].score) in ScoredSlots(texts, metas, hits)
  {
    var kept := FilledSlots(hits);
    var docs := ScoredSlots(texts, metas, hits);
    forall p | 0 <= p < |hits| && hits[p].index >= 0
      ensures Scored(texts, metas, hits[p].index, hits[p].score) in docs
    {
      var j :| 0 <= j < |kept| && kept[j] == hits[p];
      assert docs[j] == Scored(texts, metas, hits[p].index, hits[p].score);
    }
  }

  // ---------------------------------------------------------------------
  // Loading the corpus
  // ---------------------------------------------------------------------

  /** A CSV file as `pd.read_csv` returns it, with its base name. */
  datatype CsvFile = CsvFile(name: string, columns: set<string>, rows: seq<Row>)

  /** The three files looked for, in this order. */
  const CsvCandidates: seq<string> :=
    ["preprocessed_reviews_yes24.csv", "preprocessed_reviews_kyobo.csv", "preprocessed_reviews_aladin.csv"]

  /** `float(x)` on a string cell: the number in tenths, or `None` when it
      raises. */
  type FloatParse = string -> Option<int>

  /** The text column: `cleaned_text` when present, otherwise `text`. */
  function TextColumn(f: CsvFile): (c: Option<string>)
    ensures c.Some? <==> "cleaned_text" in f.columns || "text" in f.columns
    ensures c.Some? ==> c.value in f.columns
    ensures "cleaned_text" in f.columns ==> c == Some("cleaned_text")
  {
    if "cleaned_text" in f.columns then Some("cleaned_text")
    else if "text" in f.columns then Some("text")
    else None
  }

  /** The text of row `i`: the cell as a string, `""` when missing. */
  function RowText(f: CsvFile, textCol: string, i: nat): string
    requires i < |f.rows|
  {
    var v := Get(f.rows[i], textCol);
    if v.Null? then [] else AsStr(v)
  }

  /** The `rating` entry of row `i`: absent without a non-missing `score`,
      a failure when `float` raises on it. */
  function Rating(f: CsvFile, i: nat, toFloat: FloatParse): (r: Result<Option<MetaValue>, string>)
    requires i < |f.rows|
    ensures (r.Success? && r.value.Some?) <==>
              ("score" in f.columns && Get(f.rows[i], "score") != Null &&
               (Get(f.rows[i], "score").Str? ==> toFloat(Get(f.rows[i], "score").s).Some?))
    ensures r.Failure? <==> "score" in f.columns && Get(f.rows[i], "score").Str? && toFloat(Get(f.rows[i], "score").s).None?
  {
    if "score" !in f.columns then Success(None)
    else match Get(f.rows[i], "score")
      case Null => Success(None)
      case Number(t) => Success(Some(Num(t)))
      case Str(s) =>
        match toFloat(s)
        case Some(t) => Success(Some(Num(t)))
        case None => Failure("could not convert string to float: " + s)
  }

  /** The metadata of row `i`: the file name and the row position always,
      the date and the rating when the row has them. */
  function RowMeta(f: CsvFile, i: nat, rating: Option<MetaValue>): (meta: Metadata)
    requires i < |f.rows|
    ensures "source" in meta && meta["source"] == Text(f.name)
    ensures "row_index" in meta && meta["row_index"] == Int(i)
    ensures "date" in meta <==> "date" in f.columns && Get(f.rows[i], "date") != Null
    ensures "date" in meta ==> meta["date"] == Text(AsStr(Get(f.rows[i], "date")))
    ensures "rating" in meta <==> rating.Some?
    ensures "rating" in meta ==> meta["rating"] == rating.value
    ensures meta.Keys <= {"source", "row_index", "date", "rating"}
  {
    var base := map["source" := Text(f.name), "row_index" := Int(i)];
    var withDate :=
      if "date" in f.columns && Get(f.rows[i], "date") != Null
      then base["date" := Text(AsStr(Get(f.rows[i], "date")))]
      else base;
    if rating.Some? then withDate["rating" := rating.value] else withDate
  }

  /** The documents of rows `i ..` of one file. Rows with empty text are
      skipped; a rating that `float` cannot read raises, which abandons the
      rest of the file but keeps the documents already collected. */
  function FileDocs(f: CsvFile, textCol: string, i: nat, toFloat: FloatParse): (docs: seq<RetrievedDocument>)
    requires i <= |f.rows|
    decreases |f.rows| - i
    ensures forall p :: 0 <= p < |docs| ==>
              && docs[p].pageContent != []
              && docs[p].score.None?
              && "row_index" in docs[p].metadata && docs[p].metadata["row_index"].Int?
              && i <= docs[p].metadata["row_index"].i < |f.rows|
              && var j := docs[p].metadata["row_index"].i;
                 && docs[p].pageContent == RowText(f, textCol, j)
                 && Rating(f, j, toFloat).Success?
                 && docs[p].metadata == RowMeta(f, j, Rating(f, j, toFloat).value)
    ensures forall p, q :: 0 <= p < q < |docs| ==>
              docs[p].metadata["row_index"].i < docs[q].metadata["row_index"].i
  {
    if i == |f.rows| then []
    else
      var text := RowText(f, textCol, i);
      if text == [] then FileDocs(f, textCol, i + 1, toFloat)
      else match Rating(f, i, toFloat)
        case Failure(_) => []
        case Success(rating) =>
          [RetrievedDocument(text, RowMeta(f, i, rating), None)] + FileDocs(f, textCol, i + 1, toFloat)
  }

  /** One step of `FileDocs` on a row whose rating can be read. */
  lemma FileDocsStep(f: CsvFile, textCol: string, i: nat, toFloat: FloatParse)
    requires i < |f.rows| && Rating(f, i, toFloat).Success?
    ensures FileDocs(f, textCol, i, toFloat) ==
              if RowText(f, textCol, i) == [] then FileDocs(f, textCol, i + 1, toFloat)
              else [RetrievedDocument(RowText(f, textCol, i), RowMeta(f, i, Rating(f, i, toFloat).value), None)]
                   + FileDocs(f, textCol, i + 1, toFloat)
  {
  }

  /** Document `d` came from row `j`. */
  predicate FromRow(d: RetrievedDocument, j: nat) {
    "row_index" in d.metadata && d.metadata["row_index"] == Int(j)
  }

  /** When every rating can be read, every row with text becomes a
      document. */
  lemma {:induction false} FileDocsComplete(f: CsvFile, textCol: string, i: nat, toFloat: FloatParse, j: nat)
    requires i <= j < |f.rows|
    requires forall k :: i <= k < |f.rows| ==> Rating(f, k, toFloat).Success?
    requires RowText(f, textCol, j) != []
    ensures HasRow(FileDocs(f, textCol, i, toFloat), j)
    decreases |f.rows| - i
  {
    FileDocsStep(f, textCol, i, toFloat);
    var rest := FileDocs(f, textCol, i + 1, toFloat);
    var text := RowText(f, textCol, i);
    var meta := RowMeta(f, i, Rating(f, i, toFloat).value);
    if i == j {
      assert FromRow(RetrievedDocument(text, meta, None), j);
      ConsHasRow(RetrievedDocument(text, meta, None), rest, j);
    } else {
      FileDocsComplete(f, textCol, i + 1, toFloat, j);
      if text != [] {
        ConsHasRow(RetrievedDocument(text, meta, None), rest, j);
      }
    }
  }

  /** Some document of `docs` came from row `j`. */
  predicate HasRow(docs: seq<RetrievedDocument>, j: nat) {
    exists p :: 0 <= p < |docs| && FromRow(docs[p], j)
  }

  /** A document in front keeps the rows already present and adds its own. */
  lemma ConsHasRow(head: RetrievedDocument, rest: seq<RetrievedDocument>, j: nat)
    requires FromRow(head, j) || HasRow(rest, j)
    ensures HasRow([head] + rest, j)
  {
    var docs := [head] + rest;
    if FromRow(head, j) {
      assert FromRow(docs[0], j);
    } else {
      var p :| 0 <= p < |rest| && FromRow(rest[p], j);
      assert FromRow(docs[p + 1], j);
    }
  }

  /** The documents of one file, or none without a text column. */
  function CsvDocs(f: CsvFile, toFloat: FloatParse): (docs: seq<RetrievedDocument>)
    ensures TextColumn(f).None? ==> docs == []
    ensures TextColumn(f).Some? ==> docs == FileDocs(f, TextColumn(f).value, 0, toFloat)
  {
    match TextColumn(f)
    case None => []
    case Some(c) => FileDocs(f, c, 0, toFloat)
  }

  /** A corpus document: non-empty text, no score, and metadata naming
      its file and row. */
  predicate Tagged(d: RetrievedDocument) {
    d.pageContent != [] && d.score.None? && "source" in d.metadata && "row_index" in d.metadata
  }

  /** `_load_review_texts`: the documents of the files that exist and can
      be read, file after file. `open` gives the parsed file for a name, or
      `None` when it is missing or `read_csv` raises. */
  function LoadReviewTexts(open: string -> Option<CsvFile>, toFloat: FloatParse): (docs: seq<RetrievedDocument>)
    ensures forall p :: 0 <= p < |docs| ==> Tagged(docs[p])
    ensures docs == OpenDocs(CsvCandidates[0], open, toFloat)
                    + OpenDocs(CsvCandidates[1], open, toFloat)
                    + OpenDocs(CsvCandidates[2], open, toFloat)
  {
    LoadThree(CsvCandidates, open, toFloat);
    LoadFiles(CsvCandidates, open, toFloat)
  }

  /** Three files load one after the other. */
  lemma LoadThree(names: seq<string>, open: string -> Option<CsvFile>, toFloat: FloatParse)
    requires |names| == 3
    ensures LoadFiles(names, open, toFloat) ==
            OpenDocs(names[0], open, toFloat) + OpenDocs(names[1], open, toFloat) + OpenDocs(names[2], open, toFloat)
  {
    var x, y, z := OpenDocs(names[0], open, toFloat), OpenDocs(names[1], open, toFloat), OpenDocs(names[2], open, toFloat);
    assert LoadFiles(names[2..][1..], open, toFloat) == [];
    assert LoadFiles(names[2..], open, toFloat) == z + [];
    assert names[1..][1..] == names[2..];
    assert LoadFiles(names[1..], open, toFloat) == y + z;
    assert LoadFiles(names, open, toFloat) == x + (y + z);
  }

  /** Every document of a file names the file and the row. */
  lemma CsvDocsTagged(f: CsvFile, toFloat: FloatParse)
    ensures forall p :: 0 <= p < |CsvDocs(f, toFloat)| ==> Tagged(CsvDocs(f, toFloat)[p])
  {
    var docs := CsvDocs(f, toFloat);
    if TextColumn(f).Some? {
      forall p | 0 <= p < |docs|
        ensures Tagged(docs[p])
      {
        var j := docs[p].metadata["row_index"].i;
        assert docs[p].metadata == RowMeta(f, j, Rating(f, j, toFloat).value);
      }
    }
  }

  /** The documents of one named file, none when it cannot be opened. */
  function OpenDocs(name: string, open: string -> Option<CsvFile>, toFloat: FloatParse): (docs: seq<RetrievedDocument>)
    ensures open(name).None? ==> docs == []
    ensures forall p :: 0 <= p < |docs| ==> Tagged(docs[p])
  {
    match open(name)
    case None => []
    case Some(f) => CsvDocsTagged(f, toFloat); CsvDocs(f, toFloat)
  }

  /** Concatenation keeps every document tagged. */
  lemma TaggedAppend(a: seq<RetrievedDocument>, b: seq<RetrievedDocument>)
    requires forall p :: 0 <= p < |a| ==> Tagged(a[p])
    requires forall p :: 0 <= p < |b| ==> Tagged(b[p])
    ensures forall p :: 0 <= p < |a + b| ==> Tagged((a + b)[p])
  {
    forall p | 0 <= p < |a + b|
      ensures Tagged((a + b)[p])
    {
      if p < |a| {
        assert (a + b)[p] == a[p];
      } else {
        assert (a + b)[p] == b[p - |a|];
      }
    }
  }

  /** The documents of the files `names`, in that order. */
  function LoadFiles(names: seq<string>, open: string -> Option<CsvFile>, toFloat: FloatParse): (docs: seq<RetrievedDocument>)
    ensures forall p :: 0 <= p < |docs| ==> Tagged(docs[p])
  {
    if names == [] then []
    else
      var here := OpenDocs(names[0], open, toFloat);
      var rest := LoadFiles(names[1..], open, toFloat);
      TaggedAppend(here, rest);
      here + rest
  }
}
