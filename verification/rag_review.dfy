/** The review composer of st_app/graph/nodes/rag_review_node.py: it
    retrieves review snippets for the turn's question, numbers them into a
    bounded context, asks the language model with the review prompt, and
    appends exactly one assistant message, on success and on failure
    alike. */
module RagReview {
  import opened Wrappers
  import opened Strings
  import opened Records
  import opened Prompt

  const DefaultMaxChars: int := 1400
  const DefaultK: int := 4
  const NodeName: string := "rag_review"
  const ErrorRoute: string := "rag_review:error"
  const Ellipsis: string := "..."

  /** The first of `keys` whose value in `meta` is truthy, else `default`
      (a chain of `meta.get(key) or ...`). */
  function FirstTruthy(meta: Metadata, keys: seq<string>, default: MetaValue): (v: MetaValue)
    ensures forall j ::
              (0 <= j < |keys| && HasTruthy(meta, keys[j]) && forall i :: 0 <= i < j ==> !HasTruthy(meta, keys[i]))
              ==> v == meta[keys[j]]
    ensures (forall i :: 0 <= i < |keys| ==> !HasTruthy(meta, keys[i])) ==> v == default
  {
    if keys == [] then default
    else if HasTruthy(meta, keys[0]) then meta[keys[0]]
    else FirstTruthy(meta, keys[1..], default)
  }

  /** The `SOURCE:` label of a chunk: `source`, else `file`, else `path`,
      else `unknown`. */
  function SourceLabel(meta: Metadata): (v: MetaValue)
    ensures HasTruthy(meta, "source") ==> v == meta["source"]
    ensures !HasTruthy(meta, "source") && HasTruthy(meta, "file") ==> v == meta["file"]
    ensures !HasTruthy(meta, "source") && !HasTruthy(meta, "file") && HasTruthy(meta, "path") ==> v == meta["path"]
    ensures !HasTruthy(meta, "source") && !HasTruthy(meta, "file") && !HasTruthy(meta, "path") ==> v == Text("unknown")
  {
    var keys := ["source", "file", "path"];
    assert keys[0] == "source" && keys[1] == "file" && keys[2] == "path";
    FirstTruthy(meta, keys, Text("unknown"))
  }

  /** The first line of the `i`-th chunk. */
  function ChunkLabel(i: nat): string {
    "[DOC " + Decimal(i) + "]\n"
  }

  /** The chunk for the `i`-th document (numbered from one). */
  function Chunk(i: nat, d: RetrievedDocument): string {
    ChunkLabel(i) + ("SOURCE: " + Show(SourceLabel(d.metadata)) + "\nCONTENT: " + d.pageContent + "\n")
  }

  /** `render` applied to each of `xs` with its running number, the first
      numbered `first` (an `enumerate(xs, start=first)` loop). */
  function Numbered<T>(render: (nat, T) -> string, xs: seq<T>, first: nat): (cs: seq<string>)
    ensures |cs| == |xs|
  {
    if xs == [] then [] else [render(first, xs[0])] + Numbered(render, xs[1..], first + 1)
  }

  lemma {:induction false} NumberedAppend<T>(render: (nat, T) -> string, xs: seq<T>, x: T, first: nat)
    ensures Numbered(render, xs + [x], first) == Numbered(render, xs, first) + [render(first + |xs|, x)]
    decreases |xs|
  {
    if xs != [] {
      assert (xs + [x])[1..] == xs[1..] + [x];
      NumberedAppend(render, xs[1..], x, first + 1);
    }
  }

  /** The chunks of `docs`, the first numbered `first`. */
  function Chunks(docs: seq<RetrievedDocument>, first: nat): (cs: seq<string>)
    ensures |cs| == |docs|
  {
    Numbered(Chunk, docs, first)
  }

  lemma ChunksAppend(docs: seq<RetrievedDocument>, d: RetrievedDocument, first: nat)
    ensures Chunks(docs + [d], first) == Chunks(docs, first) + [Chunk(first + |docs|, d)]
  {
    NumberedAppend(Chunk, docs, d, first);
  }

  /** The context before truncation: the chunks numbered from one, in
      retrieval order, separated by blank lines. */
  function FullContext(docs: seq<RetrievedDocument>): string {
    Join("\n\n", Chunks(docs, 1))
  }

  /** `_format_docs`: the full context, cut to `maxChars` characters with a
      trailing `...` when it is longer. */
  function FormatDocs(docs: seq<RetrievedDocument>, maxChars: int): (context: string)
    ensures |FullContext(docs)| <= maxChars ==> context == FullContext(docs)
    ensures |FullContext(docs)| > maxChars ==>
              context == Take(FullContext(docs), maxChars - 3) + Ellipsis
    ensures 3 <= maxChars ==> |context| <= maxChars
    ensures 3 <= maxChars < |FullContext(docs)| ==>
              && |context| == maxChars
              && context[..maxChars - 3] == FullContext(docs)[..maxChars - 3]
              && context[maxChars - 3..] == Ellipsis
  {
    var full := FullContext(docs);
    if |full| > maxChars then Take(full, maxChars - 3) + Ellipsis else full
  }

  /** The context of a non-empty retrieval opens with the first document's
      chunk, labelled `[DOC 1]`. */
  lemma ContextOpensWithFirstDoc(docs: seq<RetrievedDocument>)
    requires docs != []
    ensures IsPrefix(Chunk(1, docs[0]), FullContext(docs))
    ensures IsPrefix("[DOC 1]\n", Chunk(1, docs[0]))
  {
    var cs := Chunks(docs, 1);
    assert cs[0] == Chunk(1, docs[0]);
    if |cs| > 1 {
      OpensWith(cs[0], "\n\n" + Join("\n\n", cs[1..]));
    }
    FirstChunkLabelled(docs[0]);
  }

  /** The first chunk starts with the label `[DOC 1]`. */
  lemma FirstChunkLabelled(d: RetrievedDocument)
    ensures IsPrefix("[DOC 1]\n", Chunk(1, d))
  {
    assert Decimal(1) == "1";
    assert ChunkLabel(1) == "[DOC 1]\n";
    OpensWith(ChunkLabel(1), "SOURCE: " + Show(SourceLabel(d.metadata)) + "\nCONTENT: " + d.pageContent + "\n");
  }

  lemma OpensWith(a: string, b: string)
    ensures IsPrefix(a, a + b)
  {
    assert (a + b)[..|a|] == a;
  }

  /** Appending a document appends its chunk, numbered one past the
      others, after a blank line. */
  lemma FullContextAppend(docs: seq<RetrievedDocument>, d: RetrievedDocument)
    requires docs != []
    ensures FullContext(docs + [d]) == FullContext(docs) + "\n\n" + Chunk(|docs| + 1, d)
  {
    ChunksAppend(docs, d, 1);
    JoinAppend("\n\n", Chunks(docs, 1), Chunk(|docs| + 1, d));
  }

  /** The citation of one document: `source`, else `path`, else `unknown`;
      the document's own score when set and non-zero, else the metadata's
      `score` (which may be absent). */
  function CitationOf(d: RetrievedDocument): (c: Citation)
    ensures c.metadata == d.metadata
    ensures HasTruthy(d.metadata, "source") ==> c.sourceId == d.metadata["source"]
    ensures !HasTruthy(d.metadata, "source") && HasTruthy(d.metadata, "path") ==> c.sourceId == d.metadata["path"]
    ensures !HasTruthy(d.metadata, "source") && !HasTruthy(d.metadata, "path") ==> c.sourceId == Text("unknown")
    ensures d.score.Some? && d.score.value != 0 ==> c.score == Some(Num(d.score.value))
    ensures !(d.score.Some? && d.score.value != 0) && "score" in d.metadata ==> c.score == Some(d.metadata["score"])
    ensures !(d.score.Some? && d.score.value != 0) && "score" !in d.metadata ==> c.score == None
  {
    var keys := ["source", "path"];
    assert keys[0] == "source" && keys[1] == "path";
    var score :=
      if d.score.Some? && d.score.value != 0 then Some(Num(d.score.value))
      else if "score" in d.metadata then Some(d.metadata["score"])
      else None;
    Citation(FirstTruthy(d.metadata, keys, Text("unknown")), score, d.metadata)
  }

  /** `_extract_citations`: one citation per document, in order. */
  function ExtractCitations(docs: seq<RetrievedDocument>): (cites: seq<Citation>)
    ensures |cites| == |docs|
    ensures forall i :: 0 <= i < |docs| ==> cites[i] == CitationOf(docs[i])
  {
    if docs == [] then [] else [CitationOf(docs[0])] + ExtractCitations(docs[1..])
  }

  /** A retriever's `get_relevant_documents`, or the exception it raised. */
  type Retriever = string -> Result<seq<RetrievedDocument>, string>

  /** A language-model call: the answer text, or the exception raised. */
  type Llm = string -> Result<string, string>

  /** What the `try` block produces: the answer and its citations. */
  datatype Answer = Answer(text: string, citations: seq<Citation>)

  /** The documents used for a question: the retriever's list cut with
      Python's `[:k]`. */
  function UsedDocs(retrieve: Retriever, question: string, k: int): (r: Result<seq<RetrievedDocument>, string>)
    ensures retrieve(question).Failure? ==> r == Failure(retrieve(question).error)
    ensures retrieve(question).Success? ==>
              && r.Success?
              && |r.value| <= |retrieve(question).value|
              && r.value == retrieve(question).value[..|r.value|]
              && (0 <= k ==> |r.value| <= k)
  {
    match retrieve(question)
    case Failure(e) => Failure(e)
    case Success(all) => Success(Take(all, k))
  }

  /** The body of the `try` block for a non-empty question. Exceptions
      arise in this order: building the retriever, building the model,
      retrieving, calling the model. The dense retriever is never built,
      because its constructor is called with an argument it does not take;
      so `retriever` is the lexical one, or the exception its construction
      raised. */
  function Compose(question: string, k: int, retriever: Result<Retriever, string>, llm: Result<Llm, string>): (r: Result<Answer, string>)
    ensures retriever.Failure? ==> r == Failure(retriever.error)
    ensures retriever.Success? && llm.Failure? ==> r == Failure(llm.error)
    ensures r.Success? ==>
              && retriever.Success? && llm.Success?
              && var docs := UsedDocs(retriever.value, question, k);
              && docs.Success?
              && r.value.citations == ExtractCitations(docs.value)
              && llm.value(BuildReviewPrompt(question, FormatDocs(docs.value, DefaultMaxChars))) == Success(r.value.text)
  {
    match retriever
    case Failure(e) => Failure(e)
    case Success(retrieve) =>
      match llm
      case Failure(e) => Failure(e)
      case Success(model) =>
        match UsedDocs(retrieve, question, k)
        case Failure(e) => Failure(e)
        case Success(docs) =>
          var context := FormatDocs(docs, DefaultMaxChars);
          var citations := ExtractCitations(docs);
          match model(BuildReviewPrompt(question, context))
          case Failure(e) => Failure(e)
          case Success(text) => Success(Answer(text, citations))
  }

  /** The apology shown when the composer fails. */
  function ErrorText(e: string): string {
    "리뷰 RAG 처리 중 오류가 발생했어요. 사유: " + e
  }

  /** `rag_review_node`. A state without a question is returned as it is;
      otherwise exactly one assistant message is appended. On success the
      citations are replaced and the route recorded; on failure the error
      is recorded and the route marked as failed. `k` defaults to 4 when
      the state has none. */
  function RagReviewNode(state: TurnState, retriever: Result<Retriever, string>, llm: Result<Llm, string>): (r: TurnState)
    ensures LastUserMessage(state.messages) == [] ==> r == state
    ensures LastUserMessage(state.messages) != [] ==>
              && |r.messages| == |state.messages| + 1
              && r.messages[..|state.messages|] == state.messages
              && r.messages[|state.messages|].role == AssistantRole
              && r.k == state.k
    ensures LastUserMessage(state.messages) != [] ==>
              match Compose(LastUserMessage(state.messages), state.k.GetOr(DefaultK), retriever, llm)
              case Success(a) =>
                && r.messages[|state.messages|] == Message(AssistantRole, a.text, NodeMeta(NodeName, a.citations))
                && r.citations == a.citations
                && r.lastRoute == Some(NodeName)
                && r.error == state.error
              case Failure(e) =>
                && r.messages[|state.messages|] == Message(AssistantRole, ErrorText(e), NodeErrorMeta(NodeName, e))
                && r.citations == state.citations
                && r.lastRoute == Some(ErrorRoute)
                && r.error == Some(ErrorRecord(NodeName, e))
  {
    var question := LastUserMessage(state.messages);
    if question == [] then state
    else
      match Compose(question, state.k.GetOr(DefaultK), retriever, llm)
      case Success(a) =>
        state.(messages := state.messages + [Message(AssistantRole, a.text, NodeMeta(NodeName, a.citations))],
               citations := a.citations,
               lastRoute := Some(NodeName))
      case Failure(e) =>
        state.(messages := state.messages + [Message(AssistantRole, ErrorText(e), NodeErrorMeta(NodeName, e))],
               error := Some(ErrorRecord(NodeName, e)),
               lastRoute := Some(ErrorRoute))
  }

  /** On success the citations describe, in order, at most `k` documents,
      the first ones the retriever returned. */
  lemma CitationsFollowRetrieval(state: TurnState, retrieve: Retriever, llm: Result<Llm, string>)
    requires LastUserMessage(state.messages) != []
    requires RagReviewNode(state, Success(retrieve), llm).lastRoute == Some(NodeName)
    ensures
      var question := LastUserMessage(state.messages);
      var k := state.k.GetOr(DefaultK);
      var cites := RagReviewNode(state, Success(retrieve), llm).citations;
      && retrieve(question).Success?
      && |cites| <= |retrieve(question).value|
      && (0 <= k ==> |cites| <= k)
      && forall i :: 0 <= i < |cites| ==> cites[i] == CitationOf(retrieve(question).value[i])
  {
    var question := LastUserMessage(state.messages);
    var k := state.k.GetOr(DefaultK);
    assert Compose(question, k, Success(retrieve), llm).Success?;
    ComposedCitations(question, k, retrieve, llm);
  }

  /** A successful composition cites the first documents retrieved. */
  lemma ComposedCitations(question: string, k: int, retrieve: Retriever, llm: Result<Llm, string>)
    requires Compose(question, k, Success(retrieve), llm).Success?
    ensures
      var cites := Compose(question, k, Success(retrieve), llm).value.citations;
      && retrieve(question).Success?
      && |cites| <= |retrieve(question).value|
      && (0 <= k ==> |cites| <= k)
      && forall i :: 0 <= i < |cites| ==> cites[i] == CitationOf(retrieve(question).value[i])
  {
    var docs := UsedDocs(retrieve, question, k).value;
    assert forall i :: 0 <= i < |docs| ==> docs[i] == retrieve(question).value[i];
  }

  /** The prompt the model answers carries the question verbatim right
      after the fixed head. */
  lemma PromptCarriesQuestion(question: string, docs: seq<RetrievedDocument>)
    ensures
      var p := BuildReviewPrompt(question, FormatDocs(docs, DefaultMaxChars));
      p[|Head|..|Head| + |question|] == question
  {
  }

  /** Either way the composer runs, the turn grows by exactly one
      assistant message and the question stays the same. */
  lemma RagReviewKeepsQuestion(state: TurnState, retriever: Result<Retriever, string>, llm: Result<Llm, string>)
    ensures LastUserMessage(RagReviewNode(state, retriever, llm).messages) == LastUserMessage(state.messages)
  {
    var r := RagReviewNode(state, retriever, llm);
    if LastUserMessage(state.messages) != [] {
      assert r.messages == state.messages + [r.messages[|state.messages|]];
      LastUserMessageSkipsAssistant(state.messages, r.messages[|state.messages|]);
    }
  }
}
