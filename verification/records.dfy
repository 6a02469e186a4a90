/** The values that flow between the nodes of the chat pipeline: chat
    messages, retrieved documents, citations, error records and the
    turn-level state dictionary that the graph threads from node to node. */
module Records {
  import opened Wrappers
  import opened Strings

  /** A relevance score. The retrievers produce floats whose uses are their
      order and their truthiness, so any order-preserving integer encoding
      that sends `0.0` to `0` stands for them. */
  type Score = int

  /** A metadata value: a string, an integer (`row_index`) or a number
      (`score`, `rating`). */
  datatype MetaValue = Text(text: string) | Int(i: int) | Num(n: Score)

  type Metadata = map<string, MetaValue>

  /** Python truthiness of a metadata value. */
  predicate Truthy(v: MetaValue) {
    match v
    case Text(s) => s != []
    case Int(i) => i != 0
    case Num(n) => n != 0
  }

  /** `meta.get(key)` followed by a truthiness test. */
  predicate HasTruthy(meta: Metadata, key: string) {
    key in meta && Truthy(meta[key])
  }

  /** The text an f-string substitutes for a metadata value; numbers are
      rendered through their integer encoding. */
  function Show(v: MetaValue): (r: string)
    ensures v.Text? ==> r == v.text
  {
    match v
    case Text(s) => s
    case Int(i) => IntText(i)
    case Num(n) => IntText(n)
  }

  /** `RetrievedDocument` of the retriever module: snippet text, metadata
      and an optional score. */
  datatype RetrievedDocument = RetrievedDocument(pageContent: string, metadata: Metadata, score: Option<Score>)

  /** One grounding reference produced by the review composer. */
  datatype Citation = Citation(sourceId: MetaValue, score: Option<MetaValue>, metadata: Metadata)

  /** The `error` record a composer leaves behind after a failure. */
  datatype ErrorRecord = ErrorRecord(node: string, detail: string)

  /** The optional `meta` entry of an assistant message. */
  datatype MessageMeta =
    | NoMeta
    | NodeMeta(node: string, citations: seq<Citation>)
    | NodeErrorMeta(node: string, error: string)

  datatype Message = Message(role: string, content: string, meta: MessageMeta)

  const UserRole: string := "user"
  const AssistantRole: string := "assistant"

  /** The turn-level state dictionary (the graph's `GraphState`, and what
      `ChatState.to_dict` hands to the composers). An absent list is the
      empty list; an absent or `None` scalar is `None`. */
  datatype TurnState = TurnState(
    messages: seq<Message>,
    k: Option<int>,
    lastRoute: Option<string>,
    citations: seq<Citation>,
    error: Option<ErrorRecord>)

  /** A `user` message with non-empty content (`m.get("content")` truthy). */
  predicate IsUserTurn(m: Message) {
    m.role == UserRole && m.content != []
  }

  /** Index `j` holds the latest user turn of `messages`. */
  predicate IsLatestUserTurn(messages: seq<Message>, j: int) {
    && 0 <= j < |messages|
    && IsUserTurn(messages[j])
    && forall k :: j < k < |messages| ==> !IsUserTurn(messages[k])
  }

  /** The position of the latest user turn, or -1 if there is none
      (the `for m in reversed(messages)` scan). */
  function LatestUserIndex(messages: seq<Message>): (j: int)
    ensures -1 <= j < |messages|
    ensures j >= 0 ==> IsLatestUserTurn(messages, j)
    ensures j < 0 ==> forall k :: 0 <= k < |messages| ==> !IsUserTurn(messages[k])
  {
    if messages == [] then -1
    else if IsUserTurn(messages[|messages| - 1]) then |messages| - 1
    else LatestUserIndex(messages[..|messages| - 1])
  }

  /** The question of the turn: the stripped content of the latest `user`
      message whose content is non-empty, or `""` if there is none. The
      router, the graph selector and the review composer all use it. */
  function LastUserMessage(messages: seq<Message>): (q: string)
    ensures forall j :: IsLatestUserTurn(messages, j) ==> q == Strip(messages[j].content)
    ensures (forall k :: 0 <= k < |messages| ==> !IsUserTurn(messages[k])) ==> q == []
  {
    var j := LatestUserIndex(messages);
    if j < 0 then [] else Strip(messages[j].content)
  }

  /** Appending a non-user message does not change the question. */
  lemma LastUserMessageSkipsAssistant(messages: seq<Message>, m: Message)
    requires m.role != UserRole
    ensures LastUserMessage(messages + [m]) == LastUserMessage(messages)
  {
    assert (messages + [m])[..|messages|] == messages;
  }
}
