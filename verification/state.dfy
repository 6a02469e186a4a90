/** `ChatState` of st_app/utils/state.py: an append-only message log, an
    intent log, RAG bookkeeping fields, a reset operation and a bounded
    textual view of the recent history. */
module State {
  import opened Wrappers
  import opened Strings
  import opened Records

  /** One entry of `intent_history`; the confidence is kept in hundredths. */
  datatype IntentRecord = IntentRecord(intent: string, confidence: int, reason: string)

  datatype ChatState = ChatState(
    messages: seq<Message>,
    currentNode: string,
    intentHistory: seq<IntentRecord>,
    k: int,
    lastRoute: Option<string>,
    citations: seq<Citation>,
    error: Option<ErrorRecord>)

  const ChatNodeName: string := "chat"
  const DefaultK: int := 4

  /** How many recent messages the history views show. */
  const HistoryWindow: nat := 10

  /** The dataclass defaults. */
  function Fresh(): (s: ChatState)
    ensures s.messages == [] && s.intentHistory == [] && s.citations == []
    ensures s.currentNode == "chat" && s.k == 4
    ensures s.lastRoute.None? && s.error.None?
  {
    ChatState([], ChatNodeName, [], DefaultK, None, [], None)
  }

  /** `add_message`: one `{role, content}` record at the end of the log. */
  function AddMessage(s: ChatState, role: string, content: string): (t: ChatState)
    ensures |t.messages| == |s.messages| + 1
    ensures t.messages[..|s.messages|] == s.messages
    ensures t.messages[|s.messages|].role == role && t.messages[|s.messages|].content == content
    ensures t.(messages := s.messages) == s
  {
    s.(messages := s.messages + [Message(role, content, NoMeta)])
  }

  /** `add_intent`: one record at the end of `intent_history`. */
  function AddIntent(s: ChatState, intent: string, confidence: int, reason: string): (t: ChatState)
    ensures |t.intentHistory| == |s.intentHistory| + 1
    ensures t.intentHistory[..|s.intentHistory|] == s.intentHistory
    ensures t.intentHistory[|s.intentHistory|] == IntentRecord(intent, confidence, reason)
    ensures t.(intentHistory := s.intentHistory) == s
  {
    s.(intentHistory := s.intentHistory + [IntentRecord(intent, confidence, reason)])
  }

  /** Index `j` holds the latest message whose role is `user`, whatever
      its content. */
  predicate IsLatestUser(messages: seq<Message>, j: int) {
    && 0 <= j < |messages|
    && messages[j].role == UserRole
    && forall k :: j < k < |messages| ==> messages[k].role != UserRole
  }

  /** `get_last_user_message`: the content of the latest `user` message,
      neither stripped nor required to be non-empty, or `""`. */
  function GetLastUserMessage(s: ChatState): (q: string)
    ensures forall j :: IsLatestUser(s.messages, j) ==> q == s.messages[j].content
    ensures (forall k :: 0 <= k < |s.messages| ==> s.messages[k].role != UserRole) ==> q == []
  {
    LastContentOfRole(s.messages)
  }

  function LastContentOfRole(messages: seq<Message>): (q: string)
    ensures forall j :: IsLatestUser(messages, j) ==> q == messages[j].content
    ensures (forall k :: 0 <= k < |messages| ==> messages[k].role != UserRole) ==> q == []
  {
    if messages == [] then []
    else if messages[|messages| - 1].role == UserRole then
      assert IsLatestUser(messages, |messages| - 1);
      messages[|messages| - 1].content
    else
      var front := messages[..|messages| - 1];
      assert forall j :: IsLatestUser(messages, j) ==> IsLatestUser(front, j);
      LastContentOfRole(front)
  }

  /** Adding a user message makes it the one `get_last_user_message` returns. */
  lemma LastUserAfterAdd(s: ChatState, content: string)
    ensures GetLastUserMessage(AddMessage(s, UserRole, content)) == content
  {
    var t := AddMessage(s, UserRole, content);
    assert IsLatestUser(t.messages, |s.messages|);
  }

  /** Python's `xs[-10:]`: the last `HistoryWindow` messages. */
  function Window(messages: seq<Message>): (w: seq<Message>)
    ensures |w| == if |messages| < HistoryWindow then |messages| else HistoryWindow
    ensures w == messages[|messages| - |w|..]
  {
    if |messages| <= HistoryWindow then messages else messages[|messages| - HistoryWindow..]
  }

  /** The speaker label of the textual history. */
  function Speaker(role: string): string {
    if role == UserRole then "사용자" else "어시스턴트"
  }

  function HistoryLine(m: Message): string {
    Speaker(m.role) + ": " + m.content
  }

  function HistoryLinesOf(window: seq<Message>): (lines: seq<string>)
    ensures |lines| == |window|
    ensures forall i :: 0 <= i < |window| ==> lines[i] == HistoryLine(window[i])
  {
    if window == [] then [] else [HistoryLine(window[0])] + HistoryLinesOf(window[1..])
  }

  /** The labelled lines of `get_conversation_history`, oldest first. */
  function HistoryLines(s: ChatState): (lines: seq<string>)
    ensures |lines| == if |s.messages| < HistoryWindow then |s.messages| else HistoryWindow
  {
    HistoryLinesOf(Window(s.messages))
  }

  /** `get_conversation_history`: the lines joined with `\n`; empty
      exactly when there are no messages. */
  function GetConversationHistory(s: ChatState): (h: string)
    ensures h == [] <==> s.messages == []
  {
    var lines := HistoryLines(s);
    assert lines != [] ==> lines[0] == HistoryLine(Window(s.messages)[0]) && |lines[0]| >= 2;
    Join("\n", lines)
  }

  /** Every window message's content is a single line. */
  predicate OneLineContents(s: ChatState) {
    forall i :: 0 <= i < |Window(s.messages)| ==> NoLineBreak(Window(s.messages)[i].content)
  }

  /** Splitting the history text at its line breaks gives back the labelled
      lines, one per window message, as long as no content holds a line
      break of its own. */
  lemma HistoryReadsBack(s: ChatState)
    requires OneLineContents(s)
    ensures SplitLines(GetConversationHistory(s)) == HistoryLines(s)
  {
    var w := Window(s.messages);
    var lines := HistoryLines(s);
    forall i | 0 <= i < |lines|
      ensures NoLineBreak(lines[i])
    {
      HistoryLineOneLine(w[i]);
    }
    SplitJoinRoundTrip(lines);
  }

  lemma HistoryLineOneLine(m: Message)
    requires NoLineBreak(m.content)
    ensures NoLineBreak(HistoryLine(m)) && HistoryLine(m) != []
  {
    assert NoLineBreak(Speaker(m.role) + ": ");
    NoLineBreakConcat(Speaker(m.role) + ": ", m.content);
  }

  /** The history is a sliding window: a new message adds its line at the
      end, and once the window is full the oldest line falls out. */
  lemma {:induction false} HistorySlides(s: ChatState, role: string, content: string)
    ensures HistoryLines(AddMessage(s, role, content)) ==
            (if |s.messages| < HistoryWindow then HistoryLines(s) else HistoryLines(s)[1..])
            + [Speaker(role) + ": " + content]
  {
    var m := Message(role, content, NoMeta);
    var w := Window(s.messages);
    WindowAppend(s.messages, m);
    if |s.messages| < HistoryWindow {
      HistoryLinesAppend(w, m);
    } else {
      HistoryLinesAppend(w[1..], m);
      HistoryLinesTail(w);
    }
  }

  lemma WindowAppend(messages: seq<Message>, m: Message)
    ensures Window(messages + [m]) ==
            (if |messages| < HistoryWindow then Window(messages) else Window(messages)[1..]) + [m]
  {
    var w := Window(messages);
    var w' := Window(messages + [m]);
    var expected := (if |messages| < HistoryWindow then w else w[1..]) + [m];
    assert |w'| == |expected|;
    forall i | 0 <= i < |w'|
      ensures w'[i] == expected[i]
    {
    }
  }

  lemma HistoryLinesAppend(w: seq<Message>, m: Message)
    ensures HistoryLinesOf(w + [m]) == HistoryLinesOf(w) + [HistoryLine(m)]
  {
    var lhs := HistoryLinesOf(w + [m]);
    var rhs := HistoryLinesOf(w) + [HistoryLine(m)];
    assert |lhs| == |rhs|;
    forall i | 0 <= i < |lhs|
      ensures lhs[i] == rhs[i]
    {
      assert (w + [m])[i] == if i < |w| then w[i] else m;
    }
  }

  lemma HistoryLinesTail(w: seq<Message>)
    requires w != []
    ensures HistoryLinesOf(w[1..]) == HistoryLinesOf(w)[1..]
  {
  }

  /** `reset`: clears the logs, citations, error and route; keeps `k`. */
  function Reset(s: ChatState): (t: ChatState)
    ensures t.messages == [] && t.intentHistory == [] && t.citations == []
    ensures t.currentNode == "chat" && t.error.None? && t.lastRoute.None?
    ensures t.k == s.k
    ensures t == Fresh().(k := s.k)
  {
    ChatState([], ChatNodeName, [], s.k, None, [], None)
  }

  /** `to_dict`: the dictionary handed to the review composer; it exposes
      messages, k, last_route, citations and error, and nothing else. */
  function ToDict(s: ChatState): (d: TurnState)
    ensures d.messages == s.messages && d.k == Some(s.k)
    ensures d.lastRoute == s.lastRoute && d.citations == s.citations && d.error == s.error
  {
    TurnState(s.messages, Some(s.k), s.lastRoute, s.citations, s.error)
  }

  /** `get_last_user_message` of the state and the router's question agree
      when the latest user message is non-empty and has no surrounding
      whitespace. */
  lemma QuestionAgreesWithState(s: ChatState)
    requires forall j :: IsLatestUser(s.messages, j) ==>
               s.messages[j].content != [] && Strip(s.messages[j].content) == s.messages[j].content
    ensures LastUserMessage(ToDict(s).messages) == GetLastUserMessage(s)
  {
    QuestionAgrees(s.messages);
  }

  lemma {:induction false} QuestionAgrees(messages: seq<Message>)
    requires forall j :: IsLatestUser(messages, j) ==>
               messages[j].content != [] && Strip(messages[j].content) == messages[j].content
    ensures LastUserMessage(messages) == LastContentOfRole(messages)
  {
    if messages != [] {
      var n := |messages| - 1;
      if messages[n].role == UserRole {
        assert IsLatestUser(messages, n);
        assert IsUserTurn(messages[n]);
      } else {
        var front := messages[..n];
        LatestUserOfFront(messages);
        QuestionAgrees(front);
        QuestionSkipsLast(messages);
      }
    }
  }

  /** Below a trailing non-user message, the latest user message of the
      front is the latest of the whole log. */
  lemma LatestUserOfFront(messages: seq<Message>)
    requires messages != [] && messages[|messages| - 1].role != UserRole
    ensures forall j :: IsLatestUser(messages[..|messages| - 1], j) ==> IsLatestUser(messages, j)
  {
    var n := |messages| - 1;
    var front := messages[..n];
    forall j | IsLatestUser(front, j)
      ensures IsLatestUser(messages, j)
    {
      forall k | j < k < |messages|
        ensures messages[k].role != UserRole
      {
        if k < n {
          assert messages[k] == front[k];
        }
      }
    }
  }

  /** Both readings of the question ignore a trailing non-user message. */
  lemma QuestionSkipsLast(messages: seq<Message>)
    requires messages != [] && messages[|messages| - 1].role != UserRole
    ensures LastUserMessage(messages) == LastUserMessage(messages[..|messages| - 1])
    ensures LastContentOfRole(messages) == LastContentOfRole(messages[..|messages| - 1])
  {
    var front := messages[..|messages| - 1];
    var i := LatestUserIndex(front);
    assert LatestUserIndex(messages) == i;
    assert i >= 0 ==> messages[i] == front[i];
  }
}
