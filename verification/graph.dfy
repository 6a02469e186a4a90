/** The LangGraph wiring of st_app/graph/graph.py: a passthrough router
    node, a conditional edge that picks one of three composers, and an edge
    from every composer to the end. Composers return whole states; a
    wrapper turns each result into a partial update, which the graph merges
    into its state (list fields concatenate, the other fields are
    overwritten). */
module Graph {
  import opened Wrappers
  import opened Strings
  import opened Records
  import opened Router

  datatype Node = Start | RouterNode | Composer(route: Route) | End

  /** The edges `get_graph_app` adds. */
  predicate Edge(a: Node, b: Node) {
    match a
    case Start => b == RouterNode
    case RouterNode => b.Composer?
    case Composer(_) => b == End
    case End => false
  }

  /** A run of the graph: a walk along edges from the start to the end. */
  predicate IsRun(p: seq<Node>) {
    && |p| >= 2
    && p[0] == Start
    && p[|p| - 1] == End
    && forall i :: 0 <= i < |p| - 1 ==> Edge(p[i], p[i + 1])
  }

  /** Every run visits the router and then exactly one composer: no turn
      can produce two composer answers. */
  lemma {:induction false} RunsVisitOneComposer(p: seq<Node>)
    requires IsRun(p)
    ensures |p| == 4 && p[1] == RouterNode && p[2].Composer? && p[3] == End
  {
    assert Edge(p[0], p[1]);
    assert p[1] == RouterNode;
    assert |p| > 2;
    assert Edge(p[1], p[2]);
    assert p[2].Composer?;
    assert |p| > 3;
    assert Edge(p[2], p[3]);
    assert p[3] == End;
    assert |p| > 4 ==> Edge(p[3], p[4]);
  }

  /** A node's partial update: the keys a node may set, absent keys being
      the empty list or `None`. */
  datatype Delta = Delta(
    messages: seq<Message>,
    citations: seq<Citation>,
    lastRoute: Option<string>,
    error: Option<ErrorRecord>)

  /** The update that changes nothing. */
  const NoChange: Delta := Delta([], [], None, None)

  /** LangGraph's merge of a partial update into the `GraphState`:
      `messages` and `citations` carry the `operator.add` reducer, the
      scalar keys are overwritten when present, `k` is never touched. */
  function Merge(s: TurnState, d: Delta): (t: TurnState)
    ensures |t.messages| == |s.messages| + |d.messages| && |t.citations| == |s.citations| + |d.citations|
    ensures t.messages[..|s.messages|] == s.messages && t.messages[|s.messages|..] == d.messages
    ensures t.citations[..|s.citations|] == s.citations && t.citations[|s.citations|..] == d.citations
    ensures t.k == s.k
    ensures t.lastRoute == (if d.lastRoute.Some? then d.lastRoute else s.lastRoute)
    ensures t.error == (if d.error.Some? then d.error else s.error)
  {
    TurnState(
      s.messages + d.messages,
      s.k,
      if d.lastRoute.Some? then d.lastRoute else s.lastRoute,
      s.citations + d.citations,
      if d.error.Some? then d.error else s.error)
  }

  /** Two updates in a row are one update with their lists concatenated
      and the later scalars winning. */
  function Then(d1: Delta, d2: Delta): Delta {
    Delta(
      d1.messages + d2.messages,
      d1.citations + d2.citations,
      if d2.lastRoute.Some? then d2.lastRoute else d1.lastRoute,
      if d2.error.Some? then d2.error else d1.error)
  }

  lemma MergeNoChange(s: TurnState)
    ensures Merge(s, NoChange) == s
  {
  }

  lemma {:induction false} MergeThen(s: TurnState, d1: Delta, d2: Delta)
    ensures Merge(Merge(s, d1), d2) == Merge(s, Then(d1, d2))
  {
    assert (s.messages + d1.messages) + d2.messages == s.messages + (d1.messages + d2.messages);
    assert (s.citations + d1.citations) + d2.citations == s.citations + (d1.citations + d2.citations);
  }

  /** `_router_passthrough`: the router node updates nothing. */
  function RouterPassthrough(s: TurnState): (d: Delta)
    ensures Merge(s, d) == s
  {
    MergeNoChange(s);
    NoChange
  }

  /** A composer: the whole state in, the whole state out. */
  type NodeFn = TurnState -> TurnState

  /** `_wrap_partial` as written: the last message of the composer's
      output (whether or not the composer added it), the citations when
      non-empty, a non-empty `last_route`, and the error when present. */
  function WrapPartial(out: TurnState): (d: Delta)
    ensures out.messages == [] ==> d.messages == []
    ensures out.messages != [] ==> d.messages == [out.messages[|out.messages| - 1]]
    ensures d.citations == out.citations
    ensures d.lastRoute.Some? <==> out.lastRoute.Some? && out.lastRoute.value != []
    ensures d.lastRoute.Some? ==> d.lastRoute == out.lastRoute
    ensures d.error == out.error
  {
    Delta(
      if out.messages == [] then [] else [out.messages[|out.messages| - 1]],
      out.citations,
      if out.lastRoute.Some? && out.lastRoute.value != [] then out.lastRoute else None,
      out.error)
  }

  /** A composer that leaves the state as it found it gets the turn's last
      message appended a second time (and its citations doubled): the
      wrapper cannot tell an old last message from a new one. */
  lemma WrapPartialRepeatsOldMessage(s: TurnState)
    requires s.messages != []
    ensures Merge(s, WrapPartial(s)).messages == s.messages + [s.messages[|s.messages| - 1]]
    ensures Merge(s, WrapPartial(s)).citations == s.citations + s.citations
  {
  }

  /** The concrete case: a turn holding only the question `q`, handed to
      a composer that answers in a field of its own and returns the state
      unchanged, ends with the question twice. */
  lemma WrapPartialDuplicatesQuestion(q: string)
    ensures
      var s := TurnState([Message(UserRole, q, NoMeta)], None, None, [], None);
      Merge(s, WrapPartial(s)).messages == [Message(UserRole, q, NoMeta), Message(UserRole, q, NoMeta)]
  {
  }

  /** The wrapper as its documentation describes it: only what the
      composer added is passed on — its new last message, and its citations
      when they differ from the ones it was given. */
  function WrapPartialNew(input: TurnState, out: TurnState): (d: Delta)
    ensures |out.messages| <= |input.messages| ==> d.messages == []
    ensures |out.messages| > |input.messages| ==> d.messages == [out.messages[|out.messages| - 1]]
    ensures out.citations == input.citations ==> d.citations == []
    ensures out.citations != input.citations ==> d.citations == out.citations
    ensures d.lastRoute.Some? <==> out.lastRoute.Some? && out.lastRoute.value != []
    ensures d.error == out.error
  {
    var w := WrapPartial(out);
    w.(messages := if |out.messages| > |input.messages| then w.messages else [],
       citations := if out.citations != input.citations then w.citations else [])
  }

  /** With the corrected wrapper a composer that changes nothing leaves
      the state unchanged. */
  lemma WrapPartialNewIdle(s: TurnState)
    requires s.lastRoute.Some? ==> s.lastRoute.value != []
    ensures Merge(s, WrapPartialNew(s, s)) == s
  {
  }

  /** With the corrected wrapper a composer that appends one message gets
      exactly that message appended to the graph's state. */
  lemma WrapPartialNewAppends(s: TurnState, out: TurnState, m: Message)
    requires out.messages == s.messages + [m]
    ensures Merge(s, WrapPartialNew(s, out)).messages == s.messages + [m]
  {
  }

  /** `reversed(messages)`. */
  function Reversed<T>(s: seq<T>): (r: seq<T>)
    ensures |r| == |s|
    ensures forall i :: 0 <= i < |s| ==> r[i] == s[|s| - 1 - i]
  {
    if s == [] then [] else [s[|s| - 1]] + Reversed(s[..|s| - 1])
  }

  /** The body of `_route_selector`'s loop over `reversed(messages)`: the
      first user turn met ends the loop with its stripped content; a loop
      that runs out leaves `question` at `""`. */
  function ScanForQuestion(newestFirst: seq<Message>): (q: string)
  {
    if newestFirst == [] then []
    else if IsUserTurn(newestFirst[0]) then Strip(newestFirst[0].content)
    else ScanForQuestion(newestFirst[1..])
  }

  /** `_route_selector` scans for the question inline rather than calling
      the router's `_get_last_user_message`; both find the same question. */
  lemma {:induction false} ScanFindsLastUserMessage(messages: seq<Message>)
    ensures ScanForQuestion(Reversed(messages)) == LastUserMessage(messages)
    decreases |messages|
  {
    if messages != [] {
      var n := |messages|;
      var init := messages[..n - 1];
      assert Reversed(messages)[1..] == Reversed(init);
      if !IsUserTurn(messages[n - 1]) {
        ScanFindsLastUserMessage(init);
        assert LatestUserIndex(messages) == LatestUserIndex(init);
      }
    }
  }

  /** `_route_selector`: without a question of the turn the chat composer
      is chosen whatever the model; otherwise the routing call decides, and
      its failure is the selector's failure. */
  function RouteSelector(s: TurnState, llm: Llm): (r: Result<Route, string>)
    ensures LastUserMessage(s.messages) == [] ==> r == Success(Chat)
    ensures LastUserMessage(s.messages) != [] ==>
              (r.Failure? <==> llm(RoutingPrompt(LastUserMessage(s.messages))).Failure?)
    ensures r.Failure? ==> r == Failure(llm(RoutingPrompt(LastUserMessage(s.messages))).error)
    ensures LastUserMessage(s.messages) != [] && r.Success? ==>
              r.value == DecideRoute(LastUserMessage(s.messages), llm(RoutingPrompt(LastUserMessage(s.messages))).value)
  {
    var question := ScanForQuestion(Reversed(s.messages));
    ScanFindsLastUserMessage(s.messages);
    if question == [] then Success(Chat)
    else match llm(RoutingPrompt(question))
      case Success(raw) => Success(DecideRoute(question, raw))
      case Failure(e) => Failure(e)
  }

  /** The selector and `run_graph`'s dispatch make the same choice. */
  lemma SelectorAgreesWithDispatch(s: TurnState, llm: Llm)
    ensures RouteSelector(s, llm) == Dispatch(s.messages, llm)
  {
    var q := LastUserMessage(s.messages);
    var r := RouteSelector(s, llm);
    var d := Dispatch(s.messages, llm);
    if q != [] {
      var answer := llm(RoutingPrompt(q));
      if answer.Success? {
        assert d == Success(DecideRoute(q, answer.value));
        assert r == Success(DecideRoute(q, answer.value));
      } else {
        assert d == Failure(answer.error);
        assert r == Failure(answer.error);
      }
    }
  }

  /** The outcome of one invocation of the compiled graph: the nodes
      visited and the final state. */
  datatype Outcome = Outcome(trace: seq<Node>, state: TurnState)

  /** One invocation of the compiled graph with the composers `nodes`,
      each wrapped so that only what it added reaches the state. A failing
      routing call aborts the invocation. */
  function Invoke(s: TurnState, llm: Llm, nodes: Route -> NodeFn): (r: Result<Outcome, string>)
    ensures r.Success? ==> IsRun(r.value.trace)
    ensures r.Success? <==> RouteSelector(s, llm).Success?
    ensures r.Success? ==>
              var route := RouteSelector(s, llm).value;
              && r.value.trace[2] == Composer(route)
              && r.value.state == Merge(s, WrapPartialNew(s, nodes(route)(s)))
  {
    var afterRouter := Merge(s, RouterPassthrough(s));
    assert afterRouter == s;
    match RouteSelector(afterRouter, llm)
    case Failure(e) => Failure(e)
    case Success(route) =>
      Success(Outcome(Trace(route), Merge(afterRouter, WrapPartialNew(afterRouter, nodes(route)(afterRouter)))))
  }

  /** With the corrected wrapper, a turn whose composer answers nothing
      leaves the graph's state as it was: no message is repeated and no
      citation doubled. The wrapper as written repeats the last message
      (`WrapPartialDuplicatesQuestion`). */
  lemma InvokeIdleComposer(s: TurnState, llm: Llm, nodes: Route -> NodeFn)
    requires s.lastRoute.Some? ==> s.lastRoute.value != []
    requires Invoke(s, llm, nodes).Success?
    requires nodes(RouteSelector(s, llm).value)(s) == s
    ensures Invoke(s, llm, nodes).value.state == s
  {
    WrapPartialNewIdle(s);
  }

  /** The walk through the graph when the router picks `route`. */
  function Trace(route: Route): (p: seq<Node>)
    ensures IsRun(p) && p[2] == Composer(route)
  {
    var p := [Start, RouterNode, Composer(route), End];
    assert forall i :: 0 <= i < |p| - 1 ==> Edge(p[i], p[i + 1]);
    p
  }

  /** The graph and `run_graph` pick the same composer for every state
      and every model. */
  lemma GraphAgreesWithRunGraph(s: TurnState, llm: Llm, nodes: Route -> NodeFn)
    ensures Invoke(s, llm, nodes).Success? <==> Dispatch(s.messages, llm).Success?
    ensures Invoke(s, llm, nodes).Success? ==>
              Invoke(s, llm, nodes).value.trace[2] == Composer(Dispatch(s.messages, llm).value)
  {
    SelectorAgreesWithDispatch(s, llm);
  }
}
