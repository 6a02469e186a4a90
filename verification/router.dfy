/** The route decision of st_app/graph/router.py: the question goes to
    the language model once, its raw answer is normalised and scanned for
    marker substrings, and when that is inconclusive the question itself
    is scanned for keywords. `run_graph` then hands the state to exactly
    one composer. */
module Router {
  import opened Wrappers
  import opened Strings
  import opened Records

  datatype Route = Chat | SubjectInfo | RagReview {
    /** The token the graph and `last_route` use for the route. */
    function Token(): string {
      match this
      case Chat => "chat"
      case SubjectInfo => "subject_info"
      case RagReview => "rag_review"
    }
  }

  /** A language-model call: the completion text, or the exception it raised. */
  type Llm = string -> Result<string, string>

  /** Substrings of the normalised decision that select `subject_info`. */
  const SubjectMarkers: seq<string> :=
    ["subject_info", "subjectinfo", "subject", "정보", "스펙", "특징", "저자", "작가", "제조사", "소개", "설명"]

  /** Substrings of the normalised decision that select `rag_review`. */
  const ReviewMarkers: seq<string> :=
    ["rag_review", "ragreview", "rag", "review", "리뷰", "후기", "요약", "인용"]

  /** Keywords of the question fallback, checked review first. */
  const ReviewKeywords: seq<string> := ["리뷰", "후기", "요약", "인용"]
  const SubjectKeywords: seq<string> := ["정보", "스펙", "특징", "저자", "작가", "제조사", "설명", "가격"]

  /** The classification prompt sent for `question`. */
  function RoutingPrompt(question: string): (p: string)
    ensures IsPrefix(RoutingInstructions, p)
    ensures |p| == |RoutingInstructions| + |QuestionLabel| + |question| + |AnswerLabel|
    ensures p[|RoutingInstructions|..|RoutingInstructions| + |QuestionLabel|] == QuestionLabel
    ensures p[|RoutingInstructions| + |QuestionLabel|..|p| - |AnswerLabel|] == question
    ensures p[|p| - |AnswerLabel|..] == AnswerLabel
  {
    RoutingInstructions + QuestionLabel + question + AnswerLabel
  }

  const QuestionLabel: string := "질문: "
  const AnswerLabel: string := "\n답변:"

  const RoutingInstructions: string :=
    "너는 라우팅 판단자다. 사용자의 질문이 어떤 처리로 가야 할지 '정확히 하나'만 선택해라.\n"
    + "가능한 선택지(영문 토큰만 출력): chat | subject_info | rag_review\n"
    + "규칙:\n"
    + "- 대상(제품/작품/인물)의 기본 정보/스펙/설명/저자/제조사 등을 물으면 subject_info\n"
    + "- 리뷰/후기/요약/인용 등 사용자 반응을 근거로 한 답변이 필요하면 rag_review\n"
    + "- 그 외 일반 대화는 chat\n"
    + "출력 형식: 위 토큰 중 하나만 단독으로 출력 (예: rag_review)\n\n"

  predicate IsQuote(c: char) { c == '"' || c == '\'' }

  /** The characters `.strip("\"'")` removes. */
  const Quotes: set<char> := {'"', '\''}

  predicate KeptByNormalize(c: char) { c != ' ' && c != '\n' && c != '\t' }

  /** The model's answer, stripped, lower-cased, with spaces, newlines and
      tabs deleted and surrounding quote characters removed. */
  function Normalize(raw: string): (d: string)
    ensures AllChars(d, KeptByNormalize) && AllChars(d, NotUpper)
    ensures d != [] ==> !IsQuote(d[0]) && !IsQuote(d[|d| - 1])
  {
    var lowered := Lower(Strip(raw));
    assert AllChars(lowered, NotUpper);
    var cleaned := Filter(lowered, KeptByNormalize);
    FilterPreserves(lowered, KeptByNormalize, NotUpper);
    var d := StripChars(cleaned, Quotes);
    StripCharsPreserves(cleaned, Quotes, KeptByNormalize);
    StripCharsPreserves(cleaned, Quotes, NotUpper);
    d
  }

  /** Only unfolds `Normalize` into its three stages, for the proofs below. */
  lemma NormalizeStages(raw: string)
    ensures Normalize(raw) == StripChars(Filter(Lower(Strip(raw)), KeptByNormalize), Quotes)
  {
  }

  /** What normalisation keeps: the stripped, lower-cased answer with its
      spaces, newlines and tabs deleted loses only quote characters at its
      two ends. */
  lemma NormalizeKeepsContent(raw: string)
    ensures exists p, q ::
              && AllChars(p, IsQuote) && AllChars(q, IsQuote)
              && Filter(Lower(Strip(raw)), KeptByNormalize) == p + Normalize(raw) + q
  {
    var cleaned := Filter(Lower(Strip(raw)), KeptByNormalize);
    NormalizeStages(raw);
    TrimParts(cleaned, Member(Quotes));
    var p, q :| cleaned == p + Normalize(raw) + q && AllChars(p, Member(Quotes)) && AllChars(q, Member(Quotes));
    QuoteMembers(p);
    QuoteMembers(q);
  }

  lemma QuoteMembers(p: string)
    requires AllChars(p, Member(Quotes))
    ensures AllChars(p, IsQuote)
  {
    forall i | 0 <= i < |p|
      ensures IsQuote(p[i])
    {
      assert Member(Quotes)(p[i]);
    }
  }

  /** A route token in any mix of cases, wrapped in quote characters and
      surrounded by whitespace, normalises to the token. */
  lemma NormalizeWrappedToken(t: string, cased: string, open: string, close: string, before: string, after: string)
    requires t != [] && AllChars(t, IsTokenChar) && Lower(cased) == t
    requires AllChars(open, IsQuote) && AllChars(close, IsQuote)
    requires AllChars(before, IsSpace) && AllChars(after, IsSpace)
    ensures Normalize(before + open + cased + close + after) == t
  {
    var raw := before + open + cased + close + after;
    var quoted := open + cased + close;
    WrappedStrip(t, cased, open, close, before, after);
    WrappedLower(t, cased, open, close);
    WrappedKept(t, open, close);
    WrappedQuotes(t, open, close);
    NormalizeStages(raw);
  }

  lemma WrappedStrip(t: string, cased: string, open: string, close: string, before: string, after: string)
    requires t != [] && AllChars(t, IsTokenChar) && Lower(cased) == t
    requires AllChars(open, IsQuote) && AllChars(close, IsQuote)
    requires AllChars(before, IsSpace) && AllChars(after, IsSpace)
    ensures Strip(before + open + cased + close + after) == open + cased + close
  {
    QuotedEnds(t, cased, open, close);
    RegroupMiddle(before, open, cased, close, after);
    StripExact(before, open + cased + close, after);
  }

  lemma RegroupMiddle(a: string, b: string, c: string, d: string, e: string)
    ensures a + b + c + d + e == a + (b + c + d) + e
  {
  }

  /** A token in any case, between quote characters, neither starts nor
      ends with whitespace. */
  lemma QuotedEnds(t: string, cased: string, open: string, close: string)
    requires t != [] && AllChars(t, IsTokenChar) && Lower(cased) == t
    requires AllChars(open, IsQuote) && AllChars(close, IsQuote)
    ensures
      var quoted := open + cased + close;
      quoted != [] && !IsSpace(quoted[0]) && !IsSpace(quoted[|quoted| - 1])
  {
    var quoted := open + cased + close;
    assert LowerChar(cased[0]) == t[0] && IsTokenChar(t[0]);
    assert LowerChar(cased[|cased| - 1]) == t[|t| - 1] && IsTokenChar(t[|t| - 1]);
    if open != [] {
      assert quoted[0] == open[0] && IsQuote(open[0]);
    } else {
      assert quoted[0] == cased[0];
    }
    if close != [] {
      assert quoted[|quoted| - 1] == close[|close| - 1] && IsQuote(close[|close| - 1]);
    } else {
      assert quoted[|quoted| - 1] == cased[|cased| - 1];
    }
  }

  lemma WrappedLower(t: string, cased: string, open: string, close: string)
    requires Lower(cased) == t
    requires AllChars(open, IsQuote) && AllChars(close, IsQuote)
    ensures Lower(open + cased + close) == open + t + close
  {
    QuotesFixed(open);
    QuotesFixed(close);
    LowerAppend(open + cased, close);
    LowerAppend(open, cased);
  }

  lemma WrappedKept(t: string, open: string, close: string)
    requires AllChars(t, IsTokenChar)
    requires AllChars(open, IsQuote) && AllChars(close, IsQuote)
    ensures Filter(open + t + close, KeptByNormalize) == open + t + close
  {
    var lowered := open + t + close;
    forall i | 0 <= i < |lowered|
      ensures KeptByNormalize(lowered[i])
    {
      if i < |open| {
        assert lowered[i] == open[i];
      } else if i < |open| + |t| {
        assert lowered[i] == t[i - |open|] && IsTokenChar(t[i - |open|]);
      } else {
        assert lowered[i] == close[i - |open| - |t|];
      }
    }
    FilterKeepsAll(lowered, KeptByNormalize);
  }

  lemma WrappedQuotes(t: string, open: string, close: string)
    requires t != [] && AllChars(t, IsTokenChar)
    requires AllChars(open, IsQuote) && AllChars(close, IsQuote)
    ensures StripChars(open + t + close, Quotes) == t
  {
    assert AllChars(open, Member(Quotes)) && AllChars(close, Member(Quotes)) by {
      assert forall i :: 0 <= i < |open| ==> IsQuote(open[i]);
      assert forall i :: 0 <= i < |close| ==> IsQuote(close[i]);
    }
    assert !Member(Quotes)(t[0]) && !Member(Quotes)(t[|t| - 1]) by {
      assert IsTokenChar(t[0]) && IsTokenChar(t[|t| - 1]);
    }
    TrimExact(open, t, close, Member(Quotes));
  }

  /** Quote characters are their own lower case. */
  lemma QuotesFixed(p: string)
    requires AllChars(p, IsQuote)
    ensures Lower(p) == p
  {
    assert forall i :: 0 <= i < |p| ==> IsQuote(p[i]) && NotUpper(p[i]);
    LowerNoop(p);
  }

  /** The characters the route tokens are spelled with. */
  predicate IsTokenChar(c: char) { 'a' <= c <= 'z' || c == '_' }

  /** Lower-case letters and `_` survive normalisation unchanged. */
  lemma NormalizeFixes(t: string)
    requires AllChars(t, IsTokenChar)
    ensures Normalize(t) == t
  {
    LowerStripFixes(t);
    FilterKeepsAll(t, KeptByNormalize);
    StripCharsNoop(t, Quotes);
    NormalizeStages(t);
  }

  lemma LowerStripFixes(t: string)
    requires AllChars(t, IsTokenChar)
    ensures Lower(Strip(t)) == t
  {
    TokenCharsNotUpper(t);
    LowerNoop(t);
    if t != [] {
      assert IsTokenChar(t[0]) && IsTokenChar(t[|t| - 1]);
    }
    StripNoop(t);
  }

  lemma TokenCharsNotUpper(t: string)
    requires AllChars(t, IsTokenChar)
    ensures forall i :: 0 <= i < |t| ==> NotUpper(t[i])
  {
    forall i | 0 <= i < |t|
      ensures NotUpper(t[i])
    {
      assert IsTokenChar(t[i]);
    }
  }

  /** One of the three exact route tokens. */
  predicate IsRouteToken(d: string) {
    d == "chat" || d == "subject_info" || d == "rag_review"
  }

  /** The route for `question`, given the model's raw answer `raw`. */
  function DecideRoute(question: string, raw: string): (r: Route)
    ensures AnyIn(SubjectMarkers, Normalize(raw)) ==> r == SubjectInfo
  {
    RouteOf(Normalize(raw), Lower(question))
  }

  /** The decision on the normalised answer `d` and the lower-cased
      question `q`. */
  function RouteOf(d: string, q: string): (r: Route)
    ensures AnyIn(SubjectMarkers, d) ==> r == SubjectInfo
  {
    if AnyIn(SubjectMarkers, d) then SubjectInfo
    else if AnyIn(ReviewMarkers, d) then RagReview
    else if IsRouteToken(d) then FromToken(d)
    else if AnyIn(ReviewKeywords, q) then RagReview
    else if AnyIn(SubjectKeywords, q) then SubjectInfo
    else Chat
  }

  function FromToken(t: string): (r: Route)
    requires IsRouteToken(t)
    ensures r.Token() == t
  {
    if t == "chat" then Chat else if t == "subject_info" then SubjectInfo else RagReview
  }

  /** Each route token other than `chat` contains a marker of its own
      route, so the exact-token branch can only produce `chat`. */
  lemma TokensCarryMarkers()
    ensures AnyIn(SubjectMarkers, "subject_info") && AnyIn(ReviewMarkers, "rag_review")
  {
    ContainsSelf("subject_info");
    ContainsSelf("rag_review");
    assert Contains("subject_info", SubjectMarkers[0]);
    assert Contains("rag_review", ReviewMarkers[0]);
  }

  /** No marker of one route occurs in another route's token. */
  lemma TokensCarryNoForeignMarkers()
    ensures !AnyIn(SubjectMarkers, "rag_review") && !AnyIn(ReviewMarkers, "chat")
    ensures !AnyIn(SubjectMarkers, "chat")
  {
    NoMarkerOfClass(SubjectMarkers, "rag_review", 's');
    NoMarkerOfClass(SubjectMarkers, "chat", 's');
    NoMarkerOfClass(ReviewMarkers, "chat", 'r');
  }

  /** Markers that each start with `lead` or a Hangul syllable do not occur
      in an ASCII text without `lead`. */
  lemma NoMarkerOfClass(markers: seq<string>, s: string, lead: char)
    requires forall i :: 0 <= i < |markers| ==> markers[i] != [] && (markers[i][0] == lead || markers[i][0] >= '\U{AC00}')
    requires forall i :: 0 <= i < |s| ==> s[i] < '\U{80}' && s[i] != lead
    ensures !AnyIn(markers, s)
  {
    forall i | 0 <= i < |markers|
      ensures !Contains(s, markers[i])
    {
      if Contains(s, markers[i]) {
        ContainsFirstChar(s, markers[i]);
      }
    }
  }

  /** A model that answers with a route token gets exactly that route,
      whatever the question says. */
  lemma TokenAnswerIsObeyed(question: string, r: Route)
    ensures DecideRoute(question, r.Token()) == r
  {
    TokenSpelling(r);
    NormalizeFixes(r.Token());
    TokenRouteOf(r, Lower(question));
  }

  /** The exact-token answer selects its own route for any question. */
  lemma TokenRouteOf(r: Route, q: string)
    ensures RouteOf(r.Token(), q) == r
  {
    match r
    case Chat =>
      assert !AnyIn(SubjectMarkers, "chat") && !AnyIn(ReviewMarkers, "chat") by {
        TokensCarryNoForeignMarkers();
      }
    case SubjectInfo =>
      assert AnyIn(SubjectMarkers, "subject_info") by {
        TokensCarryMarkers();
      }
    case RagReview =>
      assert !AnyIn(SubjectMarkers, "rag_review") && AnyIn(ReviewMarkers, "rag_review") by {
        TokensCarryMarkers();
        TokensCarryNoForeignMarkers();
      }
  }

  lemma TokenSpelling(r: Route)
    ensures AllChars(r.Token(), IsTokenChar)
  {
    var t := r.Token();
    forall i | 0 <= i < |t|
      ensures IsTokenChar(t[i])
    {
    }
  }

  /** The complete decision table of `DecideRoute`, one route at a time:
      subject markers in the decision beat review markers, an exact `chat`
      beats the question scan, and the question scan checks review keywords
      before subject keywords. */
  lemma DecideRouteTable(question: string, raw: string)
    ensures
      var d := Normalize(raw);
      var q := Lower(question);
      && (DecideRoute(question, raw) == SubjectInfo <==>
            AnyIn(SubjectMarkers, d)
            || (!AnyIn(ReviewMarkers, d) && d != "chat"
                && !AnyIn(ReviewKeywords, q) && AnyIn(SubjectKeywords, q)))
      && (DecideRoute(question, raw) == RagReview <==>
            !AnyIn(SubjectMarkers, d)
            && (AnyIn(ReviewMarkers, d) || (d != "chat" && AnyIn(ReviewKeywords, q))))
      && (DecideRoute(question, raw) == Chat <==>
            !AnyIn(SubjectMarkers, d) && !AnyIn(ReviewMarkers, d)
            && (d == "chat" || (!AnyIn(ReviewKeywords, q) && !AnyIn(SubjectKeywords, q))))
  {
    RouteOfTable(Normalize(raw), Lower(question));
  }

  lemma RouteOfTable(d: string, q: string)
    ensures
      && (RouteOf(d, q) == SubjectInfo <==>
            AnyIn(SubjectMarkers, d)
            || (!AnyIn(ReviewMarkers, d) && d != "chat"
                && !AnyIn(ReviewKeywords, q) && AnyIn(SubjectKeywords, q)))
      && (RouteOf(d, q) == RagReview <==>
            !AnyIn(SubjectMarkers, d)
            && (AnyIn(ReviewMarkers, d) || (d != "chat" && AnyIn(ReviewKeywords, q))))
      && (RouteOf(d, q) == Chat <==>
            !AnyIn(SubjectMarkers, d) && !AnyIn(ReviewMarkers, d)
            && (d == "chat" || (!AnyIn(ReviewKeywords, q) && !AnyIn(SubjectKeywords, q))))
  {
    TokensCarryMarkers();
  }

  /** `run_graph`'s choice of composer: with no question the chat composer
      runs and the model is not consulted; otherwise the model's answer
      decides, and a failing model call fails the turn. */
  function Dispatch(messages: seq<Message>, llm: Llm): (r: Result<Route, string>)
    ensures LastUserMessage(messages) == [] ==> r == Success(Chat)
    ensures LastUserMessage(messages) != [] ==>
              match llm(RoutingPrompt(LastUserMessage(messages)))
              case Success(raw) => r == Success(DecideRoute(LastUserMessage(messages), raw))
              case Failure(e) => r == Failure(e)
  {
    var question := LastUserMessage(messages);
    if question == [] then Success(Chat)
    else
      match llm(RoutingPrompt(question))
      case Success(raw) => Success(DecideRoute(question, raw))
      case Failure(e) => Failure(e)
  }

  /** `run_graph`: the state goes to exactly one composer, the one the
      dispatch chose; the composer's result is the turn's result. */
  function RunGraph(state: TurnState, llm: Llm, compose: (Route, TurnState) -> TurnState): (r: Result<TurnState, string>)
    ensures Dispatch(state.messages, llm).Success? ==>
              r == Success(compose(Dispatch(state.messages, llm).value, state))
    ensures Dispatch(state.messages, llm).Failure? ==> r.Failure?
  {
    match Dispatch(state.messages, llm)
    case Success(route) => Success(compose(route, state))
    case Failure(e) => Failure(e)
  }

  /** Without a question the turn does not depend on the model at all. */
  lemma NoQuestionNoModel(state: TurnState, llm1: Llm, llm2: Llm, compose: (Route, TurnState) -> TurnState)
    requires LastUserMessage(state.messages) == []
    ensures RunGraph(state, llm1, compose) == RunGraph(state, llm2, compose) == Success(compose(Chat, state))
  {
  }
}
