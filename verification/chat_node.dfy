/** The chat composer of st_app/graph/nodes/chat_node.py: a keyword
    intent classifier, a keyword reply chooser for when no model client is
    configured, and `ChatNode.run`, which asks a stand-in model for an
    answer followed by a one-line JSON intent record, splits the two, and
    records the turn in the conversation state. */
module ChatNode {
  import opened Wrappers
  import opened Strings
  import opened Records
  import opened State

  // ---------------------------------------------------------------------
  // Prompt messages
  // ---------------------------------------------------------------------

  /** The system prompt that opens every model conversation. */
  const SystemPrompt: string :=
    "\n당신은 한강 작가의 소설 '소년이 온다'에 대한 전문 리뷰 분석 비서입니다.\n"
    + "yes24, 알라딘, 교보문고의 실제 독자 리뷰 데이터를 바탕으로 답변합니다.\n"
    + "모르면 단정하지 말고, 필요한 경우 명확화 질문을 1개 이내로 하세요.\n"
    + "마지막 줄에 반드시 JSON 한 줄을 출력하세요.\n"
    + "스키마: {\"intent\":\"chat|subject_info|review\",\"confidence\":0~1,\"reason\":\"짧은 한국어 근거\"}\n"
    + "\n"
    + "intent 정의:\n"
    + "- subject_info: '소년이 온다' 기본정보/작가정보/줄거리/출간정보/장르/수상내역 등\n"
    + "- review: '소년이 온다' 리뷰/후기/평가/평점/독자반응/추천여부/서점별 평가 등  \n"
    + "- chat: 그 외 일반 대화/인사/잡담\n"
    + "\n"
    + "출력 형식:\n"
    + "1) 사용자 질문에 대한 답변 (2~4문장)\n"
    + "2) 마지막 줄에 의도 JSON 한 줄\n"

  /** The speaker prefix of a history line in the model conversation. */
  function RolePrefix(role: string): string {
    if role == UserRole then "User: " else "Assistant: "
  }

  function PrefixedLines(window: seq<Message>): (lines: seq<string>)
    ensures |lines| == |window|
    ensures forall i :: 0 <= i < |window| ==> lines[i] == RolePrefix(window[i].role) + window[i].content
  {
    if window == [] then [] else [RolePrefix(window[0].role) + window[0].content] + PrefixedLines(window[1..])
  }

  /** `_build_messages`: the system prompt, the last ten messages of the
      history with their speaker prefixes, and the new user text. */
  function BuildMessages(history: seq<Message>, userText: string): (ms: seq<string>)
    ensures |ms| == (if |history| < HistoryWindow then |history| else HistoryWindow) + 2
    ensures ms[0] == SystemPrompt
    ensures ms[|ms| - 1] == "User: " + userText
    ensures forall i :: 0 <= i < |Window(history)| ==>
              ms[i + 1] == RolePrefix(Window(history)[i].role) + Window(history)[i].content
  {
    Framed(SystemPrompt, PrefixedLines(Window(history)), "User: " + userText)
  }

  /** `first`, then `mid`, then `last`. */
  function Framed(first: string, mid: seq<string>, last: string): (ms: seq<string>)
    ensures |ms| == |mid| + 2
    ensures ms[0] == first && ms[|ms| - 1] == last
    ensures forall i :: 0 <= i < |mid| ==> ms[i + 1] == mid[i]
  {
    [first] + mid + [last]
  }

  /** The model conversation and the textual history show the same window
      of messages, line for line, under different speaker labels. */
  lemma BuildMessagesMatchesHistory(s: ChatState, userText: string, i: int)
    requires 0 <= i < |HistoryLines(s)|
    ensures
      var m := Window(s.messages)[i];
      && BuildMessages(s.messages, userText)[i + 1] == RolePrefix(m.role) + m.content
      && HistoryLines(s)[i] == Speaker(m.role) + ": " + m.content
  {
  }

  // ---------------------------------------------------------------------
  // The intent record and its one-line JSON form
  // ---------------------------------------------------------------------

  /** The keys of a parsed intent object; an absent key is `None`.
      Confidence is in hundredths. */
  datatype IntentFields = IntentFields(intent: Option<string>, confidence: Option<int>, reason: Option<string>)

  /** The escape `json.dumps(..., ensure_ascii=False)` writes for one
      character of a string value. */
  function EscapeChar(c: char): (r: string)
    ensures r != []
  {
    if c == '"' then "\\\""
    else if c == '\\' then "\\\\"
    else if c == '\n' then "\\n"
    else if c == '\r' then "\\r"
    else if c == '\t' then "\\t"
    else if c == '\U{0008}' then "\\b"
    else if c == '\U{000C}' then "\\f"
    else if c < ' ' then "\\u00" + [HexDigit(c as int / 16), HexDigit(c as int % 16)]
    else [c]
  }

  function HexDigit(d: nat): (c: char)
    requires d < 16
  {
    if d < 10 then DigitChar(d) else ('a' as int + d - 10) as char
  }

  function Escape(s: string): string {
    if s == [] then [] else EscapeChar(s[0]) + Escape(s[1..])
  }

  /** A JSON string literal. */
  function JsonString(s: string): string {
    "\"" + Escape(s) + "\""
  }

  /** The line breaks that `json.dumps` leaves unescaped. */
  predicate JsonLineSafe(c: char) {
    c != '\U{0085}' && c != '\U{2028}' && c != '\U{2029}'
  }

  /** The member prefixes `json.dumps` writes, key and separator. */
  const IntentKey: string := "\"intent\": "
  const ConfidenceKey: string := "\"confidence\": "
  const ReasonKey: string := "\"reason\": "

  lemma KeysOneLine()
    ensures NoLineBreak(IntentKey) && NoLineBreak(ConfidenceKey) && NoLineBreak(ReasonKey)
  {
  }

  /** The `"key": value` members, in key order, of the present keys. */
  function Members(f: IntentFields): seq<string> {
    (if f.intent.Some? then [IntentKey + JsonString(f.intent.value)] else [])
    + (if f.confidence.Some? then [ConfidenceKey + FloatText(f.confidence.value)] else [])
    + (if f.reason.Some? then [ReasonKey + JsonString(f.reason.value)] else [])
  }

  /** `json.dumps(intent_json, ensure_ascii=False)`. */
  function EncodeIntent(f: IntentFields): (r: string)
    ensures r != []
  {
    "{" + Join(", ", Members(f)) + "}"
  }

  lemma EscapeCharNoBreak(c: char)
    requires JsonLineSafe(c)
    ensures NoLineBreak(EscapeChar(c))
  {
    if c < ' ' && c != '"' && c != '\\' && c != '\n' && c != '\r' && c != '\t' && c != '\U{0008}' && c != '\U{000C}' {
      var h := [HexDigit(c as int / 16), HexDigit(c as int % 16)];
      assert NoLineBreak(h);
      NoLineBreakConcat("\\u00", h);
    }
  }

  lemma {:induction false} EscapeNoBreak(s: string)
    requires AllChars(s, JsonLineSafe)
    ensures NoLineBreak(Escape(s))
  {
    if s != [] {
      EscapeCharNoBreak(s[0]);
      EscapeNoBreak(s[1..]);
      NoLineBreakConcat(EscapeChar(s[0]), Escape(s[1..]));
    }
  }

  lemma JsonStringNoBreak(s: string)
    requires AllChars(s, JsonLineSafe)
    ensures NoLineBreak(JsonString(s))
  {
    EscapeNoBreak(s);
    NoLineBreakConcat("\"", Escape(s));
    NoLineBreakConcat("\"" + Escape(s), "\"");
  }

  lemma {:induction false} JoinNoBreak(sep: string, parts: seq<string>)
    requires NoLineBreak(sep)
    requires forall i :: 0 <= i < |parts| ==> NoLineBreak(parts[i])
    ensures NoLineBreak(Join(sep, parts))
  {
    if |parts| > 1 {
      JoinNoBreak(sep, parts[1..]);
      NoLineBreakConcat(parts[0], sep);
      NoLineBreakConcat(parts[0] + sep, Join(sep, parts[1..]));
    }
  }

  /** The string values of a record are free of the line breaks JSON
      leaves unescaped. */
  predicate LineSafe(f: IntentFields) {
    && (f.intent.Some? ==> AllChars(f.intent.value, JsonLineSafe))
    && (f.reason.Some? ==> AllChars(f.reason.value, JsonLineSafe))
  }

  /** The JSON form of a record is a single line. */
  lemma EncodeIntentOneLine(f: IntentFields)
    requires LineSafe(f)
    ensures NoLineBreak(EncodeIntent(f))
  {
    var ms := Members(f);
    MembersOneLine(f);
    JoinNoBreak(", ", ms);
    NoLineBreakConcat("{", Join(", ", ms));
    NoLineBreakConcat("{" + Join(", ", ms), "}");
  }

  /** Every member of a line-safe record is a single line. */
  lemma MembersOneLine(f: IntentFields)
    requires LineSafe(f)
    ensures forall i :: 0 <= i < |Members(f)| ==> NoLineBreak(Members(f)[i])
  {
    var a := if f.intent.Some? then [IntentKey + JsonString(f.intent.value)] else [];
    var b := if f.confidence.Some? then [ConfidenceKey + FloatText(f.confidence.value)] else [];
    var r := if f.reason.Some? then [ReasonKey + JsonString(f.reason.value)] else [];
    KeysOneLine();
    if f.intent.Some? {
      JsonStringNoBreak(f.intent.value);
      NoLineBreakConcat(IntentKey, JsonString(f.intent.value));
    }
    if f.confidence.Some? {
      NoLineBreakConcat(ConfidenceKey, FloatText(f.confidence.value));
    }
    if f.reason.Some? {
      JsonStringNoBreak(f.reason.value);
      NoLineBreakConcat(ReasonKey, JsonString(f.reason.value));
    }
    assert Members(f) == a + b + r;
    LinesAppend(a, b);
    LinesAppend(a + b, r);
  }

  /** Concatenating lists of single lines gives a list of single lines. */
  lemma LinesAppend(a: seq<string>, b: seq<string>)
    requires forall i :: 0 <= i < |a| ==> NoLineBreak(a[i])
    requires forall i :: 0 <= i < |b| ==> NoLineBreak(b[i])
    ensures forall i :: 0 <= i < |a + b| ==> NoLineBreak((a + b)[i])
  {
    forall i | 0 <= i < |a + b|
      ensures NoLineBreak((a + b)[i])
    {
      if i < |a| {
        assert (a + b)[i] == a[i];
      } else {
        assert (a + b)[i] == b[i - |a|];
      }
    }
  }

  // ---------------------------------------------------------------------
  // The stand-in model
  // ---------------------------------------------------------------------

  const StubSubjectKeywords: seq<string> :=
    ["줄거리", "저자", "한강", "작가", "출간", "정보", "장르", "🎨", "🎭", "소개", "내용", "수상", "노벨문학상"]
  const StubReviewKeywords: seq<string> :=
    ["리뷰", "후기", "평가", "평점", "반응", "📖", "추천", "감상", "의견", "yes24", "알라딘", "교보"]

  const SubjectBody: string :=
    "'소년이 온다'는 한강 작가의 2014년 작품으로, " + "5.18 광주민주화운동을 다룬 소설입니다. " + "노벨문학상 수상작가의 대표작 중 하나죠."

  const ReviewBody: string :=
    "'소년이 온다'는 yes24, 알라딘, 교보문고에서 " + "모두 높은 평점을 받고 있습니다. " + "독자들의 생생한 리뷰를 분석해 드릴게요."

  const ChatBody: string :=
    "네, '소년이 온다'에 대해 궁금한 것이 " + "있으시면 언제든 말씀해주세요!"

  /** The stand-in model's three records. */
  const SubjectRecord: IntentFields := IntentFields(Some("subject_info"), Some(85), Some("소년이 온다 기본정보 질의"))
  const ReviewRecord: IntentFields := IntentFields(Some("review"), Some(82), Some("소년이 온다 리뷰/평가 질의"))
  const ChatRecord: IntentFields := IntentFields(Some("chat"), Some(75), Some("일반 대화"))

  /** The stand-in model's reply: an answer body and its intent record. */
  datatype StubReply = StubReply(body: string, fields: IntentFields)

  /** The stand-in model's choice on the lower-cased last message:
      subject keywords first, then review keywords, else chat. */
  function StubClassify(user: string): (r: StubReply)
    ensures AnyIn(StubSubjectKeywords, user) ==> r.fields.intent == Some("subject_info") && r.body == SubjectBody
    ensures !AnyIn(StubSubjectKeywords, user) && AnyIn(StubReviewKeywords, user) ==>
              r.fields.intent == Some("review") && r.body == ReviewBody
    ensures !AnyIn(StubSubjectKeywords, user) && !AnyIn(StubReviewKeywords, user) ==>
              r.fields.intent == Some("chat") && r.body == ChatBody
    ensures r.fields.confidence.Some? && r.fields.reason.Some?
  {
    if AnyIn(StubSubjectKeywords, user) then
      StubReply(SubjectBody, SubjectRecord)
    else if AnyIn(StubReviewKeywords, user) then
      StubReply(ReviewBody, ReviewRecord)
    else
      StubReply(ChatBody, ChatRecord)
  }

  /** `_call_llm_stub`: the body, a newline, and the JSON record. The
      conversation always holds at least the new user line. */
  function CallLlmStub(messages: seq<string>): (raw: string)
    requires messages != []
    ensures raw != []
    ensures
      var reply := StubClassify(Lower(messages[|messages| - 1]));
      SplitLines(raw) == [reply.body, EncodeIntent(reply.fields)]
  {
    var reply := StubClassify(Lower(messages[|messages| - 1]));
    StubReplyWellFormed(Lower(messages[|messages| - 1]));
    EncodeIntentOneLine(reply.fields);
    SplitLinesPair(reply.body, EncodeIntent(reply.fields));
    reply.body + "\n" + EncodeIntent(reply.fields)
  }

  /** Every stand-in reply is a single-line body without surrounding
      whitespace and a line-safe record. */
  lemma StubReplyWellFormed(user: string)
    ensures
      var r := StubClassify(user);
      && r.body != [] && NoLineBreak(r.body) && Strip(r.body) == r.body
      && LineSafe(r.fields)
  {
    StubFieldsLineSafe(user);
    if AnyIn(StubSubjectKeywords, user) {
      SubjectReplyWellFormed();
    } else if AnyIn(StubReviewKeywords, user) {
      ReviewReplyWellFormed();
    } else {
      ChatReplyWellFormed();
    }
  }

  lemma SubjectReplyWellFormed()
    ensures NoLineBreak(SubjectBody) && Strip(SubjectBody) == SubjectBody
  {
    var a, b, c := "'소년이 온다'는 한강 작가의 2014년 작품으로, ", "5.18 광주민주화운동을 다룬 소설입니다. ", "노벨문학상 수상작가의 대표작 중 하나죠.";
    PieceOneLine(a);
    PieceOneLine(b);
    PieceOneLine(c);
    PlainLine(a, b, c);
  }

  lemma ReviewReplyWellFormed()
    ensures NoLineBreak(ReviewBody) && Strip(ReviewBody) == ReviewBody
  {
    var a, b, c := "'소년이 온다'는 yes24, 알라딘, 교보문고에서 ", "모두 높은 평점을 받고 있습니다. ", "독자들의 생생한 리뷰를 분석해 드릴게요.";
    PieceOneLine(a);
    PieceOneLine(b);
    PieceOneLine(c);
    PlainLine(a, b, c);
  }

  lemma ChatReplyWellFormed()
    ensures NoLineBreak(ChatBody) && Strip(ChatBody) == ChatBody
  {
    var a, b := "네, '소년이 온다'에 대해 궁금한 것이 ", "있으시면 언제든 말씀해주세요!";
    assert NoLineBreak(a);
    assert NoLineBreak(b);
    assert NoLineBreak([]);
    PlainLine(a, b, []);
    assert a + b + [] == a + b;
  }

  /** A piece of text drawn from printable ASCII and Hangul is one line. */
  lemma PieceOneLine(s: string)
    requires forall j :: 0 <= j < |s| ==> ' ' <= s[j] <= '~' || '\U{AC00}' <= s[j] <= '\U{D7A3}'
    ensures NoLineBreak(s)
  {
  }

  /** Three line pieces, the first starting and the last ending with a
      visible character, make one line that stripping leaves alone. */
  lemma PlainLine(a: string, b: string, c: string)
    requires NoLineBreak(a) && NoLineBreak(b) && NoLineBreak(c)
    requires a != [] && !IsSpace(a[0])
    requires b + c != [] && !IsSpace((b + c)[|b + c| - 1])
    ensures NoLineBreak(a + b + c) && Strip(a + b + c) == a + b + c
  {
    OneLine3(a, b, c);
    var s := a + b + c;
    assert s[0] == a[0];
    assert s[|s| - 1] == (b + c)[|b + c| - 1];
    StripNoop(s);
  }

  /** The stand-in model's intents and reasons are line-safe. */
  lemma StubFieldsLineSafe(user: string)
    ensures LineSafe(StubClassify(user).fields)
  {
    var f := StubClassify(user).fields;
    forall i | 0 <= i < |f.intent.value|
      ensures JsonLineSafe(f.intent.value[i])
    {
    }
    forall i | 0 <= i < |f.reason.value|
      ensures JsonLineSafe(f.reason.value[i])
    {
    }
  }

  lemma OneLine3(a: string, b: string, c: string)
    requires NoLineBreak(a) && NoLineBreak(b) && NoLineBreak(c)
    ensures NoLineBreak(a + b + c)
  {
    NoLineBreakConcat(a, b);
    NoLineBreakConcat(a + b, c);
  }

  // ---------------------------------------------------------------------
  // Splitting the reply
  // ---------------------------------------------------------------------

  const NoAnswer: string := "(응답 없음)"

  /** The answer made of the body lines: joined, stripped, or the
      placeholder when nothing is left. */
  function AnswerOf(body: seq<string>): (a: string)
    ensures a != []
  {
    var joined := Strip(Join("\n", body));
    if joined == [] then NoAnswer else joined
  }

  /** `*body, last = raw.splitlines()` and the answer: a reply without any
      line fails to unpack. */
  function SplitReply(raw: string): (r: Result<(string, string), string>)
    ensures raw == [] <==> r.Failure?
    ensures r.Success? ==>
              var lines := SplitLines(raw);
              r.value == (AnswerOf(lines[..|lines| - 1]), lines[|lines| - 1])
  {
    var lines := SplitLines(raw);
    if lines == [] then Failure("not enough values to unpack (expected at least 1, got 0)")
    else Success((AnswerOf(lines[..|lines| - 1]), lines[|lines| - 1]))
  }

  /** Joining body lines and a last line and splitting again gives back
      the answer of the body lines and the last line. */
  lemma SplitReplyRoundTrip(body: seq<string>, last: string)
    requires forall i :: 0 <= i < |body| ==> NoLineBreak(body[i])
    requires NoLineBreak(last) && last != []
    ensures SplitReply(Join("\n", body + [last])) == Success((AnswerOf(body), last))
  {
    LinesAppend(body, [last]);
    SplitJoinRoundTrip(body + [last]);
    SplitReplyOfKnownLines(Join("\n", body + [last]), body, last);
  }

  lemma SplitReplyOfKnownLines(raw: string, body: seq<string>, last: string)
    requires SplitLines(raw) == body + [last]
    ensures SplitReply(raw) == Success((AnswerOf(body), last))
  {
    var lines := body + [last];
    assert lines[..|lines| - 1] == body;
  }

  lemma SplitReplyOfLines(raw: string)
    requires SplitLines(raw) != []
    ensures
      var lines := SplitLines(raw);
      SplitReply(raw) == Success((AnswerOf(lines[..|lines| - 1]), lines[|lines| - 1]))
  {
  }

  // ---------------------------------------------------------------------
  // Keyword intent analysis and the reply chooser
  // ---------------------------------------------------------------------

  const SubjectKeywords: seq<string> := ["🎨", "🎭", "책", "작품", "작가", "정보", "소개", "줄거리", "내용"]
  const ReviewKeywords: seq<string> := ["📖", "리뷰", "평가", "평점", "후기", "의견", "감상"]

  /** `min(0.9, 0.5 + 0.2·score)` in hundredths. */
  function ScoreConfidence(score: nat): (h: int)
    ensures 50 <= h <= 90
    ensures score >= 2 ==> h == 90
  {
    if 50 + 20 * score < 90 then 50 + 20 * score else 90
  }

  /** `analyze_intent`: the number of subject keywords and of review
      keywords in the message as written; any subject keyword wins. */
  function AnalyzeIntent(userMessage: string): (f: IntentFields)
    ensures f.intent.Some? && f.confidence.Some? && f.reason.Some?
    ensures f.intent.value == "subject_info" <==> AnyIn(SubjectKeywords, userMessage)
    ensures f.intent.value == "review" <==> !AnyIn(SubjectKeywords, userMessage) && AnyIn(ReviewKeywords, userMessage)
    ensures f.intent.value == "chat" <==> !AnyIn(SubjectKeywords, userMessage) && !AnyIn(ReviewKeywords, userMessage)
    ensures f.intent.value == "chat" ==> f.confidence.value == 80
    ensures f.intent.value != "chat" ==> 70 <= f.confidence.value <= 90
  {
    var subjectScore := CountIn(SubjectKeywords, userMessage);
    var reviewScore := CountIn(ReviewKeywords, userMessage);
    if subjectScore > 0 then
      IntentFields(Some("subject_info"), Some(ScoreConfidence(subjectScore)),
                   Some("책/작품 정보 관련 키워드 감지 (" + Decimal(subjectScore) + "개)"))
    else if reviewScore > 0 then
      IntentFields(Some("review"), Some(ScoreConfidence(reviewScore)),
                   Some("리뷰/평가 관련 키워드 감지 (" + Decimal(reviewScore) + "개)"))
    else
      IntentFields(Some("chat"), Some(80), Some("일반 대화로 판단"))
  }

  /** The confidence reports how many distinct keywords were found: one
      gives 0.7, two or more 0.9. */
  lemma AnalyzeIntentConfidence(userMessage: string)
    ensures
      var n := CountIn(SubjectKeywords, userMessage);
      var m := CountIn(ReviewKeywords, userMessage);
      var c := AnalyzeIntent(userMessage).confidence.value;
      && (n == 1 ==> c == 70)
      && (n >= 2 ==> c == 90)
      && (n == 0 && m == 1 ==> c == 70)
      && (n == 0 && m >= 2 ==> c == 90)
  {
  }

  /** Case does not matter: no keyword holds an ASCII letter. */
  lemma AnalyzeIntentIgnoresCase(userMessage: string)
    ensures AnalyzeIntent(Lower(userMessage)) == AnalyzeIntent(userMessage)
  {
    KeywordsLetterless(SubjectKeywords);
    KeywordsLetterless(ReviewKeywords);
    CountInLower(SubjectKeywords, userMessage);
    CountInLower(ReviewKeywords, userMessage);
  }

  lemma KeywordsLetterless(keywords: seq<string>)
    requires keywords == SubjectKeywords || keywords == ReviewKeywords
    ensures forall i :: 0 <= i < |keywords| ==> AllChars(keywords[i], NotAsciiLetter)
  {
    forall i | 0 <= i < |keywords|
      ensures AllChars(keywords[i], NotAsciiLetter)
    {
      var k := keywords[i];
      forall j | 0 <= j < |k|
        ensures NotAsciiLetter(k[j])
      {
        assert k[j] >= '\U{1000}';
      }
    }
  }

  lemma {:induction false} CountInLower(keywords: seq<string>, s: string)
    requires forall i :: 0 <= i < |keywords| ==> AllChars(keywords[i], NotAsciiLetter)
    ensures CountIn(keywords, Lower(s)) == CountIn(keywords, s)
  {
    if keywords != [] {
      ContainsLower(s, keywords[0]);
      CountInLower(keywords[1..], s);
    }
  }

  const Greetings: seq<string> := ["안녕", "hello", "hi", "반가워"]
  const BookWords: seq<string> := ["책", "도서", "작품"]
  const ReviewWords: seq<string> := ["리뷰", "평가", "후기"]

  const GreetingReply: string := "안녕하세요! 저는 도서 리뷰 분석 어시스턴트입니다. 무엇을 도와드릴까요?"
  const BookReply: string := "책에 대해서 관심이 있으시군요! 특정 책의 정보나 리뷰가 궁금하시다면 🎨나 📖 이모지와 함께 질문해보세요."
  const ReviewReply: string := "리뷰에 대해 궁금하시는군요! 📖 이모지와 함께 구체적인 질문을 해주시면 더 자세한 정보를 제공해드릴 수 있습니다."
  const QuestionReply: string := "궁금한 것이 있으시군요! 책 정보는 🎨🎭, 리뷰 정보는 📖 이모지와 함께 질문해주시면 더 정확한 답변을 드릴 수 있습니다."
  const DefaultReply: string := "네, 말씀하신 내용을 잘 들었습니다. 더 구체적으로 도와드릴 수 있는 것이 있다면 언제든 말씀해주세요!"

  /** A question mark in the message as written, or `궁금` in it. */
  predicate AsksSomething(userMessage: string) {
    Contains(userMessage, "?") || Contains(Lower(userMessage), "궁금")
  }

  /** `_generate_fallback_response`: greeting, then book word, then review
      word, then a question, else the default reply. */
  function FallbackResponse(userMessage: string): (r: string)
    ensures r == GreetingReply <==> AnyIn(Greetings, Lower(userMessage))
    ensures r == BookReply <==> !AnyIn(Greetings, Lower(userMessage)) && AnyIn(BookWords, Lower(userMessage))
    ensures r == ReviewReply <==>
              !AnyIn(Greetings, Lower(userMessage)) && !AnyIn(BookWords, Lower(userMessage))
              && AnyIn(ReviewWords, Lower(userMessage))
    ensures r == QuestionReply <==>
              !AnyIn(Greetings, Lower(userMessage)) && !AnyIn(BookWords, Lower(userMessage))
              && !AnyIn(ReviewWords, Lower(userMessage)) && AsksSomething(userMessage)
    ensures r == DefaultReply <==>
              !AnyIn(Greetings, Lower(userMessage)) && !AnyIn(BookWords, Lower(userMessage))
              && !AnyIn(ReviewWords, Lower(userMessage)) && !AsksSomething(userMessage)
  {
    var lowered := Lower(userMessage);
    if AnyIn(Greetings, lowered) then GreetingReply
    else if AnyIn(BookWords, lowered) then BookReply
    else if AnyIn(ReviewWords, lowered) then ReviewReply
    else if AsksSomething(userMessage) then QuestionReply
    else DefaultReply
  }

  /** The reply chooser ignores case: lower-casing the message first
      changes nothing, the question mark included. */
  lemma FallbackIgnoresCase(userMessage: string)
    ensures FallbackResponse(Lower(userMessage)) == FallbackResponse(userMessage)
  {
    LowerIdempotent(userMessage);
    assert AllChars("?", NotAsciiLetter);
    ContainsLower(userMessage, "?");
  }

  /** A model client's completion call: the stripped content, or the
      exception raised. */
  type ApiClient = string -> Result<string, string>

  /** The prompt `generate_response` sends to a configured client. */
  function ClientPrompt(userMessage: string, history: string): string {
    "당신은 친근하고 도움이 되는 AI 어시스턴트입니다.\n사용자와 자연스럽게 대화하세요.\n\n대화 히스토리:\n"
    + history + "\n\n사용자: " + userMessage + "\n\n어시스턴트:"
  }

  /** `generate_response`: the client's stripped answer or an apology
      naming the error; without a client, the keyword reply. */
  function GenerateResponse(userMessage: string, history: string, client: Option<ApiClient>): (r: string)
    ensures client.None? ==> r == FallbackResponse(userMessage)
    ensures client.Some? && client.value(ClientPrompt(userMessage, history)).Success? ==>
              r == Strip(client.value(ClientPrompt(userMessage, history)).value)
    ensures client.Some? && client.value(ClientPrompt(userMessage, history)).Failure? ==>
              r == "죄송합니다. 일시적인 오류가 발생했습니다: " + client.value(ClientPrompt(userMessage, history)).error
  {
    match client
    case None => FallbackResponse(userMessage)
    case Some(call) =>
      match call(ClientPrompt(userMessage, history))
      case Success(text) => Strip(text)
      case Failure(e) => "죄송합니다. 일시적인 오류가 발생했습니다: " + e
  }

  // ---------------------------------------------------------------------
  // ChatNode.run
  // ---------------------------------------------------------------------

  /** `json.loads` on the last line, restricted to objects with these keys:
      the parsed record, or `None` when parsing raises. */
  type JsonParse = string -> Option<IntentFields>

  /** The state updates of `run`: the user text, then the answer, then the
      intent record, and the current node becomes `chat`. */
  function RecordTurn(state: ChatState, userText: string, answer: string, intent: string, confidence: int, reason: string): (t: ChatState)
    ensures |t.messages| == |state.messages| + 2
    ensures t.messages[..|state.messages|] == state.messages
    ensures t.messages[|state.messages|] == Message(UserRole, userText, NoMeta)
    ensures t.messages[|state.messages| + 1] == Message(AssistantRole, answer, NoMeta)
    ensures t.intentHistory == state.intentHistory + [IntentRecord(intent, confidence, reason)]
    ensures t.currentNode == ChatNodeName
    ensures t.(messages := state.messages, intentHistory := state.intentHistory, currentNode := state.currentNode) == state
  {
    var s1 := AddMessage(state, UserRole, userText);
    var s2 := AddMessage(s1, AssistantRole, answer);
    var s3 := AddIntent(s2, intent, confidence, reason);
    assert s3.messages == state.messages + [Message(UserRole, userText, NoMeta), Message(AssistantRole, answer, NoMeta)];
    s3.(currentNode := ChatNodeName)
  }

  /** The dictionary `run` returns. */
  datatype RunResult = RunResult(
    answer: string,
    intent: string,
    confidence: int,
    reason: string,
    updatedState: ChatState,
    response: string,
    nextNode: string)

  /** `ChatNode.run` without a client: ask the stand-in model, split its
      reply, read the record from the last line (falling back to keyword
      analysis when it does not parse), and record the turn. */
  function Run(userText: string, state: ChatState, parse: JsonParse): (r: RunResult)
    ensures |r.updatedState.messages| == |state.messages| + 2
    ensures r.updatedState.messages[..|state.messages|] == state.messages
    ensures r.updatedState.messages[|state.messages|] == Message(UserRole, userText, NoMeta)
    ensures r.updatedState.messages[|state.messages| + 1] == Message(AssistantRole, r.answer, NoMeta)
    ensures r.updatedState.intentHistory == state.intentHistory + [IntentRecord(r.intent, r.confidence, r.reason)]
    ensures r.updatedState.currentNode == ChatNodeName
    ensures r.updatedState.(messages := state.messages, intentHistory := state.intentHistory, currentNode := state.currentNode) == state
    ensures r.nextNode == r.intent
    ensures r.answer != []
  {
    var (answer, last) := StubTurn(state.messages, userText);
    var fields := match parse(last) case Some(f) => f case None => AnalyzeIntent(userText);
    var intent := fields.intent.GetOr("chat");
    var confidence := fields.confidence.GetOr(0);
    var reason := fields.reason.GetOr([]);
    RunResult(answer, intent, confidence, reason, RecordTurn(state, userText, answer, intent, confidence, reason),
              answer + "\n" + EncodeIntent(fields), intent)
  }

  /** The stand-in model's reply splits back into its body, as the
      answer, and its record, as the last line. */
  lemma StubReplySplits(messages: seq<string>)
    requires messages != []
    ensures
      var reply := StubClassify(Lower(messages[|messages| - 1]));
      SplitReply(CallLlmStub(messages)) == Success((reply.body, EncodeIntent(reply.fields)))
  {
    var reply := StubClassify(Lower(messages[|messages| - 1]));
    StubReplyWellFormed(Lower(messages[|messages| - 1]));
    EncodeIntentOneLine(reply.fields);
    SplitTwoLines(reply.body, EncodeIntent(reply.fields));
  }

  /** One turn of the stand-in model, split: its body as the answer and
      its record as the last line, both decided by the keywords of the
      user text alone. */
  function StubTurn(history: seq<Message>, userText: string): (p: (string, string))
    ensures p.0 != []
    ensures p.0 == StubClassify(Lower("User: " + userText)).body
  {
    var messages := BuildMessages(history, userText);
    StubReplySplits(messages);
    StubReplyWellFormed(Lower("User: " + userText));
    SplitReply(CallLlmStub(messages)).value
  }

  /** The last line of a stand-in turn is the record of the stand-in
      model's choice. */
  lemma StubTurnRecord(history: seq<Message>, userText: string)
    ensures StubTurn(history, userText).1 == EncodeIntent(StubClassify(Lower("User: " + userText)).fields)
  {
    StubReplySplits(BuildMessages(history, userText));
  }

  /** A stripped one-line answer and a one-line record, joined by a
      newline, split back into the two. */
  lemma SplitTwoLines(body: string, last: string)
    requires body != [] && NoLineBreak(body) && Strip(body) == body
    requires last != [] && NoLineBreak(last)
    ensures SplitReply(body + "\n" + last) == Success((body, last))
  {
    var raw := body + "\n" + last;
    SplitLinesPair(body, last);
    var lines := SplitLines(raw);
    assert lines == [body, last];
    assert lines[..|lines| - 1] == [body];
    AnswerOfOne(body);
    SplitReplyOfLines(raw);
  }

  /** A single stripped non-empty line is its own answer. */
  lemma AnswerOfOne(body: string)
    requires body != [] && Strip(body) == body
    ensures AnswerOf([body]) == body
  {
  }

  /** With a parser that reads back what `json.dumps` wrote, `run` returns
      the stand-in model's body as the answer and its record as the intent,
      so the next node is the one the keywords of the user text select. */
  lemma RunReadsStubRecord(userText: string, state: ChatState, parse: JsonParse)
    requires forall f :: parse(EncodeIntent(f)) == Some(f)
    ensures
      var reply := StubClassify(Lower("User: " + userText));
      var r := Run(userText, state, parse);
      && r.answer == reply.body
      && Some(r.intent) == reply.fields.intent
      && Some(r.confidence) == reply.fields.confidence
      && Some(r.reason) == reply.fields.reason
      && r.response == reply.body + "\n" + EncodeIntent(reply.fields)
  {
    var reply := StubClassify(Lower("User: " + userText));
    StubTurnRecord(state.messages, userText);
    assert parse(EncodeIntent(reply.fields)) == Some(reply.fields);
    RunParsed(userText, state, parse, reply.fields);
  }

  /** When the last line parses to a complete record, `run` answers with
      the body and takes every field from that record. */
  lemma RunParsed(userText: string, state: ChatState, parse: JsonParse, f: IntentFields)
    requires parse(StubTurn(state.messages, userText).1) == Some(f)
    requires f.intent.Some? && f.confidence.Some? && f.reason.Some?
    ensures
      var r := Run(userText, state, parse);
      && r.answer == StubTurn(state.messages, userText).0
      && Some(r.intent) == f.intent && Some(r.confidence) == f.confidence && Some(r.reason) == f.reason
      && r.response == r.answer + "\n" + EncodeIntent(f)
  {
  }

  /** The next node is always one of the stand-in model's three intents. */
  lemma RunNextNodeIsAnIntent(userText: string, state: ChatState, parse: JsonParse)
    requires forall f :: parse(EncodeIntent(f)) == Some(f)
    ensures Run(userText, state, parse).nextNode in {"subject_info", "review", "chat"}
  {
    RunReadsStubRecord(userText, state, parse);
  }
}
