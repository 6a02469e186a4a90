/** `build_review_prompt` of st_app/rag/prompt.py: a fixed instruction
    preamble, the question section, the context section and the citation
    instruction. */
module Prompt {
  import opened Strings

  /** The four instruction lines that open every review prompt. */
  const Preamble: string :=
    "당신은 도서 리뷰를 기반으로 사실적인 요약과 근거 인용을 제공하는 어시스턴트입니다.\n"
    + "아래 CONTEXT에서만 근거를 취해 답하세요.\n"
    + "- 근거가 없으면 모른다고 답하세요.\n"
    + "- 핵심 요점 위주로 5문장 이내로 요약하세요.\n\n"

  const QuestionHeader: string := "QUESTION:\n"
  const ContextHeader: string := "\n\nCONTEXT:\n"
  const ClosingSeparator: string := "\n\n"

  /** The final line asking the model to name its sources. */
  const Closing: string :=
    "마지막 줄에 '출처: [DOC i, ...]' 형식으로 문서 번호를 기재하세요."

  /** Everything before the question. */
  const Head: string :=
    Preamble + QuestionHeader

  /** The review prompt for `question` grounded in `context`. */
  function BuildReviewPrompt(question: string, context: string): (p: string)
    ensures |p| == |Head| + |question| + |ContextHeader| + |context| + |ClosingSeparator| + |Closing|
    ensures p[..|Head|] == Head
    ensures p[|Head|..|Head| + |question|] == question
    ensures p[|Head| + |question|..|Head| + |question| + |ContextHeader|] == ContextHeader
    ensures p[|Head| + |question| + |ContextHeader|..|p| - |ClosingSeparator| - |Closing|] == context
    ensures p[|p| - |Closing|..] == Closing
  {
    Sections(Preamble, QuestionHeader, question, ContextHeader, context, ClosingSeparator, Closing);
    Preamble + QuestionHeader + question + ContextHeader + context + ClosingSeparator + Closing
  }

  /** Where the sections of a six-part concatenation sit. */
  lemma Sections(a: string, b: string, q: string, h: string, c: string, s: string, z: string)
    ensures
      var p := a + b + q + h + c + s + z;
      && |p| == |a + b| + |q| + |h| + |c| + |s| + |z|
      && p[..|a + b|] == a + b
      && p[|a + b|..|a + b| + |q|] == q
      && p[|a + b| + |q|..|a + b| + |q| + |h|] == h
      && p[|a + b| + |q| + |h|..|p| - |s| - |z|] == c
      && p[|p| - |z|..] == z
  {
    var p := a + b + q + h + c + s + z;
    assert p == (a + b) + (q + h + c + s + z);
    assert p == (a + b + q) + (h + c + s + z);
    assert p == (a + b + q + h) + (c + s + z);
    assert p == (a + b + q + h + c) + (s + z);
    assert p == (a + b + q + h + c + s) + z;
  }

  /** Reading the question back from a prompt, given its length. */
  function QuestionOf(p: string, n: nat): (q: string)
    requires |Head| + n <= |p|
  {
    p[|Head|..|Head| + n]
  }

  /** Reading the context back from a prompt, given the question's length. */
  function ContextOf(p: string, n: nat): (c: string)
    requires |Head| + n + |ContextHeader| + |ClosingSeparator| + |Closing| <= |p|
  {
    p[|Head| + n + |ContextHeader|..|p| - |ClosingSeparator| - |Closing|]
  }

  /** The question and the context can be read back from the prompt once
      the question's length is known. */
  lemma BuildReviewPromptRoundTrip(question: string, context: string)
    ensures
      var p := BuildReviewPrompt(question, context);
      QuestionOf(p, |question|) == question && ContextOf(p, |question|) == context
  {
  }

  /** Prompts for questions of equal length are equal only when both
      the questions and the contexts are. */
  lemma BuildReviewPromptInjective(q1: string, c1: string, q2: string, c2: string)
    requires |q1| == |q2|
    requires BuildReviewPrompt(q1, c1) == BuildReviewPrompt(q2, c2)
    ensures q1 == q2 && c1 == c2
  {
    BuildReviewPromptRoundTrip(q1, c1);
    BuildReviewPromptRoundTrip(q2, c2);
  }

  /** Without the length the sections are ambiguous: a question that
      itself contains the context header reads as a shorter question with
      a longer context. */
  lemma SectionsAmbiguous(a: string, b: string, c: string)
    ensures BuildReviewPrompt(a + ContextHeader + b, c) == BuildReviewPrompt(a, b + ContextHeader + c)
  {
    Regroup(Preamble, QuestionHeader, a, b, c, ContextHeader, ClosingSeparator, Closing);
  }

  /** Moving a separator-delimited piece from one section to the next. */
  lemma Regroup(h: string, k: string, a: string, b: string, c: string, sep: string, s: string, z: string)
    ensures h + k + (a + sep + b) + sep + c + s + z == h + k + a + sep + (b + sep + c) + s + z
  {
  }
}
