/** The subject composer of st_app/graph/nodes/subject_info_node.py: it
    finds the subject a question is about by normalised substring search
    over a small knowledge base and stores a single answer in
    `last_answer`. The knowledge base and the answering chain are
    parameters. */
module SubjectInfo {
  import opened Wrappers
  import opened Strings
  import opened Records

  predicate NotSpace(c: char) { !IsSpace(c) }

  /** `_norm`: `None` becomes `""`, whitespace is deleted, letters are
      lower-cased. */
  function Norm(s: Option<string>): (r: string)
    ensures AllChars(r, NotSpace) && AllChars(r, NotUpper)
    ensures |r| <= |s.GetOr([])|
  {
    var kept := Filter(s.GetOr([]), NotSpace);
    var r := Lower(kept);
    assert AllChars(r, NotSpace) by {
      forall i | 0 <= i < |r|
        ensures NotSpace(r[i])
      {
        assert NotSpace(kept[i]);
      }
    }
    r
  }

  /** Normalising twice is normalising once. */
  lemma NormIdempotent(s: Option<string>)
    ensures Norm(Some(Norm(s))) == Norm(s)
  {
    var n := Norm(s);
    FilterKeepsAll(n, NotSpace);
    LowerNoop(n);
  }

  /** Normalising a concatenation normalises each part; with `NormChar`
      this fixes `_norm` character by character. */
  lemma NormAppend(a: string, b: string)
    ensures Norm(Some(a + b)) == Norm(Some(a)) + Norm(Some(b))
  {
    FilterAppend(a, b, NotSpace);
    LowerAppend(Filter(a, NotSpace), Filter(b, NotSpace));
  }

  /** A whitespace character disappears; any other character is kept,
      lower-cased. */
  lemma NormChar(c: char)
    ensures Norm(Some([c])) == if IsSpace(c) then [] else [LowerChar(c)]
  {
    assert [c][1..] == [];
  }

  /** A subject of the knowledge base: its key, its aliases (absent means
      none) and its optional `title`. */
  datatype Subject = Subject(name: string, aliases: seq<string>, title: Option<string>)

  /** The knowledge base, in the order of its JSON object. */
  type SubjectDb = seq<Subject>

  /** Whether some alias, normalised, occurs in `q`. */
  predicate AliasIn(aliases: seq<string>, q: string) {
    exists k :: 0 <= k < |aliases| && Contains(q, Norm(Some(aliases[k])))
  }

  /** Whether the normalised query `q` mentions subject `e`. */
  predicate Mentions(e: Subject, q: string) {
    Contains(q, Norm(Some(e.name))) || AliasIn(e.aliases, q)
  }

  /** The position of the first subject `q` mentions. */
  function FirstMention(db: SubjectDb, q: string): (i: Option<nat>)
    ensures i.Some? ==> i.value < |db| && Mentions(db[i.value], q)
    ensures i.Some? ==> forall j :: 0 <= j < i.value ==> !Mentions(db[j], q)
    ensures i.None? ==> forall j :: 0 <= j < |db| ==> !Mentions(db[j], q)
  {
    if db == [] then None
    else if Mentions(db[0], q) then Some(0)
    else match FirstMention(db[1..], q)
      case None => None
      case Some(j) => Some(j + 1)
  }

  /** The text searched: a non-empty hint replaces the message. */
  function Query(userMsg: string, hint: Option<string>): (q: string)
    ensures hint.Some? && hint.value != [] ==> q == Norm(hint)
    ensures !(hint.Some? && hint.value != []) ==> q == Norm(Some(userMsg))
  {
    if hint.Some? && hint.value != [] then Norm(hint) else Norm(Some(userMsg))
  }

  /** `_find_subject`, as a position in the knowledge base: the first
      subject mentioned by name or alias; failing that, the only subject
      of a one-entry knowledge base; otherwise none. */
  function FindIndex(userMsg: string, hint: Option<string>, db: SubjectDb): (i: Option<nat>)
    ensures i.Some? ==> i.value < |db|
    ensures forall j ::
              (0 <= j < |db| && Mentions(db[j], Query(userMsg, hint))
               && forall j' :: 0 <= j' < j ==> !Mentions(db[j'], Query(userMsg, hint)))
              ==> i == Some(j)
    ensures (forall j :: 0 <= j < |db| ==> !Mentions(db[j], Query(userMsg, hint))) ==>
              i == (if |db| == 1 then Some(0) else None)
  {
    var q := Query(userMsg, hint);
    match FirstMention(db, q)
    case Some(j) => Some(j)
    case None => if |db| == 1 then Some(0) else None
  }

  /** `_find_subject`: the key of the subject found. */
  function FindSubject(userMsg: string, hint: Option<string>, db: SubjectDb): (name: Option<string>)
    ensures name.Some? <==> FindIndex(userMsg, hint, db).Some?
    ensures name.Some? ==> name.value == db[FindIndex(userMsg, hint, db).value].name
  {
    match FindIndex(userMsg, hint, db)
    case Some(i) => Some(db[i].name)
    case None => None
  }

  /** The answering chain: the question and the subject's record in, the
      reply or the exception raised out. */
  type Chain = (string, Subject) -> Result<string, string>

  const AskWhich: string := "어떤 작품인지 알려줘!"
  const NotFound: string := "정보를 찾을 수 없습니다."

  /** The apology when the chain fails, naming the subject by its title or,
      without one, its key. */
  function AskMore(e: Subject): string {
    "『" + e.title.GetOr(e.name) + "』에 대해 더 구체적으로 물어봐!"
  }

  /** The dictionary the composer is handed: the graph's turn plus the
      keys it reads (`user_msg`, `subject_name`) and the key it writes
      (`last_answer`). Absent keys are `None`. */
  datatype SubjectState = SubjectState(
    turn: TurnState,
    userMsg: Option<string>,
    subjectName: Option<string>,
    lastAnswer: Option<string>)

  /** `subject_info_node`. Without a subject (or with one whose key is
      the empty string, which is falsy) the chain is not consulted; an
      empty reply and a failing chain have answers of their own. Only
      `last_answer` changes. */
  function SubjectInfoNode(st: SubjectState, db: SubjectDb, chain: Chain): (r: SubjectState)
    ensures r.(lastAnswer := st.lastAnswer) == st
    ensures r.lastAnswer.Some?
    ensures
      var question := st.userMsg.GetOr([]);
      match FindIndex(question, st.subjectName, db)
      case None => r.lastAnswer == Some(AskWhich)
      case Some(i) =>
        if db[i].name == [] then r.lastAnswer == Some(AskWhich)
        else match chain(question, db[i])
          case Success(reply) =>
            r.lastAnswer == Some(if Strip(reply) == [] then NotFound else Strip(reply))
          case Failure(_) => r.lastAnswer == Some(AskMore(db[i]))
  {
    var question := st.userMsg.GetOr([]);
    match FindIndex(question, st.subjectName, db)
    case None => st.(lastAnswer := Some(AskWhich))
    case Some(i) =>
      if db[i].name == [] then st.(lastAnswer := Some(AskWhich))
      else
        var answer :=
          match chain(question, db[i])
          case Success(reply) => if Strip(reply) == [] then NotFound else Strip(reply)
          case Failure(_) => AskMore(db[i]);
        st.(lastAnswer := Some(answer))
  }

  /** The composer never touches the conversation: the turn it returns
      has exactly the messages, citations, route and error it was given. */
  lemma SubjectInfoLeavesTurn(st: SubjectState, db: SubjectDb, chain: Chain)
    ensures SubjectInfoNode(st, db, chain).turn == st.turn
  {
  }

  /** Run from the graph, whose state has no `user_msg` and no
      `subject_name`, the composer searches the empty string: with two or
      more subjects whose keys and aliases normalise to non-empty strings
      it always asks which work is meant, whatever the user wrote. */
  lemma GraphTurnFindsNothing(turn: TurnState, db: SubjectDb, chain: Chain)
    requires |db| >= 2
    requires forall j :: 0 <= j < |db| ==> Norm(Some(db[j].name)) != []
    requires forall j, k :: 0 <= j < |db| && 0 <= k < |db[j].aliases| ==> Norm(Some(db[j].aliases[k])) != []
    ensures SubjectInfoNode(SubjectState(turn, None, None, None), db, chain).lastAnswer == Some(AskWhich)
  {
    var q := Query([], None);
    assert q == [];
    forall j | 0 <= j < |db|
      ensures !Mentions(db[j], q)
    {
      NothingInEmpty(Norm(Some(db[j].name)));
      forall k | 0 <= k < |db[j].aliases|
        ensures !Contains(q, Norm(Some(db[j].aliases[k])))
      {
        NothingInEmpty(Norm(Some(db[j].aliases[k])));
      }
    }
  }

  lemma NothingInEmpty(sub: string)
    requires sub != []
    ensures !Contains([], sub)
  {
  }

  /** A name that normalises to the empty string is found in every query:
      such a subject, placed first, captures every question. */
  lemma BlankNameMatchesEverything(userMsg: string, hint: Option<string>, db: SubjectDb)
    requires db != [] && Norm(Some(db[0].name)) == []
    ensures FindSubject(userMsg, hint, db) == Some(db[0].name)
  {
    var q := Query(userMsg, hint);
    assert IsPrefix([], q);
    assert Mentions(db[0], q);
  }
}
