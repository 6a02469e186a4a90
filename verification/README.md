# A verified model of the book-review chat pipeline

This project models, in Dafny, the deterministic core of a review-analysis
chat application for the novel *소년이 온다*. The core has four parts:

- **The chat graph.** A router asks a language model which composer should
  answer a question. The three composers are `chat`, `subject_info` and
  `rag_review`. The graph runs exactly one of them and merges the partial
  state it returns.
- **The composers' logic.** `rag_review` numbers retrieved reviews, cuts
  the context to a length cap, extracts citations and builds the review
  prompt. `subject_info` matches the question against a subject table. The
  chat node classifies intent by keywords, builds the model conversation
  and splits the model's reply into an answer and a JSON intent line.
- **The conversation state and the ranking of retrieved reviews.** These are
  the TF-IDF ranking, the FAISS post-filter and the loading of review rows
  from the preprocessed CSV files.
- **The user service and the three review preprocessors.** The user service
  handles login, registration, deletion and password change over an
  e-mail-keyed table. The preprocessors turn raw YES24, Kyobo and Aladin
  review records into filtered, cleaned review rows.

Language models, retrievers, the subject chain, `json.loads`,
`float`/`pd.to_numeric` on strings and `pd.to_datetime` are parameters of
the model. Each is a function that may fail (`Result`/`Option`). Scores and
similarities are integers that keep their order and send `0.0` to `0`, so a
score's truthiness is kept too. Review ratings are integer
tenths, and confidences are integer hundredths.

Modules, one file each:

| module | file | models |
|---|---|---|
| `Wrappers` | wrappers.dfy | `Option`, `Result` |
| `Strings` | strings.dfy | Python's `in`, `lower`, `strip`, `join`, `splitlines`, `str(int)` |
| `Records` | records.dfy | messages, documents, citations, the graph's turn state, `_get_last_user_message` |
| `State` | state.dfy | `ChatState` (st_app/utils/state.py) |
| `Router` | router.dfy | `_decide_route`, `run_graph` |
| `Graph` | graph.dfy | `GraphState` merge, `_wrap_partial`, `_route_selector`, `get_graph_app` |
| `Prompt` | prompt.dfy | `build_review_prompt` |
| `RagReview` | rag_review.dfy | `_format_docs`, `_extract_citations`, `rag_review_node` |
| `SubjectInfo` | subject_info.dfy | `_norm`, `_find_subject`, `subject_info_node` |
| `ChatNode` | chat_node.dfy | `_build_messages`, `_call_llm_stub`, `ChatNode` |
| `Retriever` | retriever.dfy | `TfIdfRetriever`, `FaissRetriever`, `_load_review_texts` |
| `UserService` | user_service.dfy | `UserService` over the `users` table |
| `Table` | table.dfy | DataFrame cells and `astype(str)` |
| `Reviews` | reviews.dfy | the filters the three processors share |
| `Aladin`, `Kyobo`, `Yes24` | aladin.dfy, kyobo.dfy, yes24.dfy | the three `preprocess` methods |

## Model

| member | source | states |
|---|---|---|
| Records.LatestUserIndex | st_app/graph/router.py:11-15 | the position found is the latest user message with non-empty content, and -1 means no message qualifies |
| Records.LastUserMessage | st_app/graph/router.py:11-15 | the question is the stripped content of the latest user message with non-empty content, or `""` when there is none |
| Records.LastUserMessageSkipsAssistant | st_app/graph/nodes/rag_review_node.py:11-15 | appending a non-user message never changes the question |
| Router.RoutingPrompt | st_app/graph/router.py:25-35 | the prompt opens with the fixed routing instructions and carries the question verbatim between `질문: ` and `\n답변:` |
| Router.Normalize | st_app/graph/router.py:37-39 | the normalised decision has no space, newline, tab or upper-case ASCII letter, and does not start or end with a quote |
| Router.NormalizeKeepsContent | st_app/graph/router.py:37-39 | the normalised decision is the stripped, lower-cased answer with its spaces, newlines and tabs deleted, less only quote characters at its two ends |
| Router.NormalizeWrappedToken | st_app/graph/router.py:37-49 | a route token written in any case, wrapped in quotes and surrounded by whitespace, normalises to the token itself |
| Router.NormalizeFixes | st_app/graph/router.py:37-39 | a string of lower-case letters and `_`, such as each route token, is unchanged by normalisation |
| Router.DecideRoute | st_app/graph/router.py:41-45 | a decision holding a subject marker routes to `subject_info`, even when review markers also appear |
| Router.DecideRouteTable | st_app/graph/router.py:18-56 | for each of the three routes, the condition on the decision and the question under which it is chosen, both directions; subject markers beat review markers, an exact `chat` beats the question fallback, and in the fallback review keywords beat subject keywords |
| Router.RouteOfTable | st_app/graph/router.py:41-56 | the same three-way if-and-only-if table for the marker scan and fallback applied to an already normalised decision |
| Router.TokenAnswerIsObeyed | st_app/graph/router.py:44-49 | when the model answers exactly with a route token, that route is taken whatever the question |
| Router.TokenRouteOf | st_app/graph/router.py:44-49 | each route token, read as a decision, selects its own route |
| Router.TokensCarryMarkers | st_app/graph/router.py:41-42 | `subject_info` holds a subject marker and `rag_review` a review marker |
| Router.TokensCarryNoForeignMarkers | st_app/graph/router.py:41-42 | `rag_review` and `chat` hold no subject marker, and `chat` holds no review marker |
| Router.FromToken | st_app/graph/router.py:48-49 | a route token read back gives the route that spells it |
| Router.Dispatch | st_app/graph/router.py:59-65 | without a question the route is `chat` and the model is not asked; otherwise the model's answer decides, and a failing model call fails the dispatch |
| Router.RunGraph | st_app/graph/router.py:59-73 | exactly one composer runs, the one the dispatch chose, and a failed dispatch runs none |
| Router.NoQuestionNoModel | st_app/graph/router.py:61-63 | without a question, any two models give the same result: the chat composer applied to the state |
| Graph.RunsVisitOneComposer | st_app/graph/graph.py:72-85 | every walk from START to END along the graph's edges is START, router, one composer, END |
| Graph.Merge | st_app/graph/graph.py:15-20 | merging concatenates messages and citations, overwrites `last_route` and `error` only when the delta has them, and keeps `k` |
| Graph.MergeNoChange | st_app/graph/graph.py:15-20 | merging the empty delta changes nothing |
| Graph.MergeThen | st_app/graph/graph.py:15-20 | merging two deltas one after the other equals merging their combination |
| Graph.RouterPassthrough | st_app/graph/graph.py:48-50 | the router's delta leaves every state unchanged |
| Graph.WrapPartial | st_app/graph/graph.py:29-43 | the delta holds at most one message, the last of the composer's output; citations, a non-empty route and the error are copied; nothing else is emitted |
| Graph.WrapPartialRepeatsOldMessage | st_app/graph/graph.py:29-43 | with the wrapper as written, a composer that returns its input state unchanged gets the last message appended again and its citations doubled |
| Graph.WrapPartialDuplicatesQuestion | st_app/graph/graph.py:29-43 | the concrete case: a turn holding only the question ends with the question twice |
| Graph.WrapPartialNew | st_app/graph/graph.py:29-43 | the corrected delta passes on a message only when the composer added one, and citations only when the composer changed them |
| Graph.WrapPartialNewIdle | st_app/graph/graph.py:29-43 | with the corrected wrapper, a composer that changes nothing leaves the state unchanged |
| Graph.WrapPartialNewAppends | st_app/graph/graph.py:29-43 | with the corrected wrapper, a composer that appends one message gets exactly that message appended |
| Graph.ScanFindsLastUserMessage | st_app/graph/graph.py:54-59 | the selector's own reverse scan finds the same question as the router's `_get_last_user_message` |
| Graph.RouteSelector | st_app/graph/graph.py:53-62 | without a question the chat composer is chosen whatever the model; otherwise the selector fails exactly when the routing call fails, with its error, and else gives the route decided from the model's answer |
| Graph.SelectorAgreesWithDispatch | st_app/graph/graph.py:53-62 | the selector and `run_graph`'s dispatch make the same choice for every state and model |
| Graph.Invoke | st_app/graph/graph.py:65-87 | a successful invocation walks a legal run, visits the composer the selector chose, and merges that composer's delta, as the corrected wrapper computes it, into the state; it succeeds exactly when the routing call does |
| Graph.InvokeIdleComposer | st_app/graph/graph.py:65-87 | with the corrected wrapper, a composer that answers nothing leaves the graph's state as it was (as written, `Graph.WrapPartialDuplicatesQuestion` shows it repeating the last message) |
| Graph.Trace | st_app/graph/graph.py:72-85 | the walk for a route is a legal run through that route's composer |
| Graph.GraphAgreesWithRunGraph | st_app/graph/graph.py:53-85 | the compiled graph and `run_graph` fail together and pick the same composer for every state and model |
| Prompt.BuildReviewPrompt | st_app/rag/prompt.py:4-13 | the prompt opens with the preamble and `QUESTION:\n`, carries the question verbatim, then `\n\nCONTEXT:\n`, the context verbatim, and ends with the citation instruction |
| Prompt.BuildReviewPromptRoundTrip | st_app/rag/prompt.py:10-11 | given the question's length, the question and the context can be read back from the prompt |
| Prompt.BuildReviewPromptInjective | st_app/rag/prompt.py:10-11 | two prompts with questions of equal length are equal only when their questions and contexts are |
| Prompt.SectionsAmbiguous | st_app/rag/prompt.py:10-11 | without the length, the split is ambiguous: a question containing the context header gives the same prompt as a shorter question with a longer context |
| RagReview.FirstTruthy | st_app/graph/nodes/rag_review_node.py:23 | the value is that of the first key whose value is truthy, else the default |
| RagReview.SourceLabel | st_app/graph/nodes/rag_review_node.py:22-23 | the label falls back `source`, then `file`, then `path`, then `"unknown"`, skipping falsy values |
| RagReview.Numbered | st_app/graph/nodes/rag_review_node.py:20-24 | enumerating gives one rendered item per input |
| RagReview.NumberedAppend | st_app/graph/nodes/rag_review_node.py:20-24 | an appended item gets the next number, and the items before keep theirs |
| RagReview.Chunks | st_app/graph/nodes/rag_review_node.py:20-24 | there is one chunk per document |
| RagReview.ChunksAppend | st_app/graph/nodes/rag_review_node.py:20-24 | the `n`-th document, counting from one, becomes the chunk labelled `[DOC n]` |
| RagReview.FullContextAppend | st_app/graph/nodes/rag_review_node.py:24-25 | an added document's chunk follows the previous context after a blank line |
| RagReview.ContextOpensWithFirstDoc | st_app/graph/nodes/rag_review_node.py:20-25 | the context opens with the first document's chunk, labelled `[DOC 1]` |
| RagReview.FormatDocs | st_app/graph/nodes/rag_review_node.py:18-28 | a context within the cap is unchanged; a longer one becomes exactly `max_chars` characters, its own first `max_chars - 3` followed by `...` |
| RagReview.CitationOf | st_app/graph/nodes/rag_review_node.py:33-36 | a citation keeps the metadata, names `source` else `path` else `"unknown"`, and takes a truthy document score, else the metadata's score, else none |
| RagReview.ExtractCitations | st_app/graph/nodes/rag_review_node.py:31-37 | there is exactly one citation per document, in document order |
| RagReview.UsedDocs | st_app/graph/nodes/rag_review_node.py:47-58 | the documents used are a prefix of the retrieval, at most `k` of them; a failing retriever fails |
| RagReview.Compose | st_app/graph/nodes/rag_review_node.py:50-68 | an unavailable retriever or model fails with its error; on success the citations are those of the documents used, and the answer is the model's reply to the review prompt built from the formatted context |
| RagReview.RagReviewNode | st_app/graph/nodes/rag_review_node.py:40-90 | without a question the state is returned unchanged; otherwise exactly one assistant message is appended. On success the citations are replaced and the route is `rag_review`; on failure the error is recorded, the citations are kept and the route is `rag_review:error` |
| RagReview.CitationsFollowRetrieval | st_app/graph/nodes/rag_review_node.py:58-76 | after a successful turn, the state's citations are those of the first at most `k` retrieved documents, in retrieval order |
| RagReview.PromptCarriesQuestion | st_app/graph/nodes/rag_review_node.py:62 | the prompt sent to the model carries the question verbatim |
| RagReview.RagReviewKeepsQuestion | st_app/graph/nodes/rag_review_node.py:69-90 | the node never changes the turn's question |
| SubjectInfo.Norm | st_app/graph/nodes/subject_info_node.py:54-55 | the result has no whitespace and no upper-case ASCII letter, and is no longer than the input |
| SubjectInfo.NormAppend | st_app/graph/nodes/subject_info_node.py:54-55 | normalising a concatenation is concatenating the normalised parts |
| SubjectInfo.NormChar | st_app/graph/nodes/subject_info_node.py:54-55 | a whitespace character disappears and any other character is kept lower-cased, so with `NormAppend` the result is the input's non-whitespace characters, lower-cased, in order |
| SubjectInfo.NormIdempotent | st_app/graph/nodes/subject_info_node.py:54-55 | normalising twice is normalising once |
| SubjectInfo.FirstMention | st_app/graph/nodes/subject_info_node.py:59-64 | the index found is the first subject whose normalised name or alias occurs in the query, and none means no subject matches |
| SubjectInfo.Query | st_app/graph/nodes/subject_info_node.py:58 | a non-empty hint is matched instead of the user message |
| SubjectInfo.FindIndex | st_app/graph/nodes/subject_info_node.py:57-67 | the first matching subject in table order; with no match, the only entry of a one-entry table, else none |
| SubjectInfo.FindSubject | st_app/graph/nodes/subject_info_node.py:57-67 | the name returned is the name of the subject found, and there is none exactly when no subject is found |
| SubjectInfo.BlankNameMatchesEverything | st_app/graph/nodes/subject_info_node.py:60 | a first subject whose name normalises to `""` matches every query |
| SubjectInfo.SubjectInfoNode | st_app/graph/nodes/subject_info_node.py:70-87 | only `last_answer` changes. No subject found, or a falsy name, gives the ask-which reply. A reply that is blank after stripping gives the not-found text, and a failing chain gives the fallback naming the title, else the name |
| SubjectInfo.SubjectInfoLeavesTurn | st_app/graph/nodes/subject_info_node.py:70-87 | the node never touches the messages, citations, route or error |
| SubjectInfo.GraphTurnFindsNothing | st_app/graph/nodes/subject_info_node.py:71-75 | handed the graph's turn, which carries no `user_msg` or `subject_name`, the node finds no subject in a table of two or more entries with non-blank names |
| ChatNode.BuildMessages | st_app/graph/nodes/chat_node.py:26-33 | the system prompt, then the last at most ten messages prefixed `User: `/`Assistant: ` in order, then `User: ` and the input; the length is min(10, history) + 2 |
| ChatNode.BuildMessagesMatchesHistory | st_app/graph/nodes/chat_node.py:29-31 | the model conversation and the textual history show the same window of messages |
| ChatNode.StubClassify | st_app/graph/nodes/chat_node.py:39-51 | subject keywords are checked before review keywords, and every reply carries an intent, a confidence and a reason |
| ChatNode.CallLlmStub | st_app/graph/nodes/chat_node.py:36-52 | the stand-in reply is exactly two lines: the body chosen by the keywords of the lower-cased last message, and the JSON record of that choice |
| ChatNode.StubReplyWellFormed | st_app/graph/nodes/chat_node.py:42-52 | every stand-in body is one non-empty stripped line, and its record's strings hold no line break |
| ChatNode.EncodeIntentOneLine | st_app/graph/nodes/chat_node.py:52 | the JSON text of a record whose strings carry no JSON-unescaped line break is a single line |
| ChatNode.StubReplySplits | st_app/graph/nodes/chat_node.py:52-172 | a stand-in reply splits back into its body as the answer and its JSON record as the last line |
| ChatNode.StubTurnRecord | st_app/graph/nodes/chat_node.py:52-171 | the last line of a stand-in turn is the JSON record the stand-in chose |
| ChatNode.AnswerOf | st_app/graph/nodes/chat_node.py:172 | the answer is never empty |
| ChatNode.SplitReply | st_app/graph/nodes/chat_node.py:171-172 | an empty reply cannot be unpacked and fails; otherwise the last line is split off and the other lines make the answer |
| ChatNode.SplitReplyRoundTrip | st_app/graph/nodes/chat_node.py:171-172 | joining body lines and a non-empty last line with `\n`, then splitting, gives back the answer of the body and the last line |
| ChatNode.ScoreConfidence | st_app/graph/nodes/chat_node.py:87-98 | the confidence lies between 0.5 and 0.9 and is 0.9 from two keywords on |
| ChatNode.AnalyzeIntent | st_app/graph/nodes/chat_node.py:66-104 | each intent is chosen exactly when its condition holds (subject keyword, else review keyword, else chat); chat has confidence 0.8 and the others 0.7 to 0.9 |
| ChatNode.AnalyzeIntentConfidence | st_app/graph/nodes/chat_node.py:71-96 | the confidence counts distinct keywords of the deciding list: one keyword gives 0.7, two or more give 0.9 |
| ChatNode.AnalyzeIntentIgnoresCase | st_app/graph/nodes/chat_node.py:71-84 | lower-casing the message first does not change the analysis, since no keyword holds an ASCII letter |
| ChatNode.FallbackResponse | st_app/graph/nodes/chat_node.py:134-151 | each of the five replies is given exactly when its guard holds and all earlier guards fail: greeting, book word, review word, question, default |
| ChatNode.FallbackIgnoresCase | st_app/graph/nodes/chat_node.py:136-147 | lower-casing the message first does not change the reply |
| ChatNode.GenerateResponse | st_app/graph/nodes/chat_node.py:106-132 | without a client, the keyword reply; with one, its stripped answer to the conversation prompt, or the apology naming the error |
| ChatNode.RecordTurn | st_app/graph/nodes/chat_node.py:182-189 | exactly two messages (user, then assistant) and one intent record are appended, the node becomes `chat`, and nothing else changes |
| ChatNode.Run | st_app/graph/nodes/chat_node.py:153-201 | the user and assistant messages and one intent record are appended, nothing else changes, the answer is non-empty and `next_node` is the intent |
| ChatNode.RunReadsStubRecord | st_app/graph/nodes/chat_node.py:165-201 | with a parser that reads back what `json.dumps` wrote, the turn answers with the stand-in's body and reports its intent, confidence and reason |
| ChatNode.RunParsed | st_app/graph/nodes/chat_node.py:171-201 | when the last line parses to a complete record, the turn reports that record, and the response is the answer, a newline and the record's JSON |
| ChatNode.RunNextNodeIsAnIntent | st_app/graph/nodes/chat_node.py:200 | the next node is always `subject_info`, `review` or `chat` |
| State.Fresh | st_app/utils/state.py:16-24 | a new state has no messages, intents or citations, is at node `chat` with `k` = 4, and has no route or error |
| State.AddMessage | st_app/utils/state.py:26-31 | exactly one message with the given role and content is appended at the end; nothing else changes |
| State.AddIntent | st_app/utils/state.py:33-40 | exactly one intent record is appended at the end; nothing else changes |
| State.GetLastUserMessage | st_app/utils/state.py:42-47 | the content of the latest user message, unstripped and possibly empty, or `""` when there is none |
| State.LastUserAfterAdd | st_app/utils/state.py:26-47 | after adding a user message, that message is the last user message |
| State.Window | st_app/utils/state.py:52 | the window is the last min(10, n) messages |
| State.HistoryLines | st_app/utils/state.py:49-55 | the history has one line per message of the window |
| State.GetConversationHistory | st_app/utils/state.py:49-55 | the history text is empty exactly when there are no messages |
| State.HistoryReadsBack | st_app/utils/state.py:49-55 | splitting the history text at its line breaks gives back the labelled lines, one per window message, when no content holds a line break |
| State.HistorySlides | st_app/utils/state.py:49-55 | a new message adds its labelled line at the end, and once ten lines are shown the oldest drops out |
| State.Reset | st_app/utils/state.py:57-64 | reset gives a fresh state except that `k` is kept |
| State.ToDict | st_app/utils/state.py:66-74 | the dictionary exposes the messages, `k`, the route, the citations and the error, unchanged |
| State.QuestionAgreesWithState | st_app/utils/state.py:42-47 | when the latest user message is non-empty and stripped, the router's question and the state's last user message agree |
| Retriever.Rank | st_app/rag/retriever.py:32 | the insertion ranking of the first `n` positions is a permutation of them, ordered by descending score with ties in corpus order |
| Retriever.RankOrder | st_app/rag/retriever.py:32 | the ranking is a permutation of all positions, by descending score with ties in corpus order |
| Retriever.RankOrderCoversCorpus | st_app/rag/retriever.py:32-34 | every corpus position appears in the ranking exactly once |
| Retriever.RankingUnique | st_app/rag/retriever.py:32 | two orderings of the same positions that both follow the ranking rule are equal, so the stable sort's result is determined |
| Retriever.Scored | st_app/rag/retriever.py:35-40 | a returned document has the entry's text and metadata with `score` added, and its score field equals that entry |
| Retriever.TfIdfRetrieve | st_app/rag/retriever.py:27-42 | an empty query gives no documents; otherwise every corpus entry, scored, in ranking order, with non-increasing scores |
| Retriever.TfIdfReturnsCorpusOnce | st_app/rag/retriever.py:31-42 | every corpus entry is returned with its own score |
| Retriever.FilledSlots | st_app/rag/retriever.py:159-161 | every kept slot is filled and comes from the search, every filled slot is kept, a search without filled slots keeps none, and a search with only filled slots keeps all in order |
| Retriever.FilledSlotsOne | st_app/rag/retriever.py:159-161 | one slot is kept exactly when it is filled |
| Retriever.FilledSlotsAppend | st_app/rag/retriever.py:159-161 | filtering two consecutive runs of slots is filtering each and concatenating, which with `FilledSlotsOne` fixes the survivors and their order |
| Retriever.SearchWidth | st_app/rag/retriever.py:155 | the search asks for min(50, n) slots |
| Retriever.FaissRetrieve | st_app/rag/retriever.py:150-169 | an empty query gives no documents; otherwise one scored document per kept slot, in search order, at most min(50, n) of them, and the document of every filled slot is among them |
| Retriever.TextColumn | st_app/rag/retriever.py:58-60 | `cleaned_text` is preferred, else `text`, and a file with neither is skipped |
| Retriever.Rating | st_app/rag/retriever.py:71-72 | a rating exists exactly when the file has a `score` column and the row's score is present and readable; an unreadable one raises |
| Retriever.RowMeta | st_app/rag/retriever.py:65-72 | metadata always names the file and the row, has `date` exactly when the row has a date, `rating` exactly when a rating was read, and no other key |
| Retriever.FileDocs | st_app/rag/retriever.py:61-75 | each document comes from a row with non-empty text, carries that row's text and metadata and no score, and rows appear in file order |
| Retriever.FileDocsComplete | st_app/rag/retriever.py:61-73 | when every rating can be read, every row with non-empty text becomes a document |
| Retriever.CsvDocs | st_app/rag/retriever.py:56-75 | a file without a text column gives nothing; otherwise its rows' documents |
| Retriever.LoadReviewTexts | st_app/rag/retriever.py:45-76 | the documents of the YES24, Kyobo and Aladin files in that order, each with text, file and row, and no score |
| UserService.Save | app/user/user_repository.py:36-50 | the saved user replaces the row with its e-mail, and every other row is untouched |
| UserService.Login | app/user/user_service.py:16-34 | an unknown e-mail fails with `User not Found.` before the password is checked; a wrong password fails with `Invalid ID/PW`; otherwise the stored user |
| UserService.Register | app/user/user_service.py:36-51 | a taken e-mail fails with `User already Exists.` and leaves the table unchanged; otherwise the user is stored and returned |
| UserService.Delete | app/user/user_service.py:53-69 | an unknown e-mail fails and changes nothing; otherwise exactly that row is removed and returned |
| UserService.UpdatePassword | app/user/user_service.py:71-89 | an unknown e-mail fails and changes nothing; otherwise only that user's password changes |
| UserService.ServiceKeepsConsistent | app/user/user_repository.py:22-62 | no service call files a user under another e-mail |
| UserService.LoginAfterRegister | app/user/user_service.py:36-51 | a user just registered can log in with the password given |
| UserService.DeleteUndoesRegister | app/user/user_service.py:36-69 | registering and then deleting the same e-mail restores the table |
| UserService.LoginAfterUpdate | app/user/user_service.py:71-89 | after a password change the new password logs in as the same user, the old one (if different) is rejected, and other rows are untouched |
| UserService.LoginAfterDelete | app/user/user_service.py:53-69 | a deleted user can no longer log in |
| Reviews.Clean | review_analysis/preprocessing/aladin_processor.py:59 | the cleaned text holds only word, whitespace or Hangul characters and is no longer than the text |
| Reviews.CleanFixesPlainText | review_analysis/preprocessing/kyobo_processor.py:63 | cleaning keeps a text made only of such characters, and cleaning twice is cleaning once |
| Reviews.CleanAppend | review_analysis/preprocessing/yes24_processor.py:65 | cleaning works character by character: cleaning a concatenation concatenates the cleaned parts |
| Reviews.CleanChar | review_analysis/preprocessing/aladin_processor.py:59 | a special character is removed and any word, whitespace or Hangul character is kept, so with `CleanAppend` the cleaned text is the input with exactly its special characters deleted |
| Reviews.CleanDeletes | review_analysis/preprocessing/aladin_processor.py:59 | a special character anywhere in a text leaves no trace: the cleaned text is the cleaned text before it followed by the cleaned text after it |
| Reviews.Scale2 | review_analysis/preprocessing/aladin_processor.py:46-49 | doubling keeps a missing value missing, doubles a number, and repeats a string twice |
| Reviews.ReviewOf | review_analysis/preprocessing/aladin_processor.py:55-59 | a kept row becomes a review with its position, text, date and score, score 0 to 10, text length 5 to 1000, and the cleaned text |
| Reviews.KeptFrom | review_analysis/preprocessing/kyobo_processor.py:52-63 | the kept reviews come from rows that pass every filter, in input order |
| Reviews.KeptFromComplete | review_analysis/preprocessing/kyobo_processor.py:52-60 | every row that passes the filters is kept |
| Reviews.Filters | review_analysis/preprocessing/aladin_processor.py:55-59 | a string score reaching the plain range check raises `TypeError`; otherwise every result is well formed, comes from a passing row, and keeps input order |
| Reviews.FiltersKeepExactlyPassingRows | review_analysis/preprocessing/aladin_processor.py:55-58 | a row is kept exactly when it passes the missing-value, range and length filters, and it is kept as its own review |
| Reviews.MissingTextDropped | review_analysis/preprocessing/kyobo_processor.py:28-60 | a missing text, turned into `"nan"` by `astype(str)`, is too short to be kept |
| Reviews.MissingOf | review_analysis/preprocessing/aladin_processor.py:55 | `dropna` names exactly the missing columns among `score`, `text`, `date` |
| Reviews.Carried | review_analysis/preprocessing/aladin_processor.py:52-53 | the carried columns are the row's columns minus the dropped source columns and the derived ones, with their values |
| Reviews.KeptFromRuleIrrelevant | review_analysis/preprocessing/kyobo_processor.py:55-56 | without string scores, numeric coercion keeps the same rows as the plain comparison |
| Aladin.MapRows | review_analysis/preprocessing/aladin_processor.py:36-53 | one mapped row per input row: text from `리뷰` else `review`, date from `날짜` else `date`, score from `별점`·2 else `rating`·2, the source columns dropped |
| Aladin.Preprocess | review_analysis/preprocessing/aladin_processor.py:20-60 | a frame lacking score, text or date fails naming those columns; a string score reaching the range check fails with `TypeError`; otherwise well-formed reviews in input order |
| Aladin.KeepsExactlyPassingRows | review_analysis/preprocessing/aladin_processor.py:55-58 | a row is kept exactly when it passes every filter |
| Aladin.StarsDoubled | review_analysis/preprocessing/aladin_processor.py:36-56 | a kept review's text is its `리뷰` and its score is twice its `별점`, which lies between 0 and 5 |
| Kyobo.MapRows | review_analysis/preprocessing/kyobo_processor.py:28-49 | text from `리뷰`, `review` or `text` in that priority, date from `날짜` else `date`, score from `별점`·2, `rating`·2 or `score` |
| Kyobo.Preprocess | review_analysis/preprocessing/kyobo_processor.py:16-65 | a frame lacking score, text or date fails naming those columns; otherwise well-formed reviews in input order, and no score raises |
| Kyobo.KeepsExactlyPassingRows | review_analysis/preprocessing/kyobo_processor.py:52-60 | a row is kept exactly when it passes every filter after coercion |
| Kyobo.UnreadableScoreDropped | review_analysis/preprocessing/kyobo_processor.py:55-56 | a score that `pd.to_numeric` cannot read drops the row |
| Kyobo.AgreesWithAladin | review_analysis/preprocessing/kyobo_processor.py:28-56 | on frames with a review column, a rating column and no string ratings, Kyobo and Aladin preprocess identically |
| Yes24.LeadingDigits | review_analysis/preprocessing/yes24_processor.py:36 | the longest run of digits at the start of the string |
| Yes24.FirstDigitRun | review_analysis/preprocessing/yes24_processor.py:36 | there is no number exactly when the string has no digit |
| Yes24.FirstDigitRunSkips | review_analysis/preprocessing/yes24_processor.py:36 | characters before the first digit do not matter |
| Yes24.RatingLabelRead | review_analysis/preprocessing/yes24_processor.py:34-36 | `평점<n>점` is read as `n` |
| Yes24.RateScore | review_analysis/preprocessing/yes24_processor.py:36 | the score read from `rate` is missing or a whole non-negative number |
| Yes24.MapRows | review_analysis/preprocessing/yes24_processor.py:35-51 | one mapped row per input row: score from `rate`, text from `review`, date from `day`, or the existing columns |
| Yes24.Preprocess | review_analysis/preprocessing/yes24_processor.py:15-68 | a missing text column fails first, then a missing date column, then a missing score column; otherwise well-formed reviews in input order |
| Yes24.KeepsExactlyPassingRows | review_analysis/preprocessing/yes24_processor.py:54-62 | a row is kept exactly when it passes every filter |
| Yes24.RatedRowScore | review_analysis/preprocessing/yes24_processor.py:35-58 | a row rated `평점<n>점` has score `n`, and is kept only if `n` is at most 10 |
| Strings.SplitJoinRoundTrip | st_app/graph/nodes/chat_node.py:171-172 | `splitlines` inverts joining with `\n` when no line holds a break and the last is non-empty |
| Strings.ContainsIff | st_app/graph/router.py:44-47 | substring search agrees with an occurrence at some offset |
| Strings.StripParts | st_app/graph/router.py:37 | `strip()` removes only whitespace, and only at the two ends |
| Strings.StripExact | st_app/graph/router.py:37 | a core that neither starts nor ends with whitespace is what `strip()` leaves of it with whitespace around it |
| Strings.SplitLinesPair | st_app/graph/nodes/chat_node.py:171 | two lines without breaks, joined by `\n`, split back into the two |
| Strings.LowerIdempotent | st_app/graph/router.py:38 | lower-casing twice is lower-casing once |
| Strings.DecimalRoundTrip | st_app/graph/nodes/rag_review_node.py:24 | the rendered document number reads back as the number |

## Left out

- Language models, the subject chain, `json.loads`, `float`, `pd.to_numeric` and `pd.to_datetime` are function parameters. Their internals are not modelled.
- The embedders, TF-IDF and cosine arithmetic, the FAISS index build and persistence, cached singletons and path resolution are not modelled. Similarities are integers that keep their order, and an index is its search function.
- `get_faiss_retriever(use_api=True)` (st_app/graph/nodes/rag_review_node.py:51) always raises, because the function takes no argument. The node therefore always uses the TF-IDF retriever. The model receives the retriever as a `Result` parameter, so both outcomes are covered.
- `RagReview.RagReviewNode` does not model the traceback stored in the error record; the record keeps the node and the detail. It reads a `k` key whose value is `None` as absent (4), where `int(None)` would raise. On success it keeps an older `error`, as the code does. On the error path the code appends the fallback message in place to the caller's `messages` list, because `dict(state)` is a shallow copy, so the message also reaches `ChatState.messages` through `to_dict` and the graph's input state; the model returns a new state and leaves the input unchanged.
- `ChatNode.Run` models only the path without an API client. With a client, the code calls `_call_real_llm`, which it does not define. `graph.py` and `router.py` import a `chat_node` function that `chat_node.py` does not define. The graph and `run_graph` therefore take the composers as parameters.
- `ChatNode.RunReadsStubRecord` assumes a parser that reads back what `json.dumps` wrote. Records whose strings hold U+0085, U+2028 or U+2029 are excluded, because `json.dumps` leaves those line breaks unescaped.
- Confidences are integer hundredths. Python's float rendering is modelled only for these values.
- `Strings.Lower` lower-cases ASCII letters only. `\s`, `\w` and `str.strip` follow the characters listed in strings.dfy and reviews.dfy, which cover ASCII, Hangul and the common Unicode spaces, not every Unicode category.
- `Router.Dispatch` returns the model's failure when the routing call raises. The code does not catch it, so it propagates out of `_decide_route`.
- `SubjectInfo.SubjectInfoNode` cannot tell a JSON `null` title from an absent one: both fall back to the name, while the code would print `None` for `null`. The code writes `last_answer` into the state it was given and returns that same dictionary; the model returns a new state, which is what callers read. The subject table's JSON load and the chain construction at import time are not modelled.
- `Retriever.LoadReviewTexts` takes the file system and `read_csv` as one parameter, which gives the parsed file or nothing. `os.path.exists` and a raising `read_csv` are both "nothing". The row position stands for the frame's default index.
- `Records.Show` renders a numeric metadata value through its integer score encoding. Python would print the float, but the model keeps only the order and zero of scores, not their digits.
- `Table.AsStr` renders numbers as float text. pandas prints whole-number integer columns without `.0`.
- `Reviews.ParseDate` parses each date cell on its own. pandas 2 infers one format for the whole column from its first non-missing value, so a cell can become `NaT` because of another row; that column-wide inference is not modelled.
- `Yes24.FirstDigitRun` reads ASCII digits only. The pattern `\d+` also matches other Unicode decimal digits.
- `Yes24.Preprocess` parses the date once. The second `pd.to_datetime` on an already-parsed column is assumed to give the same value.
- `Aladin.Preprocess` drops rows whose existing `text` cell is not a string. The code gives such a cell a missing length, which the filter drops, or raises `AttributeError` when the whole column is numeric; that exception is not modelled.
- `UserService` treats the `users` table as keyed by e-mail. If other unique keys made `REPLACE INTO` remove further rows, that is not modelled.
- `feature_engineering`, `save_to_database`, the crawlers, the MongoDB and SQL glue, the FastAPI routers and the Streamlit UI are all I/O or framework code, and are not modelled.

## Findings

| source | as written | input that shows it | evidently intended | confidence | as-written member | corrected member |
|---|---|---|---|---|---|---|
| st_app/graph/graph.py:29-43 | the wrapper passes on the last message of the composer's output and all its citations, even when the composer added nothing; the graph's merge concatenates them onto the state again | a turn holding only the question `q`, routed to `subject_info_node`, which returns the state unchanged: the merged messages are `[q, q]` | only what the composer added is merged: a new last message, and citations that changed | not executed | Graph.WrapPartial, Graph.WrapPartialRepeatsOldMessage, Graph.WrapPartialDuplicatesQuestion | Graph.WrapPartialNew, Graph.WrapPartialNewIdle, Graph.WrapPartialNewAppends, Graph.Invoke, Graph.InvokeIdleComposer |
