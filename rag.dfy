/** The query side of the assistant, `rag_engine.py`: question validation,
    the rendering of the recent conversation, the context block, snippets
    and source labels of a reply, the per-session conversation store, the
    one-time initialisation of the retriever, model and prompt, and
    `process_query`, which ties them together.

    The retriever's documents, the model's answer, the clock and the
    success of each initialisation step are inputs. */
module Rag {
  import opened Wrappers
  import opened Text
  import opened Documents

  // ---------------------------------------------------------------- validate_question

  const EmptyQuestion: string := "Question cannot be empty"
  const ShortQuestion: string := "Question is too short"

  /** `validate_question(question)`: `None` stands for Python's `None`, a
      `Failure` for the `ValueError` it raises. */
  function ValidateQuestion(question: Option<string>): (r: Outcome<string>)
    ensures question.None? || Strip(question.value) == [] ==> r == Failure(EmptyQuestion)
    ensures question.Some? && Strip(question.value) != [] && |Join(Words(question.value), " ")| < 3 ==>
      r == Failure(ShortQuestion)
    ensures r.Success? ==> question.Some? && r.value == Join(Words(question.value), " ")
  {
    if question.None? || Strip(question.value) == [] then Failure(EmptyQuestion)
    else if |Join(Words(question.value), " ")| < 3 then Failure(ShortQuestion)
    else Success(Join(Words(question.value), " "))
  }

  /** A question is accepted exactly when its words, joined by single
      spaces, make at least three characters. */
  lemma ValidateAccepts(question: Option<string>)
    ensures ValidateQuestion(question).Success? <==> question.Some? && |Join(Words(question.value), " ")| >= 3
  {
    if question.Some? && Strip(question.value) == [] {
      StripBlank(question.value);
      WordsOfBlank(question.value);
    }
  }

  /** Validation rejects a missing or all-whitespace question as empty, and
      any other question whose words, joined by single spaces, make fewer
      than three characters as too short. */
  lemma ValidateRejects(question: Option<string>)
    ensures ValidateQuestion(question) == Failure(EmptyQuestion) <==>
      question.None? || forall i :: 0 <= i < |question.value| ==> IsSpace(question.value[i])
    ensures ValidateQuestion(question) == Failure(ShortQuestion) <==>
      && question.Some?
      && (exists i :: 0 <= i < |question.value| && !IsSpace(question.value[i]))
      && |Join(Words(question.value), " ")| < 3
  {
    if question.Some? {
      StripBlank(question.value);
    }
  }

  /** An accepted question has the same words as the input, single spaces
      between them and no whitespace at either end. */
  lemma ValidatedForm(question: Option<string>)
    requires ValidateQuestion(question).Success?
    ensures |ValidateQuestion(question).value| >= 3
    ensures Words(ValidateQuestion(question).value) == Words(question.value)
    ensures SingleSpaced(ValidateQuestion(question).value)
    ensures Strip(ValidateQuestion(question).value) == ValidateQuestion(question).value
  {
    CollapsedForm(question.value);
  }

  /** The properties of `" ".join(s.split())` that make it a fixed point. */
  lemma CollapsedForm(s: string)
    ensures Words(Join(Words(s), " ")) == Words(s)
    ensures SingleSpaced(Join(Words(s), " "))
    ensures Strip(Join(Words(s), " ")) == Join(Words(s), " ")
  {
    WordsOfJoin(Words(s));
    JoinWordsSingleSpaced(Words(s));
    SingleSpacedStripped(Join(Words(s), " "));
  }

  lemma SingleSpacedStripped(s: string)
    requires SingleSpaced(s)
    ensures Strip(s) == s
  {
    if s != [] {
      assert !IsSpace(s[0]) && !IsSpace(s[|s| - 1]);
    }
    StripOfStripped(s);
  }

  /** Validating an accepted question again changes nothing. */
  lemma ValidateIdempotent(question: Option<string>)
    requires ValidateQuestion(question).Success?
    ensures ValidateQuestion(Some(ValidateQuestion(question).value)) == ValidateQuestion(question)
  {
    ValidatedForm(question);
    ValidateAccepts(Some(ValidateQuestion(question).value));
  }

  // ---------------------------------------------------------------- conversation history

  /** One record of a session's stored list. */
  datatype Exchange = Exchange(timestamp: string, question: string, answer: string, contextSources: nat)

  const NoHistory: string := "No previous conversation"

  /** `s[:n]`. */
  function Take(s: string, n: nat): (r: string)
    ensures |r| == if |s| < n then |s| else n
    ensures r == s[..|r|]
  {
    if |s| <= n then s else s[..n]
  }

  /** `history[-3:]`: the last three exchanges, or all of them when there are
      fewer. */
  function Recent(history: seq<Exchange>): (r: seq<Exchange>)
    ensures |r| == if |history| < 3 then |history| else 3
    ensures r == history[|history| - |r|..]
  {
    if |history| <= 3 then history else history[|history| - 3..]
  }

  /** The two lines an exchange renders to; the answer is cut to 200
      characters and always followed by `...`. */
  function ExchangeLines(e: Exchange): seq<string> {
    ["User: " + e.question, "Assistant: " + Take(e.answer, 200) + "..."]
  }

  function HistoryLines(entries: seq<Exchange>): (r: seq<string>)
    ensures |r| == 2 * |entries|
  {
    if entries == [] then []
    else HistoryLines(entries[..|entries| - 1]) + ExchangeLines(entries[|entries| - 1])
  }

  /** What `format_conversation_history(history)` returns. */
  function FormatHistory(history: seq<Exchange>): string {
    if history == [] then NoHistory else Join(HistoryLines(Recent(history)), "\n")
  }

  /** `format_conversation_history`: the loop appending two lines per recent
      exchange, then the newline join. */
  method FormatConversationHistory(history: seq<Exchange>) returns (text: string)
    ensures text == FormatHistory(history)
  {
    if history == [] {
      return NoHistory;
    }
    var recent := Recent(history);
    var formatted: seq<string> := [];
    for i := 0 to |recent|
      invariant formatted == HistoryLines(recent[..i])
    {
      HistoryLinesSnoc(recent, i, formatted);
      formatted := formatted + ["User: " + recent[i].question];
      formatted := formatted + ["Assistant: " + Take(recent[i].answer, 200) + "..."];
    }
    assert recent[..|recent|] == recent;
    text := Join(formatted, "\n");
  }

  lemma HistoryLinesSnoc(entries: seq<Exchange>, i: nat, lines: seq<string>)
    requires i < |entries| && lines == HistoryLines(entries[..i])
    ensures lines + ["User: " + entries[i].question] + ["Assistant: " + Take(entries[i].answer, 200) + "..."]
      == HistoryLines(entries[..i + 1])
  {
    assert entries[..i + 1][..i] == entries[..i];
  }

  /** Line `2k` is exchange `k`'s question and line `2k + 1` its cut answer. */
  lemma {:induction false} HistoryLinesAt(entries: seq<Exchange>, k: nat)
    requires k < |entries|
    ensures HistoryLines(entries)[2 * k] == "User: " + entries[k].question
    ensures HistoryLines(entries)[2 * k + 1] == "Assistant: " + Take(entries[k].answer, 200) + "..."
    decreases |entries|
  {
    if k < |entries| - 1 {
      assert entries[..|entries| - 1][k] == entries[k];
      HistoryLinesAt(entries[..|entries| - 1], k);
    }
  }

  /** Exchanges without line breaks render to lines without line breaks. */
  lemma {:induction false} HistoryLinesOneLine(entries: seq<Exchange>)
    requires forall k :: 0 <= k < |entries| ==> '\n' !in entries[k].question && '\n' !in entries[k].answer
    ensures forall i :: 0 <= i < |HistoryLines(entries)| ==> '\n' !in HistoryLines(entries)[i]
    decreases |entries|
  {
    if entries != [] {
      var n := |entries| - 1;
      forall k | 0 <= k < n ensures entries[..n][k] == entries[k] {
      }
      HistoryLinesOneLine(entries[..n]);
      assert '\n' !in "User: " && '\n' !in "Assistant: " && '\n' !in "...";
      assert '\n' !in Take(entries[n].answer, 200);
    }
  }

  /** When no recent question or answer contains a line break, splitting the
      rendered history at line breaks gives back exactly its lines: two per
      recent exchange, in order. */
  lemma HistoryReadBack(history: seq<Exchange>)
    requires history != []
    requires forall k :: 0 <= k < |Recent(history)| ==>
      '\n' !in Recent(history)[k].question && '\n' !in Recent(history)[k].answer
    ensures Split(FormatHistory(history), '\n') == HistoryLines(Recent(history))
  {
    HistoryLinesOneLine(Recent(history));
    SplitJoin(HistoryLines(Recent(history)), '\n');
  }

  // ---------------------------------------------------------------- context, snippets, sources

  const Divider: string := "\n\n---\n\n"

  /** The context block of the `n`-th retrieved document. */
  function SourceBlock(n: nat, d: Document): string {
    "Source " + NatToString(n) + ":\n" + d.pageContent
  }

  function ContextBlocks(docs: seq<Document>): (r: seq<string>)
    ensures |r| == |docs|
    ensures forall k :: 0 <= k < |docs| ==> r[k] == SourceBlock(k + 1, docs[k])
  {
    seq(|docs|, k requires 0 <= k < |docs| => SourceBlock(k + 1, docs[k]))
  }

  /** The `context_text` handed to the model. */
  function ContextText(docs: seq<Document>): string {
    Join(ContextBlocks(docs), Divider)
  }

  /** One document gives its block alone. */
  lemma ContextOne(d: Document)
    ensures ContextText([d]) == SourceBlock(1, d)
  {
  }

  /** A further document adds a divider and its block, numbered by its
      position. */
  lemma ContextSnoc(docs: seq<Document>, d: Document)
    requires docs != []
    ensures ContextText(docs + [d]) == ContextText(docs) + Divider + SourceBlock(|docs| + 1, d)
  {
    assert ContextBlocks(docs + [d]) == ContextBlocks(docs) + [SourceBlock(|docs| + 1, d)];
    JoinSnoc(ContextBlocks(docs), Divider, SourceBlock(|docs| + 1, d));
  }

  /** Every retrieved document's block is in the context. */
  lemma ContextHasBlock(docs: seq<Document>, k: nat)
    requires k < |docs|
    ensures Contains(ContextText(docs), SourceBlock(k + 1, docs[k]))
  {
    JoinContains(ContextBlocks(docs), Divider, k);
  }

  /** A snippet: the content itself up to 300 characters, otherwise its first
      300 characters and `...`. */
  function Snippet(content: string): (r: string)
    ensures |r| <= 303
    ensures |content| <= 300 ==> r == content
    ensures |content| > 300 ==> |r| == 303 && r[..300] == content[..300] && r[300..] == "..."
  {
    if |content| > 300 then content[..300] + "..." else content
  }

  function Snippets(docs: seq<Document>): (r: seq<string>)
    ensures |r| == |docs|
    ensures forall k :: 0 <= k < |docs| ==> r[k] == Snippet(docs[k].pageContent)
  {
    seq(|docs|, k requires 0 <= k < |docs| => Snippet(docs[k].pageContent))
  }

  /** `doc.metadata.get("source", "Bank of Maharashtra")`. */
  function SourceLabel(d: Document): (r: string)
    ensures "source" in d.metadata ==> r == d.metadata["source"]
    ensures "source" !in d.metadata ==> r == BankName
  {
    Get(d.metadata, "source", BankName)
  }

  function SourceLabels(docs: seq<Document>): (r: seq<string>)
    ensures |r| == |docs|
    ensures forall k :: 0 <= k < |docs| ==> r[k] == SourceLabel(docs[k])
  {
    seq(|docs|, k requires 0 <= k < |docs| => SourceLabel(docs[k]))
  }

  predicate NoDuplicates(xs: seq<string>) {
    forall i, j :: 0 <= i < j < |xs| ==> xs[i] != xs[j]
  }

  /** `list(set(xs))`, in first-occurrence order; Python leaves the order to
      the set, so only the elements and their uniqueness are promised. */
  function Distinct(xs: seq<string>): seq<string> {
    if xs == [] then []
    else if xs[|xs| - 1] in Distinct(xs[..|xs| - 1]) then Distinct(xs[..|xs| - 1])
    else Distinct(xs[..|xs| - 1]) + [xs[|xs| - 1]]
  }

  /** The distinct labels hold no label twice and exactly the labels given. */
  lemma {:induction false} DistinctSpec(xs: seq<string>)
    ensures NoDuplicates(Distinct(xs))
    ensures forall x :: x in Distinct(xs) <==> x in xs
    decreases |xs|
  {
    if xs != [] {
      var n := |xs| - 1;
      DistinctSpec(xs[..n]);
      assert xs == xs[..n] + [xs[n]];
    }
  }

  /** A non-empty list of one repeated label has that label as its only
      distinct label. */
  lemma {:induction false} DistinctConstant(xs: seq<string>, x: string)
    requires xs != [] && forall k :: 0 <= k < |xs| ==> xs[k] == x
    ensures Distinct(xs) == [x]
    decreases |xs|
  {
    var n := |xs| - 1;
    if n > 0 {
      DistinctConstant(xs[..n], x);
    }
  }

  /** Documents labelled with the bank's name, as the corpus builder labels
      them, or not labelled at all are reported under the bank's name, once. */
  lemma BankSourcesOnce(docs: seq<Document>)
    requires docs != []
    requires forall k :: 0 <= k < |docs| ==> "source" !in docs[k].metadata || docs[k].metadata["source"] == BankName
    ensures Distinct(SourceLabels(docs)) == [BankName]
  {
    DistinctConstant(SourceLabels(docs), BankName);
  }

  // ---------------------------------------------------------------- conversation store

  /** The records of a session in the conversation files; none when it has
      no file. */
  function SessionHistory(sessions: map<string, seq<Exchange>>, sessionId: string): seq<Exchange> {
    if sessionId in sessions then sessions[sessionId] else []
  }

  /** Writing a session's records changes only that session. */
  lemma SessionUpdate(sessions: map<string, seq<Exchange>>, sessionId: string, records: seq<Exchange>)
    ensures SessionHistory(sessions[sessionId := records], sessionId) == records
    ensures forall id :: id != sessionId ==> SessionHistory(sessions[sessionId := records], id) == SessionHistory(sessions, id)
    ensures sessions[sessionId := records].Keys == sessions.Keys + {sessionId}
  {
  }

  /** The conversation files, one per session, as a map from session id to
      the session's records. */
  class ConversationStore {
    var sessions: map<string, seq<Exchange>>

    /** A session file exists only once a record has been saved to it. */
    ghost predicate Valid()
      reads this
    {
      forall id :: id in sessions ==> sessions[id] != []
    }

    constructor ()
      ensures sessions == map[] && Valid()
    {
      sessions := map[];
    }

    /** The records of a session; none when it has no file. */
    function History(sessionId: string): seq<Exchange>
      reads this
    {
      SessionHistory(sessions, sessionId)
    }

    /** `save_conversation`: read the session's list, append one record,
        write it back. */
    method Save(sessionId: string, question: string, answer: string, context: seq<string>, timestamp: string)
      requires Valid()
      modifies this
      ensures Valid()
      ensures History(sessionId) == old(History(sessionId)) + [Exchange(timestamp, question, answer, |context|)]
      ensures forall id :: id != sessionId ==> History(id) == old(History(id))
      ensures sessions.Keys == old(sessions.Keys) + {sessionId}
      ensures sessions == old(sessions)[sessionId := old(History(sessionId)) + [Exchange(timestamp, question, answer, |context|)]]
    {
      var conversation: seq<Exchange> := [];
      if sessionId in sessions {
        conversation := sessions[sessionId];
      }
      conversation := conversation + [Exchange(timestamp, question, answer, |context|)];
      sessions := sessions[sessionId := conversation];
    }

    /** `load_conversation`. */
    method Load(sessionId: string) returns (history: seq<Exchange>)
      ensures sessionId !in sessions ==> history == []
      ensures sessionId in sessions ==> history == sessions[sessionId]
      ensures history == History(sessionId)
    {
      if sessionId in sessions {
        return sessions[sessionId];
      }
      return [];
    }

    /** `clear_conversation`: delete the session's file, reporting whether
        there was one. */
    method Clear(sessionId: string) returns (existed: bool)
      requires Valid()
      modifies this
      ensures Valid()
      ensures existed <==> old(History(sessionId)) != []
      ensures History(sessionId) == []
      ensures forall id :: id != sessionId ==> History(id) == old(History(id))
    {
      if sessionId in sessions {
        sessions := sessions - {sessionId};
        return true;
      }
      return false;
    }
  }

  // ---------------------------------------------------------------- initialize_system

  datatype Retriever = Retriever(searchType: string, k: nat)
  datatype Model = Model(name: string)
  datatype Prompt = EnhancedPrompt

  const IndexPath: string := "faiss_index_bom"
  const RetrievalK: nat := 5
  const ModelName: string := "gemini-2.5-flash"
  const MissingKeyMessage: string := "GOOGLE_API_KEY not found in environment variables"

  /** Which initialisation steps succeed: loading the embedding model, finding
      the index directory, loading the index, and finding the model's API
      key. */
  datatype Services = Services(embeddingsLoad: bool, indexPresent: bool, indexLoads: bool, apiKeySet: bool)

  /** The exception `initialize_system` re-raises. */
  datatype InitFailure =
    | EmbeddingsFailed
    | IndexNotFound(message: string)
    | IndexLoadFailed
    | ModelFailed(message: string)

  /** The first step that fails, in the order the steps run. */
  function FirstFailure(env: Services): (r: Option<InitFailure>)
    ensures r.None? <==> env.embeddingsLoad && env.indexPresent && env.indexLoads && env.apiKeySet
  {
    if !env.embeddingsLoad then Some(EmbeddingsFailed)
    else if !env.indexPresent then Some(IndexNotFound("Vector database not found at " + IndexPath + ". Run ingest.py first."))
    else if !env.indexLoads then Some(IndexLoadFailed)
    else if !env.apiKeySet then Some(ModelFailed(MissingKeyMessage))
    else None
  }

  /** What the model is asked: the context block, the rendered history and
      the validated question. */
  datatype PromptInputs = PromptInputs(context: string, history: string, question: string)

  /** The reply dictionary: `answer`, `context_used` and `sources`. */
  datatype QueryResult = QueryResult(answer: string, contextUsed: seq<string>, sources: seq<string>)

  /** The exceptions `process_query` re-raises after validation: the
      retriever's call raised, the prompt or the model is unset (`_prompt.format`
      or `_prompt | _llm` raises), or the model's call raised. */
  datatype QueryError = RetrievalFailed | ComponentMissing | GenerationFailed

  /** How `process_query` ends: with a reply, with the `ValueError` of
      validation, with the exception of a failed initialisation, or with a
      later exception. */
  datatype Reply =
    | Answered(result: QueryResult)
    | Rejected(message: string)
    | NotInitialized(failure: InitFailure)
    | Raised(error: QueryError)

  const NotFoundAnswer: string :=
    "I couldn't find relevant information in the bank's documentation. Please contact Bank of Maharashtra directly for assistance."

  /** What a call of `process_query` leaves behind: its reply, the prompts
      sent to the model so far and the conversation files. */
  datatype QueryEffect = QueryEffect(reply: Reply, modelCalls: seq<PromptInputs>, sessions: map<string, seq<Exchange>>)

  /** `process_query` past validation, for the validated question, given
      what the retriever returns (`None` when its call raises), whether the
      prompt and the model are set, what the model returns (`None` when its
      call raises), the prompts sent so far and the conversation files. */
  function AnswerEffect(question: string, retrieved: Option<seq<Document>>, componentsSet: bool, answer: Option<string>,
                        calls: seq<PromptInputs>, sessions: map<string, seq<Exchange>>, sessionId: string,
                        timestamp: string): QueryEffect
  {
    if retrieved.None? then QueryEffect(Raised(RetrievalFailed), calls, sessions)
    else if retrieved.value == [] then QueryEffect(Answered(QueryResult(NotFoundAnswer, [], [])), calls, sessions)
    else if !componentsSet then QueryEffect(Raised(ComponentMissing), calls, sessions)
    else
      var history := SessionHistory(sessions, sessionId);
      var prompted := calls + [PromptInputs(ContextText(retrieved.value), FormatHistory(history), question)];
      if answer.None? then QueryEffect(Raised(GenerationFailed), prompted, sessions)
      else
        var docs := retrieved.value;
        QueryEffect(Answered(QueryResult(answer.value, Snippets(docs), Distinct(SourceLabels(docs)))), prompted,
                    sessions[sessionId := history + [Exchange(timestamp, question, answer.value, |docs|)]])
  }

  /** `process_query` as a whole; `initFailure` is the failure of the
      initialisation the call runs, if it runs one and that fails. */
  function ProcessEffect(initFailure: Option<InitFailure>, question: Option<string>, retrieved: Option<seq<Document>>,
                         componentsSet: bool, answer: Option<string>, calls: seq<PromptInputs>,
                         sessions: map<string, seq<Exchange>>, sessionId: string, timestamp: string): QueryEffect
  {
    if initFailure.Some? then QueryEffect(NotInitialized(initFailure.value), calls, sessions)
    else if ValidateQuestion(question).Failure? then QueryEffect(Rejected(ValidateQuestion(question).error), calls, sessions)
    else AnswerEffect(ValidateQuestion(question).value, retrieved, componentsSet, answer, calls, sessions, sessionId, timestamp)
  }

  /** An invalid question ends the query, after any initialisation failure,
      with validation's message: the model is not called and nothing is
      saved. */
  lemma RejectedQuestionHasNoEffect(f: Option<InitFailure>, question: Option<string>, retrieved: Option<seq<Document>>,
                                    componentsSet: bool, answer: Option<string>, calls: seq<PromptInputs>,
                                    sessions: map<string, seq<Exchange>>, sessionId: string, timestamp: string)
    requires ValidateQuestion(question).Failure?
    ensures var e := ProcessEffect(f, question, retrieved, componentsSet, answer, calls, sessions, sessionId, timestamp);
      && (f.Some? ==> e.reply == NotInitialized(f.value))
      && (f.None? ==> e.reply == Rejected(ValidateQuestion(question).error))
      && e.modelCalls == calls && e.sessions == sessions
  {
  }

  /** A valid question for which nothing is retrieved gets the fallback
      answer, without a model call and without a save, whether or not the
      prompt and the model are set. */
  lemma NoDocumentsFallback(question: Option<string>, componentsSet: bool, answer: Option<string>,
                            calls: seq<PromptInputs>, sessions: map<string, seq<Exchange>>, sessionId: string,
                            timestamp: string)
    requires ValidateQuestion(question).Success?
    ensures ProcessEffect(None, question, Some([]), componentsSet, answer, calls, sessions, sessionId, timestamp)
      == QueryEffect(Answered(QueryResult(NotFoundAnswer, [], [])), calls, sessions)
  {
  }

  /** The model is called once, with the context of the retrieved documents,
      the session's history as stored before the call and the validated
      question, exactly when initialisation and validation passed, documents
      were retrieved and the prompt and the model are set. */
  lemma PromptedExactly(f: Option<InitFailure>, question: Option<string>, retrieved: Option<seq<Document>>,
                        componentsSet: bool, answer: Option<string>, calls: seq<PromptInputs>,
                        sessions: map<string, seq<Exchange>>, sessionId: string, timestamp: string)
    ensures var e := ProcessEffect(f, question, retrieved, componentsSet, answer, calls, sessions, sessionId, timestamp);
      if f.None? && ValidateQuestion(question).Success? && retrieved.Some? && retrieved.value != [] && componentsSet
      then e.modelCalls == calls + [PromptInputs(ContextText(retrieved.value),
                                                 FormatHistory(SessionHistory(sessions, sessionId)),
                                                 ValidateQuestion(question).value)]
      else e.modelCalls == calls
  {
  }

  /** One exchange is appended to the session's records exactly when, in
      addition, the model answered; no other session changes. */
  lemma SavedExactly(f: Option<InitFailure>, question: Option<string>, retrieved: Option<seq<Document>>,
                     componentsSet: bool, answer: Option<string>, calls: seq<PromptInputs>,
                     sessions: map<string, seq<Exchange>>, sessionId: string, timestamp: string)
    ensures var e := ProcessEffect(f, question, retrieved, componentsSet, answer, calls, sessions, sessionId, timestamp);
      if f.None? && ValidateQuestion(question).Success? && retrieved.Some? && retrieved.value != [] &&
         componentsSet && answer.Some?
      then && SessionHistory(e.sessions, sessionId) == SessionHistory(sessions, sessionId) +
                [Exchange(timestamp, ValidateQuestion(question).value, answer.value, |retrieved.value|)]
           && (forall id :: id != sessionId ==> SessionHistory(e.sessions, id) == SessionHistory(sessions, id))
           && e.sessions.Keys == sessions.Keys + {sessionId}
      else e.sessions == sessions
  {
    if f.None? && ValidateQuestion(question).Success? {
      AnswerSaved(ValidateQuestion(question).value, retrieved, componentsSet, answer, calls, sessions, sessionId, timestamp);
    }
  }

  lemma AnswerSaved(question: string, retrieved: Option<seq<Document>>, componentsSet: bool, answer: Option<string>,
                    calls: seq<PromptInputs>, sessions: map<string, seq<Exchange>>, sessionId: string, timestamp: string)
    ensures var e := AnswerEffect(question, retrieved, componentsSet, answer, calls, sessions, sessionId, timestamp);
      if retrieved.Some? && retrieved.value != [] && componentsSet && answer.Some?
      then && SessionHistory(e.sessions, sessionId) == SessionHistory(sessions, sessionId) +
                [Exchange(timestamp, question, answer.value, |retrieved.value|)]
           && (forall id :: id != sessionId ==> SessionHistory(e.sessions, id) == SessionHistory(sessions, id))
           && e.sessions.Keys == sessions.Keys + {sessionId}
      else e.sessions == sessions
  {
    if retrieved.Some? && retrieved.value != [] && componentsSet && answer.Some? {
      var records := SessionHistory(sessions, sessionId) + [Exchange(timestamp, question, answer.value, |retrieved.value|)];
      assert AnswerEffect(question, retrieved, componentsSet, answer, calls, sessions, sessionId, timestamp).sessions
        == sessions[sessionId := records];
      SessionUpdate(sessions, sessionId, records);
    }
  }

  /** A reply built from the model's answer carries that answer, a snippet
      of at most 303 characters per retrieved document, and the documents'
      source labels, each once. */
  lemma AnsweredReply(f: Option<InitFailure>, question: Option<string>, retrieved: Option<seq<Document>>,
                      componentsSet: bool, answer: Option<string>, calls: seq<PromptInputs>,
                      sessions: map<string, seq<Exchange>>, sessionId: string, timestamp: string)
    requires retrieved.Some? && retrieved.value != [] && answer.Some?
    requires ProcessEffect(f, question, retrieved, componentsSet, answer, calls, sessions, sessionId, timestamp).reply.Answered?
    ensures var result := ProcessEffect(f, question, retrieved, componentsSet, answer, calls, sessions, sessionId, timestamp).reply.result;
      && result.answer == answer.value
      && |result.contextUsed| == |retrieved.value|
      && (forall k :: 0 <= k < |result.contextUsed| ==>
            |result.contextUsed[k]| <= 303 && result.contextUsed[k] == Snippet(retrieved.value[k].pageContent))
      && NoDuplicates(result.sources)
      && (forall s :: s in result.sources <==> s in SourceLabels(retrieved.value))
  {
    DistinctSpec(SourceLabels(retrieved.value));
  }

  /** The module globals `_retriever`, `_llm` and `_prompt`. */
  class RagSystem {
    var retriever: Option<Retriever>
    var model: Option<Model>
    var prompt: Option<Prompt>
    /** Every prompt sent to the model, in order. */
    ghost var modelCalls: seq<PromptInputs>

    /** A set retriever means the model and the prompt are set too: the
        `_retriever is None` test stands for all three. */
    ghost predicate Ready()
      reads this
    {
      retriever.Some? ==> model.Some? && prompt.Some?
    }

    constructor ()
      ensures retriever.None? && model.None? && prompt.None? && modelCalls == []
      ensures Ready()
    {
      retriever, model, prompt := None, None, None;
      modelCalls := [];
    }

    /** `initialize_system` as written: `_retriever` is assigned before the
        model is built, so a failing model step leaves the retriever set, and
        every later call returns at the guard. */
    method InitializeAsWritten(env: Services) returns (failure: Option<InitFailure>)
      modifies this
      ensures old(retriever).Some? ==> failure.None? && unchanged(this)
      ensures old(retriever).None? ==> failure == FirstFailure(env)
      ensures old(retriever).None? && env.embeddingsLoad && env.indexPresent && env.indexLoads ==>
        retriever == Some(Retriever("similarity", RetrievalK))
      ensures old(retriever).None? && !(env.embeddingsLoad && env.indexPresent && env.indexLoads) ==> unchanged(this)
      ensures old(retriever).None? && failure.Some? ==> model == old(model) && prompt == old(prompt)
      ensures old(retriever).None? && failure.None? ==> model == Some(Model(ModelName)) && prompt == Some(EnhancedPrompt)
      ensures modelCalls == old(modelCalls)
    {
      if retriever.Some? {
        return None;
      }
      if !env.embeddingsLoad {
        return Some(EmbeddingsFailed);
      }
      if !env.indexPresent {
        return Some(IndexNotFound("Vector database not found at " + IndexPath + ". Run ingest.py first."));
      }
      if !env.indexLoads {
        return Some(IndexLoadFailed);
      }
      retriever := Some(Retriever("similarity", RetrievalK));
      if !env.apiKeySet {
        return Some(ModelFailed(MissingKeyMessage));
      }
      model := Some(Model(ModelName));
      prompt := Some(EnhancedPrompt);
      return None;
    }

    /** `initialize_system` with the three globals assigned together once
        every step has succeeded: a failure leaves the system as it was, so
        the next call tries again. */
    method Initialize(env: Services) returns (failure: Option<InitFailure>)
      modifies this
      ensures Ready() == old(Ready())
      ensures old(retriever).Some? ==> failure.None? && unchanged(this)
      ensures old(retriever).None? ==> failure == FirstFailure(env)
      ensures failure.Some? ==> unchanged(this)
      ensures modelCalls == old(modelCalls)
      ensures old(retriever).None? && failure.None? ==>
        && retriever == Some(Retriever("similarity", RetrievalK))
        && model == Some(Model(ModelName))
        && prompt == Some(EnhancedPrompt)
    {
      if retriever.Some? {
        return None;
      }
      if !env.embeddingsLoad {
        return Some(EmbeddingsFailed);
      }
      if !env.indexPresent {
        return Some(IndexNotFound("Vector database not found at " + IndexPath + ". Run ingest.py first."));
      }
      if !env.indexLoads {
        return Some(IndexLoadFailed);
      }
      var r := Retriever("similarity", RetrievalK);
      if !env.apiKeySet {
        return Some(ModelFailed(MissingKeyMessage));
      }
      retriever, model, prompt := Some(r), Some(Model(ModelName)), Some(EnhancedPrompt);
      return None;
    }

    /** `process_query(question, session_id)`. `retrieved` is what the
        retriever returns for the validated question, `None` when its call
        raises; `answer` is what the model returns for the prompt, `None` when
        its call raises; `timestamp` is the clock's reading. */
    method ProcessQuery(env: Services, question: Option<string>, sessionId: string, store: ConversationStore,
                        retrieved: Option<seq<Document>>, answer: Option<string>, timestamp: string)
      returns (reply: Reply)
      requires store.Valid()
      modifies this, store
      ensures store.Valid()
      // initialisation runs only while the retriever is unset
      ensures old(retriever).Some? || FirstFailure(env).Some? ==>
        retriever == old(retriever) && model == old(model) && prompt == old(prompt)
      ensures old(retriever).None? && FirstFailure(env).None? ==>
        && retriever == Some(Retriever("similarity", RetrievalK))
        && model == Some(Model(ModelName))
        && prompt == Some(EnhancedPrompt)
      ensures QueryEffect(reply, modelCalls, store.sessions) ==
        ProcessEffect(if old(retriever).None? then FirstFailure(env) else None, question, retrieved,
                      prompt.Some? && model.Some?, answer, old(modelCalls), old(store.sessions), sessionId, timestamp)
    {
      if retriever.None? {
        var failure := Initialize(env);
        if failure.Some? {
          return NotInitialized(failure.value);
        }
      }
      var validated := ValidateQuestion(question);
      if validated.Failure? {
        return Rejected(validated.error);
      }
      reply := Respond(validated.value, sessionId, store, retrieved, answer, timestamp);
    }

    /** `process_query` past validation, for the validated question: the
        session's history, retrieval, the context, the model's call, the
        snippets and sources, and the save. */
    method Respond(question: string, sessionId: string, store: ConversationStore,
                   retrieved: Option<seq<Document>>, answer: Option<string>, timestamp: string)
      returns (reply: Reply)
      requires store.Valid()
      modifies this`modelCalls, store
      ensures store.Valid()
      ensures QueryEffect(reply, modelCalls, store.sessions) ==
        AnswerEffect(question, retrieved, prompt.Some? && model.Some?, answer, old(modelCalls), old(store.sessions),
                     sessionId, timestamp)
    {
      var history := store.Load(sessionId);
      var historyText := FormatConversationHistory(history);
      if retrieved.None? {
        return Raised(RetrievalFailed);
      }
      var docs := retrieved.value;
      if docs == [] {
        return Answered(QueryResult(NotFoundAnswer, [], []));
      }
      var contextText := ContextText(docs);
      if prompt.None? || model.None? {
        return Raised(ComponentMissing);
      }
      modelCalls := modelCalls + [PromptInputs(contextText, historyText, question)];
      if answer.None? {
        return Raised(GenerationFailed);
      }
      var contextSnippets := Snippets(docs);
      var sources := SourceLabels(docs);
      store.Save(sessionId, question, answer.value, contextSnippets, timestamp);
      return Answered(QueryResult(answer.value, contextSnippets, Distinct(sources)));
    }
  }

  // ---------------------------------------------------------------- initialisation, as written and corrected

  /** With the API key missing, the first call fails after setting the
      retriever; the second, with the key now present, returns at the guard
      without error, and the system is left with a retriever but no model. */
  method AsWrittenStuck() returns (s: RagSystem, first: Option<InitFailure>, second: Option<InitFailure>)
    ensures first == Some(ModelFailed(MissingKeyMessage))
    ensures second.None?
    ensures s.retriever.Some? && s.model.None? && !s.Ready()
  {
    s := new RagSystem();
    first := s.InitializeAsWritten(Services(true, true, true, false));
    second := s.InitializeAsWritten(Services(true, true, true, true));
  }

  /** With the corrected initialisation, the same failure leaves the system
      unset, and a later call with the key present completes it. */
  method CorrectedRetries() returns (s: RagSystem, first: Option<InitFailure>, second: Option<InitFailure>)
    ensures first == Some(ModelFailed(MissingKeyMessage))
    ensures second.None?
    ensures s.retriever.Some? && s.model.Some? && s.prompt.Some? && s.Ready()
  {
    s := new RagSystem();
    first := s.Initialize(Services(true, true, true, false));
    second := s.Initialize(Services(true, true, true, true));
  }

  /** As written, a query after the failed initialisation skips
      initialisation, retrieves documents and then raises at the unset
      prompt: no model call and nothing saved. */
  method AsWrittenQueryRaises(question: Option<string>, docs: seq<Document>, store: ConversationStore)
    returns (s: RagSystem, reply: Reply)
    requires ValidateQuestion(question).Success? && docs != [] && store.Valid()
    modifies store
    ensures reply == Raised(ComponentMissing)
    ensures s.modelCalls == [] && store.sessions == old(store.sessions)
  {
    s := new RagSystem();
    var failure := s.InitializeAsWritten(Services(true, true, true, false));
    reply := s.ProcessQuery(Services(true, true, true, true), question, "default", store, Some(docs), Some("answer"), "now");
  }
}
