# Bank of Maharashtra loan assistant: corpus builder and query pipeline

This project models the two halves of a retrieval-augmented loan assistant.

The corpus builder (`ingest.py`) does four things:
- runs six fixed search queries;
- cleans each result's text;
- shapes the result into a clean text and a formatted audit text;
- keeps one document per query whose clean text is not blank.

It refuses to build an index from no documents.

The query side (`rag_engine.py`) does the following:
- initialises the retriever, the model and the prompt once;
- validates and normalises a question;
- renders the last three exchanges of the session's history;
- builds the context block, the snippets and the source labels from the retrieved documents;
- calls the model;
- appends the exchange to a per-session conversation store. The store can also load and clear sessions.

## Modules

- `Wrappers` (`wrappers.dfy`):
  - `Option` and `Outcome`. An `Outcome` failure carries the message of the exception the source raises.
  - `Somes`, the values of the `Some` entries in order.
- `Text` (`text.dfy`): Python's string operations on `seq<char>`.
  - `str.strip` is `Strip`; `str.split()` is `Words`; `str.split(c)` is `Split`; `sep.join` is `Join`; `str.lower` is `Lower`.
  - Decimal rendering of a natural number.
  - The character classes `\s` and `\w`.
- `Documents` (`documents.dfy`): the document record and the `metadata.get` lookup.
- `Cleaning` (`cleaning.dfy`): `clean_text`, stage by stage.
  - Whitespace collapse.
  - The allow-list filter.
  - URL shortening.
  - Percent normalisation.
  - The split on `.` with first-occurrence dedupe. The source runs this as a loop, so the model has a method with invariants. The split also cuts decimal figures: `8.5%` comes out as `8. 5%`.
- `Ingest` (`ingest.dfy`):
  - `parse_exa_result`, over an abstract `Shape` that stands for what `json.loads` and the record regex produce.
  - The fetch loop, over per-query outcomes.
  - The `create_vector_db` guard.
- `Rag` (`rag.dfy`):
  - `validate_question` and `format_conversation_history`.
  - The context, snippet and source shaping.
  - The conversation store, as a class over a map from session id to exchanges.
  - The module globals, as a class `RagSystem` with `initialize_system` and `process_query`.

## Model

| member | source | states |
|---|---|---|
| Text.StripBlank | ingest.py:177 | `s.strip()` is empty exactly when every character of `s` is whitespace |
| Text.StripOfStripped | rag_engine.py:149 | a string with no whitespace at either end is its own strip |
| Text.JoinSplit | ingest.py:32-41 | joining the pieces of `s.split(c)` with `c` gives back `s` |
| Text.SplitJoin | ingest.py:32-41 | splitting a `c`-join of pieces that do not contain `c` gives back the pieces |
| Text.WordsOfJoin | rag_engine.py:149 | the words of a single-space join of words are those words |
| Text.JoinWordsSingleSpaced | rag_engine.py:149 | a single-space join of words has no edge whitespace and no run of two whitespace characters |
| Text.NatToStringRoundTrip | ingest.py:74 | reading back the decimal rendering of `n` gives `n` |
| Text.JoinContains | rag_engine.py:185-188 | every piece appears in the join of the pieces |
| Cleaning.CollapseWhitespace | ingest.py:20 | every whitespace character left is a space, no two are adjacent, and the result starts with whitespace exactly when the input does |
| Cleaning.CollapseCollapsed | ingest.py:20 | text with no whitespace run is left unchanged |
| Cleaning.CollapseIdempotent | ingest.py:20 | collapsing twice is the same as collapsing once |
| Cleaning.CollapseKeepsText | ingest.py:20 | collapsing leaves the non-whitespace characters and their order unchanged |
| Cleaning.DropDisallowed | ingest.py:23 | every character left is a word character, whitespace, or one of `.,-%():/` |
| Cleaning.DropAllKept | ingest.py:23 | text made only of allowed characters is left unchanged |
| Cleaning.DropConcat | ingest.py:23 | the filter works character by character, so it distributes over concatenation |
| Cleaning.DropChars | ingest.py:23 | the filter only removes characters and keeps the rest in order |
| Cleaning.Host | ingest.py:26 | a URL match is replaced by the text between its `//` and the next `/` |
| Cleaning.ShortenUrlToken | ingest.py:26 | a whole-token URL followed by whitespace or the end is replaced by its host, and the scan resumes after it |
| Cleaning.ShortenWithoutUrls | ingest.py:26 | text where no position starts `http://` or `https://` is left unchanged |
| Cleaning.ShortenWithoutColon | ingest.py:26 | text with no `:` is left unchanged |
| Cleaning.ShortenChars | ingest.py:26 | URL shortening only drops characters and keeps the rest in order |
| Cleaning.NormalizeClosesGaps | ingest.py:29 | after normalisation no digit is followed by whitespace and then `%` |
| Cleaning.NormalizeKeepsText | ingest.py:29 | normalisation removes only whitespace |
| Cleaning.PercentGapClosed | ingest.py:29 | digits, whitespace and `%` become the digits and `%`, and the scan resumes after the `%` |
| Cleaning.NormalizeWithoutPercent | ingest.py:29 | text with no `%` is left unchanged |
| Cleaning.NormalizeChars | ingest.py:29 | normalisation only drops characters and keeps the rest in order |
| Cleaning.DedupeDistinct | ingest.py:35-39 | kept lines are non-empty, their lower-case keys were not already seen, and no two keys are equal |
| Cleaning.DedupeFirstOccurrences | ingest.py:35-39 | the kept lines are the input lines at increasing positions, and no earlier line has the same key |
| Cleaning.DedupeComplete | ingest.py:35-39 | every input line with a non-empty key either had its key seen already or shares it with a kept line |
| Cleaning.DedupeLines | ingest.py:33-39 | the loop over stripped lines with the growing `seen` set keeps exactly the first-occurrence lines |
| Cleaning.CleanText | ingest.py:14-41 | `clean_text` runs the five stages in order and returns the cleaned text |
| Cleaning.CleanAlphabet | ingest.py:20-41 | the cleaned text uses only the allowed characters |
| Cleaning.CleanSegments | ingest.py:32-41 | the `.`-segments of non-empty cleaned text are the deduplicated segments of the normalised text: non-empty after stripping, distinct ignoring case, in first-occurrence order |
| Cleaning.StripSplitJoin | ingest.py:41 | splitting a `. `-join on `.` and stripping gives back the joined pieces |
| Cleaning.DedupeSegmentsSingle | ingest.py:32-41 | a single stripped segment with no `.` comes back unchanged |
| Cleaning.CleanPlain | ingest.py:14-41 | collapsed text of allowed characters with no `:`, `%` or `.` and no edge whitespace is a fixed point of cleaning |
| Cleaning.CleanRemovesBang | ingest.py:20-23 | `x ! y` cleans to `x`, two spaces, `y`: whitespace is collapsed before the `!` is removed |
| Cleaning.CleanCollapsesGap | ingest.py:20 | `x`, two spaces, `y` cleans to `x y` |
| Cleaning.CleanNotIdempotent | ingest.py:20-23 | cleaning `x ! y` twice differs from cleaning it once |
| Cleaning.CleanNotIdempotentExample | ingest.py:20-23 | cleaning `"a ! b"` twice differs from cleaning it once |
| Cleaning.CleanSplitsDecimal | ingest.py:32-41 | a figure `a.b%` with digits `a` and `b` cleans to `a. b%`: the fifth stage splits at the decimal point and joins the pieces with `. ` |
| Cleaning.CleanSplitsDecimalExample | ingest.py:32-41 | `8.5%` cleans to `8. 5%` |
| Ingest.Hits | ingest.py:62-65 | when every item can be read, there is one hit per item |
| Ingest.HitsSpec | ingest.py:62-68 | the items can all be read exactly when no single item fails, and then hit `k` is item `k` read with its defaults |
| Ingest.HitsPrefixNone | ingest.py:62-68 | one unreadable item makes the whole results list unreadable |
| Ingest.RecordHits | ingest.py:99-100 | there is one hit per regex record |
| Ingest.RecordHitsAt | ingest.py:99-100 | hit `k` is record `k` with its title, URL and stripped text |
| Ingest.AppendHit | ingest.py:70-78 | one loop step appends the item's piece to both accumulators: nothing for empty cleaned text, otherwise the `Source/URL/Content` segment and the `DOCUMENT n` block |
| Ingest.AssembleSnoc | ingest.py:62-78 | the accumulation over `hits + [h]` is the accumulation over `hits` followed by `h`'s piece numbered `|hits| + 1` |
| Ingest.AssembleItems | ingest.py:62-78 | the JSON loop succeeds exactly when every item can be read, and then both accumulators are the piece-by-piece accumulation |
| Ingest.AssembleRecords | ingest.py:99-110 | the regex-record loop builds the piece-by-piece accumulation of the records |
| Ingest.ParseExaResult | ingest.py:52-123 | the parser returns exactly the outcome of its shape: results loop, unstructured fallback, record loop, raw-text fallback or error recovery |
| Ingest.AssembleEmpty | ingest.py:70-78 | the clean text is empty exactly when every hit's cleaned text is empty, and then the formatted text is empty too |
| Ingest.SkippedHitInvisible | ingest.py:70 | replacing a hit that has empty cleaned text by another such hit changes neither output |
| Ingest.KeptHitPrinted | ingest.py:70-78 | a hit with cleaned text appears as its `Source/URL/Content` entry in the clean text and as its `DOCUMENT k+1` block in the formatted text |
| Ingest.HeaderDigits | ingest.py:74 | the `DOCUMENT n` header carries the decimal digits of `n` |
| Ingest.HeaderInjective | ingest.py:74 | different item numbers give different headers |
| Ingest.ParseUnstructured | ingest.py:79-82 | a JSON value without a `results` list gives the cleaned whole text and the `UNSTRUCTURED DATA` block |
| Ingest.ParseFaultyItems | ingest.py:117-121 | an unreadable item, or a JSON value that cannot be indexed, gives the error-recovery outcome |
| Ingest.RawTextNotBlank | ingest.py:111-115 | when no record matches, the clean text is the `Source: Exa Search Result` fallback, which is never blank |
| Ingest.FetchOne | ingest.py:159-193 | one loop iteration yields the query's document or nothing, and a failed query yields nothing |
| Ingest.FetchAndProcessData | ingest.py:154-196 | the loop returns the documents of the successful non-blank queries in query order, and the counter equals their number |
| Ingest.CollectOrigins | ingest.py:154-196 | document `k` comes from query `idx[k]`, with increasing positions, so there is at most one document per query and query order is kept |
| Ingest.CollectedDocuments | ingest.py:177-189 | every collected document has content that is not blank, exactly the metadata keys `query` and `source`, `source` = "Bank of Maharashtra", and the query and content of one of the queries |
| Ingest.CollectComplete | ingest.py:177-185 | every query that yields a document contributes it to the result |
| Ingest.CollectEmpty | ingest.py:154-196 | the result is empty exactly when no query yields a document |
| Ingest.IngestionFailsIffNoContent | ingest.py:154-202 | ingestion stops at the guard, with "No documents available for vector database creation", exactly when every query failed or gave blank clean text |
| Rag.ValidateRejects | rag_engine.py:143-155 | "Question cannot be empty" is the outcome exactly for a missing or all-whitespace question, and "Question is too short" exactly for a question with a non-whitespace character whose words, joined by single spaces, make fewer than 3 characters |
| Rag.ValidateAccepts | rag_engine.py:145-153 | validation succeeds exactly when the collapsed question has at least 3 characters |
| Rag.ValidatedForm | rag_engine.py:149 | the validated question has at least 3 characters, the same words as the input, single spaces and no edge whitespace |
| Rag.CollapsedForm | rag_engine.py:149 | `" ".join(s.split())` keeps the words of `s`, is single-spaced and is its own strip |
| Rag.ValidateIdempotent | rag_engine.py:143-155 | validating a validated question succeeds and returns it unchanged |
| Rag.Take | rag_engine.py:100 | `s[:n]` has length `min(n, len(s))` and is a prefix of `s` |
| Rag.Recent | rag_engine.py:98 | `history[-3:]` is the last `min(3, n)` exchanges |
| Rag.HistoryLines | rag_engine.py:97-100 | two lines are produced per exchange |
| Rag.HistoryLinesAt | rag_engine.py:98-100 | line `2k` is `User: q` and line `2k+1` is `Assistant: ` plus the first 200 characters of the answer plus `...` |
| Rag.FormatConversationHistory | rag_engine.py:92-102 | the loop renders "No previous conversation" for an empty history, and otherwise the newline-joined lines of the last three exchanges |
| Rag.HistoryLinesOneLine | rag_engine.py:99-100 | without newlines in the questions and answers, no rendered line contains a newline |
| Rag.HistoryReadBack | rag_engine.py:97-102 | when the recent questions and answers have no newline, splitting the rendering on newlines gives back the per-exchange lines |
| Rag.ContextOne | rag_engine.py:185-188 | one document gives its block with no divider |
| Rag.ContextSnoc | rag_engine.py:185-188 | appending a document appends the divider and its numbered block |
| Rag.ContextHasBlock | rag_engine.py:185-188 | every document's numbered block appears in the context |
| Rag.Snippet | rag_engine.py:214 | content of at most 300 characters is kept whole, and longer content becomes its first 300 characters plus `...`, so the length is at most 303 |
| Rag.DistinctSpec | rag_engine.py:230 | the returned source list has no duplicates and the same elements as the labels |
| Rag.BankSourcesOnce | rag_engine.py:219-230 | documents labelled "Bank of Maharashtra", as the corpus builder labels them, or not labelled at all are reported as the single source "Bank of Maharashtra" |
| Rag.ConversationStore.constructor | rag_engine.py:104-141 | the store starts with no sessions |
| Rag.ConversationStore.Save | rag_engine.py:104-128 | save appends one exchange with `context_sources` = the number of snippets, keeps the earlier exchanges and the other sessions, and creates the session when it is missing |
| Rag.ConversationStore.Load | rag_engine.py:130-141 | a missing session loads as the empty list, and a stored one as its exchanges |
| Rag.ConversationStore.Clear | rag_engine.py:240-251 | clear returns true exactly when the session had exchanges, leaves it empty, and keeps the other sessions |
| Rag.FirstFailure | rag_engine.py:52-90 | initialisation fails exactly when one of its four steps fails, and it reports the first such step |
| Rag.RejectedQuestionHasNoEffect | rag_engine.py:159-166 | an invalid question ends the query with the initialisation failure, if any, or else with validation's message, and the model is not called and nothing is saved |
| Rag.NoDocumentsFallback | rag_engine.py:172-182 | a valid question with no retrieved documents gets the fixed answer with empty `context_used` and `sources`, with no model call and no save, whether or not the prompt and the model are set |
| Rag.PromptedExactly | rag_engine.py:161-208 | the model receives exactly one prompt, made of the context of the retrieved documents, the session's history as stored before the call and the validated question, exactly when initialisation and validation pass, documents were retrieved, and the prompt and the model are set; otherwise it receives none |
| Rag.SavedExactly | rag_engine.py:161-225 | exactly when, in addition, the model answers, one exchange with the validated question, the answer and the number of documents is appended to that session, the other sessions are kept, and the session exists afterwards; otherwise the files are unchanged |
| Rag.AnsweredReply | rag_engine.py:204-231 | an answered reply with documents carries the model's answer, one snippet of at most 303 characters per document, and the documents' source labels with no duplicates |
| Rag.RagSystem.constructor | rag_engine.py:15-17 | the three globals start unset |
| Rag.RagSystem.InitializeAsWritten | rag_engine.py:44-90 | with the retriever set the call does nothing; otherwise it reports the first failing step, and the retriever is set as soon as the index has loaded, even when the model step then fails |
| Rag.RagSystem.Initialize | rag_engine.py:44-90 | the corrected initialisation: it reports the same first failing step, changes nothing on failure, and on success sets all three globals together, so "retriever set" keeps meaning "ready" |
| Rag.RagSystem.ProcessQuery | rag_engine.py:157-238 | initialisation runs only while the retriever is unset, and sets all three globals when it succeeds; the reply, the prompts sent and the conversation files are `ProcessEffect` of the initialisation failure, the question, the retrieved documents, whether the prompt and the model are set, the answer and the state before the call |
| Rag.RagSystem.Respond | rag_engine.py:168-231 | past validation, the reply, the prompts sent and the conversation files are `AnswerEffect` of the validated question, the retrieved documents, whether the prompt and the model are set, the answer and the state before the call |
| Rag.AsWrittenStuck | rag_engine.py:48-81 | with no API key the first call fails; a second call, with the key now present, succeeds at the guard and still leaves a retriever with no model |
| Rag.CorrectedRetries | rag_engine.py:48-85 | with the corrected initialisation the same failure leaves everything unset, and a later call with the key completes it |
| Rag.AsWrittenQueryRaises | rag_engine.py:161-202 | after the as-written failed initialisation, a query with a valid question and retrieved documents skips initialisation and raises at the unset prompt, with no model call and nothing saved |

`Rag.ProcessEffect` spells out `process_query` stage by stage:
- a failed initialisation ends the call;
- then a failed validation;
- then a raising retriever;
- then the fixed answer when no documents are retrieved;
- then a raising `_prompt.format` or `_prompt | _llm` when the prompt or the model is unset;
- then a raising model call, after the prompt has been sent;
- otherwise the reply is built and the exchange saved.

The lemmas next to it state what this means, and `Rag.RagSystem.ProcessQuery` is proved against it.

## Left out

- The hosted services are parameters.
  - The search provider's answers are per-query outcomes (`QueryOutcome`).
  - The retriever's documents for a question are the `retrieved` parameter of `ProcessQuery`. It is `None` when the retriever's call raises.
  - The model's answer is the `answer` parameter. It is `None` when the model's call raises. The model is not modelled beyond a ghost log of the prompts it receives.
- An exception past validation is the `Raised` reply. Its `QueryError` names where it arose. The Python exception types and messages are not modelled.
- Rag.RagSystem.ProcessQuery: it initialises with the corrected `Initialize`. The as-written initialisation is `InitializeAsWritten`. `ProcessQuery` has no precondition on the globals, so it also covers the state that initialisation leaves behind, which `AsWrittenQueryRaises` exhibits.
  - Loading the embeddings and the FAISS index, and finding the API key, are the booleans of `Services`.
- Failing to construct the search tool before the query loop (ingest.py:135-143) re-raises and ends ingestion; the model starts with the tool built.
- `json.loads` and the record regex are library engines. Their result is the `Shape` datatype:
  - a `results` list of items;
  - another JSON value;
  - a JSON value whose use raises;
  - non-JSON text with its list of regex records.
- An item's `text` value is a `TextValue`: absent or falsy, a string, or a truthy non-string. A truthy non-string makes `clean_text` raise, which ends in error recovery. A `title` or `url` value is given as the text the f-string renders for it.
- Chunking and embedding in `create_vector_db` past the empty-list guard (ingest.py:204-230) are library code. Only the guard is modelled.
- File I/O is not modelled:
  - the raw and cleaned audit files and their deletion (ingest.py:43-50, 129-133, 162-175);
  - the store's JSON files and directory.
- The conversation store is an in-memory map from session id to exchanges.
  - A failure to write, read or delete a file is swallowed in the source; it is not modelled.
  - A corrupt session file is not modelled.
  - Session ids that name the same file path are not modelled.
- Timestamps are a parameter of `Save` and `ProcessQuery`.
- Logging, the `final_prompt` rendering that is never used, and the prompt template's text are not modelled. The prompt is a single constant, `EnhancedPrompt`.
- The model temperature is a float, and it is not modelled.
- Concurrent requests on the same session are not modelled: they race in the store's read-modify-write. The model covers sequential calls only.
- Python's `\w` and `str.lower` are modelled on ASCII letters, digits and `_`. `\s` and `str.isspace` use Python's list of whitespace code points.
- Rag.DistinctSpec: `list(set(sources))` has an unspecified order. The model keeps first occurrences in order and promises only no duplicates and the same elements.
- `app.py` (the Streamlit client) and `main.py` (HTTP routing and status codes) are not part of this model.
- Configuration constants are written out where they are used: retrieval `k` = 5, the index path and the model name.
- `clean_text` is not idempotent: whitespace is collapsed before disallowed characters are removed, so `"a ! b"` cleans to `"a  b"` and then to `"a b"` (`Cleaning.CleanNotIdempotent`).

## Findings

| source | as written | input that shows it | evidently intended | confidence | as-written member | corrected member |
|---|---|---|---|---|---|---|
| rag_engine.py:70-81 | `_retriever` is assigned before the model is built. When `GOOGLE_API_KEY` is missing, `get_google_api_key` raises after the retriever is set, so every later `initialize_system` returns at the guard on lines 48-50. `process_query` then runs with no model and no prompt. | an index that loads, then no API key; a second call after the key is set still returns at the guard | the three globals are set together once every step has succeeded, so a failed initialisation can be retried | not executed | Rag.RagSystem.InitializeAsWritten | Rag.RagSystem.Initialize |
