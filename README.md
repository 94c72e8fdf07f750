# hoocall RAG core in Dafny

This project models the retrieval-augmented part of the hoocall web chat. It has four parts:

- **Chunker** (`IndexDocs`). The indexing script cuts each document's text into overlapping windows: 700 characters long, starting every 620 characters. It strips each window and drops windows that strip to nothing.
- **Store layout** (`IndexDocs`). The script lays every file's chunks out in two parallel lists, `all_chunks` and `meta`. Entry `j` of `meta` names the file and the position within that file of chunk `j`.
- **Retriever** (`Retrieval`). `Retriever.search` takes the (score, idx) pairs the vector index returns for a query. It skips the sentinel `-1` and maps each remaining idx to `(chunks[idx], meta[idx], score)`.
- **Chat side** (`App`):
  - the fixed system prompt;
  - `rag_prompt`, which numbers the retrieved chunks from 1 under a `Context:` header and appends the user's text;
  - the request `ollama_chat` sends and how it reads the reply;
  - how the `chat` handler (typed text) and the `say_and_respond` handler (speech) decide what to store and what prompt to send.

Module layout follows the program:

- `wrappers.dfy`: `Option` and `Result`.
- `strings.dfy`: Python's `str.strip`, `str.lower` (ASCII), decimal rendering, and `str.join`.
- `index_docs.dfy`: `apps/web/rag/index_docs.py`.
- `retriever.dfy`: `apps/web/rag/retriever.py`.
- `app.dfy`: `apps/web/app.py`.

The imperative parts of the source stay imperative here:

- `ChunkText` is a `while` loop over the window start.
- `BuildIndex` and `AppendFile` are the nested loops that append to `meta` and `all_chunks`.
- `Retriever` is a class whose fields are set by its constructor.
- `Search` is a loop with `continue`.

Each method is proved against a specification function (`Chunks`, `StoreOf`, `Resolve`). The lemmas next to each function state what the program relies on.

One might expect a text no longer than the chunk size to give a single chunk. The code does not do this. It starts a new window every `size - overlap` characters for as long as the start lies inside the text. So a text longer than `size - overlap` but no longer than `size` gives a second chunk, which repeats the tail of the first. The model follows the code. `ShortTextOneChunk` proves the single-chunk case for texts of at most `size - overlap` characters. `ShortTextMayRepeatTail` exhibits the repeated tail on a small instance, and `FirstChunkOfShortText` shows that the first chunk is still the whole stripped text.

## Model

| member | source | states |
|---|---|---|
| IndexDocs.Window | apps/web/rag/index_docs.py:37 | the slice `text[i:i+size]` is the contiguous run of the text starting at `i`; it is `size` long unless it reaches the end of the text |
| IndexDocs.Chunks | apps/web/rag/index_docs.py:33-39 | what `chunk_text` returns: the cleaned windows, at most one per window and at most one per character of the text |
| IndexDocs.WindowsFromBound | apps/web/rag/index_docs.py:35-38 | a step of at least one character gives at most one window per remaining character |
| IndexDocs.ChunkText | apps/web/rag/index_docs.py:33-39 | the loop's result is exactly `Chunks(text, size, overlap)`: the stripped, non-empty windows taken every `size - overlap` characters, in order |
| IndexDocs.WindowsFromStarts | apps/web/rag/index_docs.py:35-38 | window `k` of a run that begins at `i` starts at `i + k*step`, inside the text |
| IndexDocs.WindowsFromCount | apps/web/rag/index_docs.py:36-38 | the loop stops only once the window starts have passed the end of the text |
| IndexDocs.WindowStarts | apps/web/rag/index_docs.py:35-38 | window `k` is the slice starting at `k*(size-overlap)`; the windows together reach the end of the text |
| IndexDocs.CoverageFrom | apps/web/rag/index_docs.py:35-38 | for a step no larger than the size, every position from `i` on lies inside some window of the run |
| IndexDocs.Coverage | apps/web/rag/index_docs.py:33-38 | with `0 <= overlap < size`, every character of the text lies in some window, so no text is skipped |
| IndexDocs.CleanWindows | apps/web/rag/index_docs.py:39 | filtering never produces more chunks than there were windows |
| IndexDocs.CleanWindowsConcat | apps/web/rag/index_docs.py:39 | stripping and filtering works window by window, so it distributes over concatenation |
| IndexDocs.CleanWindowsMembers | apps/web/rag/index_docs.py:39 | a string is a chunk iff it is the non-empty stripped form of some window |
| IndexDocs.CleanWindowsTrimmed | apps/web/rag/index_docs.py:39 | every chunk is non-empty and has no leading or trailing whitespace |
| IndexDocs.CleanWindowsBounded | apps/web/rag/index_docs.py:39 | stripping never makes a window longer |
| IndexDocs.ChunkShape | apps/web/rag/index_docs.py:33-39 | every chunk is non-empty, at most `size` characters long and stripped |
| IndexDocs.EmptyTextHasNoChunks | apps/web/rag/index_docs.py:36 | the empty text gives no chunks |
| IndexDocs.ShortTextOneChunk | apps/web/rag/index_docs.py:33-39 | a text of at most `size - overlap` characters gives no chunk if it is all whitespace, else exactly its stripped form |
| IndexDocs.FirstChunkOfShortText | apps/web/rag/index_docs.py:33-39 | a non-blank text of at most `size` characters has its stripped form as its first chunk |
| IndexDocs.ShortTextMayRepeatTail | apps/web/rag/index_docs.py:36-38 | "abc" with size 3 and overlap 1 gives ["abc", "c"]: a text no longer than `size` can still give two chunks |
| IndexDocs.StoreOf | apps/web/rag/index_docs.py:51-60 | the lists `main` writes for the documents, with exactly one `meta` entry per chunk |
| IndexDocs.BuildIndex | apps/web/rag/index_docs.py:46-60 | no files means nothing is written; otherwise the lists built are exactly `StoreOf(docs)`, each file's chunks in file order |
| IndexDocs.AppendFile | apps/web/rag/index_docs.py:58-60 | the inner loop appends the file's chunks to `all_chunks` and a `(name, 0..n-1)` entry per chunk to `meta` |
| IndexDocs.ProcessedOneMore | apps/web/rag/index_docs.py:54-60 | one more file extends both lists by that file's chunks and their meta entries |
| IndexDocs.StoreAligned | apps/web/rag/index_docs.py:58-60 | `meta` and `all_chunks` always have the same length |
| IndexDocs.ChunkPlacement | apps/web/rag/index_docs.py:54-60 | chunk `c` of file `f` lands at position (all chunks of earlier files) + `c`, and its meta there is `(name of f, c)` |
| IndexDocs.ChunkProvenance | apps/web/rag/index_docs.py:54-60 | every stored position comes from exactly that placement of some file and chunk |
| IndexDocs.StoreEntryProvenance | apps/web/rag/index_docs.py:51-60 | for stored entry `j`, `meta[j]` names a document whose `chunk_id`-th chunk is `chunks[j]`, and that chunk is non-empty, stripped and at most 700 characters |
| Retrieval.Lookup | apps/web/rag/retriever.py:31 | the triple for a pair holds a stored chunk and a stored meta entry, and passes the score through unchanged |
| Retrieval.Resolve | apps/web/rag/retriever.py:27-32 | the mapped result never has more entries than the index returned |
| Retrieval.Kept | apps/web/rag/retriever.py:28-30 | the positions kept are exactly those whose idx is not -1, in increasing order |
| Retrieval.ResolveFollowsKept | apps/web/rag/retriever.py:27-32 | result `j` is the lookup of the `j`-th non-sentinel pair: `(chunks[idx], meta[idx], score)`, in index order |
| Retrieval.ResolveSkipsSentinels | apps/web/rag/retriever.py:29-31 | every result comes from a pair whose idx is not -1 |
| Retrieval.ResolveKeepsEveryHit | apps/web/rag/retriever.py:29-31 | every pair whose idx is not -1 appears in the result |
| Retrieval.ResolveKeepsScoreOrder | apps/web/rag/retriever.py:28-32 | when the index returns pairs by decreasing score, the results are by decreasing score |
| Retrieval.ResolveConcat | apps/web/rag/retriever.py:28-31 | the mapping is pair by pair: it distributes over concatenation |
| Retrieval.ResultsTraceToDocuments | apps/web/rag/retriever.py:31 | against a store written by the indexer, each result's meta names a document and a chunk id whose chunk is the result's text |
| Retrieval.Retriever.constructor | apps/web/rag/retriever.py:16-22 | `meta` and `chunks` come from the same stored document, and the index answers within their bounds |
| Retrieval.Retriever.Search | apps/web/rag/retriever.py:24-32 | the loop returns exactly `Results(query, k)`, the `Resolve` of the index's answer, with at most `k` entries |
| App.ChatMessages | apps/web/app.py:55 | the message list is the history's role and content in order, then the prompt as the last user message |
| App.ChatPayload | apps/web/app.py:53-58 | the request names the configured model, temperature 0.4 and no streaming, and ends with the prompt as a user message |
| App.ExtractReply | apps/web/app.py:62 | the reply is `message.content`; a missing `message` or `content` gives ""; a body or `message` that is not an object raises |
| App.ExtractAssistantReply | apps/web/app.py:61-62 | reading a well-formed reply gives back the assistant's text |
| App.SystemPrompt | apps/web/app.py:64-68 | the fixed instructions are non-empty and end in a line break, so the context header starts on its own line |
| App.ContextEntry | apps/web/app.py:71 | an entry opens with its `[` label and ends with `)`, a line break and the chunk text unchanged |
| App.ContextEntries | apps/web/app.py:71-72 | there is one context entry per retrieved triple |
| App.Context | apps/web/app.py:71-72 | no results give an empty context; otherwise it starts with the rank-1 entry and ends with the entry of the last result |
| App.RagPrompt | apps/web/app.py:70-73 | the prompt starts with the system prompt and `Context:` header and ends with the `User:` header and the user's text |
| App.RagPromptWithoutContext | apps/web/app.py:70-73 | with nothing retrieved the prompt is the system prompt, the empty context and the user's text |
| App.ContextSnoc | apps/web/app.py:71-72 | entries are joined in input order with a blank line, each numbered one past the previous |
| App.EntryRank | apps/web/app.py:71 | an entry's label is `[n]` with `n` its 1-based rank written in decimal, and it reads back as `n` |
| App.Truthy | apps/web/app.py:109-110 | Python's `bool()` on a JSON value: `null` is false; strings, arrays and objects are true iff non-empty |
| App.UserText | apps/web/app.py:109 | the text used is the stripped `text` field, or "" when it is absent or falsy; a truthy non-string raises |
| App.ChatUseRag | apps/web/app.py:110 | `use_rag` is on when the field is absent, follows a boolean, and is off for `null`, `0` and the empty string |
| App.SayUseRag | apps/web/app.py:186 | `use_rag` is on when the form field is absent or is not five characters long |
| App.Transcript | apps/web/app.py:198-210 | the transcript is the recogniser's text stripped, or "" when there is none |
| App.SayUseRagOnlyFalseDisables | apps/web/app.py:186 | `use_rag` is off exactly when the form field is "false" in some letter case; an absent field leaves it on |
| App.Chat | apps/web/app.py:107-132 | empty input after stripping is rejected before anything is stored; otherwise the prompt is grounded iff `use_rag` holds and a retriever exists, is sent with an empty history, and ends with the user's text |
| App.SayAndRespond | apps/web/app.py:185-226 | stores the transcript or "(no speech)"; grounds only with `use_rag`, a retriever and a non-empty transcript; never sends an empty prompt |
| Strings.Strip | apps/web/rag/index_docs.py:39 | `str.strip()`: the result is no longer than the input and has no whitespace at either end |
| Strings.TrimStartSpec | apps/web/rag/index_docs.py:39 | stripping the front removes a whitespace-only prefix and stops at a non-space |
| Strings.TrimEndSpec | apps/web/rag/index_docs.py:39 | stripping the back removes a whitespace-only suffix and stops at a non-space |
| Strings.StripEmptyIffBlank | apps/web/rag/index_docs.py:39 | a window strips to "" iff it is all whitespace, the case `if c.strip()` drops |
| Strings.StripIsSlice | apps/web/rag/index_docs.py:39 | a stripped string is a contiguous part of the original with only whitespace around it |
| Strings.StripTrimmed | apps/web/app.py:109 | a string already free of outer whitespace is unchanged by stripping |
| Strings.Lower | apps/web/app.py:186 | lower-casing keeps the length |
| Strings.DigitChar | apps/web/app.py:71 | a digit value renders as a character '0'..'9' |
| Strings.DecimalString | apps/web/app.py:71 | `str(n)` is a non-empty run of digits with no leading zero |
| Strings.DecimalRoundTrip | apps/web/app.py:71 | reading the rendered digits back gives the number |
| Strings.Join | apps/web/app.py:71 | `sep.join(items)`: "" for no items; otherwise it starts with the first item and ends with the last |
| Strings.JoinSnoc | apps/web/app.py:71 | joining one more item appends the separator and that item |

## Left out

- File reading (`read_text` for PDF, DOCX and text files, 24-31), globbing for files, and the printed messages are left out. Each document arrives as a name and an already-read text.
- The embedding model, FAISS's inner-product search and writing `faiss.index` and `meta.json` are left out. On the retriever side they are the opaque function `index` from a query and `k` to (score, idx) pairs. `Valid` only assumes that every idx it returns is -1 or inside the lists, and that at most `k` pairs come back. The scores are not computed.
- When every file yields zero chunks, `model.encode([])` and `embs.shape[1]` fail. `BuildIndex` still returns the empty store.
- IndexDocs.ChunkText: requires `overlap < size`. With `size - overlap <= 0` the source never ends on a non-empty text, and it returns [] on the empty text. The model only covers terminating calls.
- IndexDocs.Window: a negative start or size uses Python's negative slice indices. The model takes `size` as a natural number and only covers starts inside the text.
- Retrieval.Retriever.Search: requires `k >= 1`. FAISS rejects `k = 0`, which happens only if `TOP_K` is set to 0 in the environment.
- The `Retriever()` construction can fail (missing files). In the handlers this is modelled as the retriever parameter being `null`.
- Scores are `real`, not 32-bit floats. `round(s, 3)` and its rendering are the parameter `fmt`, because float formatting is outside the model.
- Configuration from the environment is fixed at its defaults: `TOP_K` = 5 and `OLLAMA_MODEL` = "gemma3:1b". The host URL, database URL and secret key are left out.
- The HTTP POST, `raise_for_status` and the 120-second timeout are left out. `ExtractReply` starts from the decoded JSON body.
- The database is left out: sessions, `Conversation` lookup and the 404 when it is missing, saving the assistant reply, and the `history` list built and then not used (line 123). `Exchange.storedUser` is the content the handler stores for the user's message.
- Parsing `conversation_id` (lines 108 and 185) and the exceptions it raises are left out: a `TypeError` from `int(None)` when the JSON field is missing at line 108, or a `ValueError` when either value is not a number.
- Flask request decoding is left out. The handlers take the relevant fields as parameters: `text` and `use_rag` as decoded JSON values, and the `use_rag` form field as a string.
- The audio upload, its file name, the `audio file required` 400, and Vosk speech recognition (`transcribe`, lines 141-177, and lines 189-212) are left out. `SayAndRespond` takes the recogniser's text, or `None` when there is no recogniser or it failed.
- Strings.Lower: only ASCII letters are lowered. Python lowers all of Unicode, but no other character lowers to a letter of "false", so the comparison in `say_and_respond` comes out the same.
- The other routes (`index`, `list_conversations`, `get_history`, `transcribe`) and the `models.py` tables are not part of this model.
