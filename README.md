# Obsidian Local LLM Helper — a verified model of its core

This project models the core of the Obsidian "Local LLM Helper" plugin in Dafny and proves properties of the model. The core is:

- **Note indexing and retrieval.** `RAGManager` splits notes into word chunks and keeps the list of indexed files. It de-duplicates the sources of an answer and lists similar notes as `[[path]]: preview...` lines.
- **Backlinks.** `BacklinkGenerator` parses that listing back into `[[path|basename]]` links.
- **Plugin utilities.**
  - Persona preambles for prompts.
  - The bounded conversation history.
  - The chat request's message list.
  - Settings defaults and the "new version" notice.
- **Auto-tagger.** It turns an LLM reply into at most five hashtags.
- **Embeddings client.** The OpenAI-compatible client normalises its base URL and classifies errors.
- **"Chat with Notes" window.** It formats answers and keeps the transcript.

The modules follow the source files:

| module | file | source |
|---|---|---|
| `Wrappers` | wrappers.dfy | `Option` and `Result` |
| `Text` | text.dfy | the JavaScript string primitives used throughout: `\s`, `trim`, `split(/\s+/)`, `split`/`join`, `includes`, decimal formatting |
| `Chunking` | chunking.dfy | `splitIntoChunks` |
| `Embeddings` | embeddings.dfy | src/openAIEmbeddings.ts |
| `Rag` | rag.dfy | src/rag.ts and its older copy rag.ts |
| `Backlinks` | backlinks.dfy | src/backlinkGenerator.ts |
| `Prompts` | prompts.dfy | main.ts |
| `AutoTagger` | autotagger.dfy | src/autoTagger.ts |
| `RagChat` | chat_modal.dfy | src/ragChatModal.ts |

## Modelling choices

- **Two copies of `RAGManager`, one model.** src/rag.ts and rag.ts share one model. The `Revision` datatype records the two places where they differ:
  - the error message when nothing is found;
  - the older copy always uses Ollama embeddings.
- **Oracles become parameters.** The vector store, the LLM, the vault and the HTTP server are outside the model:
  - The similarity search's hits are a `Result`, because the search may throw.
  - `addDocuments` is a predicate `accepts` saying which documents it stores without throwing.
  - A note's `cachedRead` is a `Result`.
  - `getAbstractFileByPath` is a map from paths to vault items.
  - The auto-tagger's request is a function from the messages sent to the reply.
  - `getRAGResponse`'s answer is a parameter of the chat window.
- **Side effects become state or outcomes.**
  - Progress callbacks are returned as the list of `(done, total)` pairs reported.
  - The editor is a document string with a cursor offset.
  - The chat window's DOM is a transcript of messages.
- **Regular expressions are written out as functions:**
  - `/\s+/` uses the ECMAScript whitespace and line-terminator set.
  - `/\[\[(.*?)\]\]/`, `/\*\*(.*?)\*\*/` and `/\*(.*?)\*/` are lazy matches whose `.` does not cross a line terminator.
  - `/^#?[a-zA-Z0-9]+$/`
- **State that is updated in place is a class.**
  - `RagManager` holds `indexedFiles` and the document store.
  - `ConversationHistory` is the history array.
  - `LlmPlugin` holds the settings and what was last saved.
  - `RagChatModal` holds the input, the transcript and the button state.
- **Loops in the source are loops in the model.** `splitIntoChunks`, `processFiles`, `findSimilarNotes` and `generateBacklinks` are methods proved against specification functions. The lemmas about those functions carry the properties.

## Model

| member | source | states |
|---|---|---|
| Text.SplitWsIsByRuns | src/rag.ts:140 | `split(/\s+/)` yields the fields between maximal whitespace runs. Only the first and last field can be empty. |
| Text.SplitWsTokens | src/rag.ts:140 | The non-empty fields of `split(/\s+/)` are exactly the words of the text. |
| Text.SplitWsJoin | src/autoTagger.ts:53 | Whitespace-free words joined by single spaces split back into the same words. |
| Text.TrimEmptyIffAllWhitespace | src/backlinkGenerator.ts:13 | `trim()` gives "" exactly for whitespace-only text. |
| Text.SplitOnJoin | src/rag.ts:180 | `split('\n')` inverts `join('\n')` for lines without a newline. |
| Chunking.SplitIntoChunks | src/rag.ts:136-154 | The greedy chunking loop computes the chunk list `Chunks(content, chunkSize)`. The older copy (rag.ts:143-161) runs the same loop. |
| Chunking.ChunksPreserveWords | src/rag.ts:140-147 | The words of `Chunks` (the greedy packing `Pack`), in order, are exactly the content's words. No word is dropped, duplicated or split. |
| Chunking.ChunksSpaced | src/rag.ts:140-142 | Every chunk is words separated by single spaces, so no chunk contains a newline. |
| Chunking.ChunksBounded | src/rag.ts:141 | When every word fits in `chunkSize`, every chunk has length ≤ `chunkSize`. |
| Chunking.EmptyChunkOnlyFirst | src/rag.ts:141-151 | Only the first chunk can be empty, and only when the first word does not fit. |
| Chunking.NoChunksIffNoWords | src/rag.ts:149-151 | There are no chunks exactly when the content has no words. |
| Embeddings.NormalizeBaseUrl | src/openAIEmbeddings.ts:15 | The URL ends with `/v1`, extends the input by at most `/v1`, and is unchanged exactly when the input already ends with `/v1`. |
| Embeddings.NewOpenAiCompatibleClient | src/openAIEmbeddings.ts:13-21 | A missing API key becomes "not-needed". The base URL is normalised. |
| Embeddings.CreateHelpfulError | src/openAIEmbeddings.ts:50-77 | The message (or `String(error)`) is checked in order: unreachable server, then missing endpoint, then rejected request. The first match picks the error. No match keeps the original. |
| Embeddings.Embed | src/openAIEmbeddings.ts:26-48 | `embedDocuments` and `embedQuery` pass a success through unchanged and rethrow a failure as its classified error. |
| Rag.ProviderOf | src/rag.ts:25 | An unset (empty) provider is "ollama". A set provider is kept. |
| Rag.EmbeddingsFor | src/rag.ts:28-30 | Ollama embeddings exactly for the "ollama" provider or the older copy. Otherwise the OpenAI-compatible client on the normalised URL. |
| Rag.Dedup | src/rag.ts:67 | `[...new Set(xs)]` holds the same elements as `xs`, each once. |
| Rag.DedupFirstAppearance | src/rag.ts:67 | Those elements are ordered by first appearance in `xs`. |
| Rag.GetRagResponse | src/rag.ts:35-77 | A failing search's error and the zero-hit error are rethrown. An answer is returned iff there are hits and the chain succeeds. The answer's sources are the context's sources, each once, in order of first appearance. In the older copy (rag.ts:27-84) the zero-hit message is "No relevant documents found in vector store". |
| Rag.Preview | src/rag.ts:171 | `substring(0, 100)` is a prefix of at most 100 characters, and the whole content when it is short. |
| Rag.BacklinkInjective | src/rag.ts:168-170 | Distinct sources have distinct `[[source]]` keys, so the map key identifies the source. |
| Rag.FirstHits | src/rag.ts:165-177 | The kept hits are, in order, one hit per distinct source. |
| Rag.FirstHitsAppend | src/rag.ts:170-176 | A hit whose source was seen adds nothing. A new source's hit is appended. |
| Rag.MapListsStep | src/rag.ts:167-177 | One loop step keeps the `Map` in step with the first hits. A key is present iff its source was seen. |
| Rag.RagManager.FindSimilarNotes | src/rag.ts:156-185 | The result is "" on error, and "" exactly when there are no hits. Otherwise it is one `[[source]]: preview...` line per distinct source, first hit, in hit order. The older copy (rag.ts:163-192) has the same listing and the same "" cases. |
| Rag.FileDocs | src/rag.ts:113-118 | Chunk `j` of a file becomes a document with that content, source `path` and `chunk: j`. |
| Rag.AcceptedPrefix | src/rag.ts:113-121 | The documents stored before an `addDocuments` call throws are exactly the prefix up to the first rejected one. |
| Rag.MarkdownFiles | src/rag.ts:83 | Exactly the vault's files with extension "md" are kept. |
| Rag.IndexedPathsMembership | src/rag.ts:103-131 | Every indexed path belongs to a file that succeeded, and every file that succeeded is indexed. |
| Rag.IndexedPathsAllSucceed | src/rag.ts:123 | When no file fails, the indexed paths are all the paths, in order. |
| Rag.IndexedFileStored | src/rag.ts:107-123 | For a file indexed without error, the stored documents are its chunks, and their words are the file's words. |
| Rag.AddedNoNewline | src/rag.ts:110-120 | No stored document's content contains a newline. |
| Rag.RagManager.constructor | src/rag.ts:21-33 | The provider and embeddings are selected from the settings. Nothing is indexed yet. The older copy (rag.ts:18-25) always builds Ollama embeddings. |
| Rag.RagManager.IndexedFilesCount | src/rag.ts:187-189 | The count is the length of `indexedFiles`. The older copy (rag.ts:194-196) returns the same count. |
| Rag.RagManager.AddChunks | src/rag.ts:113-121 | The store gains the accepted prefix of the file's documents. It succeeds iff every chunk was accepted. |
| Rag.RagManager.IndexFile | src/rag.ts:105-128 | The store gains the file's added documents. It succeeds iff the read and every `addDocuments` call succeed. |
| Rag.RagManager.IndexAndRecord | src/rag.ts:104-130 | One file's iteration appends its path exactly when it succeeded. |
| Rag.RagManager.ProcessFiles | src/rag.ts:98-134 | `indexedFiles` is reset, then holds the paths of the files that succeeded, in order. The store gains each file's documents. Progress `(i+1, n)` is reported once per file, failures included. The older copy (rag.ts:105-141) resets, records and reports in the same way. |
| Rag.RagManager.IndexNotes | src/rag.ts:79-96 | With no markdown files nothing changes and nothing is reported. Otherwise the markdown files are processed. The older copy (rag.ts:86-103) indexes the markdown files in the same way. |
| Backlinks.CloseFrom | src/backlinkGenerator.ts:18 | The lazy `(.*?)\]\]` stops at the first `]]` reached without crossing a line terminator, or finds none. |
| Backlinks.MatchFromFound | src/backlinkGenerator.ts:18-19 | `MatchFrom` (and so `LinkTarget`) finds the leftmost match. Its group runs from the first `[[` that can open a match to the first `]]` after it on the same line. There is no match exactly when no position can open one. The group is one line's `[[`…`]]`-delimited text. |
| Backlinks.NonBlankExactly | src/backlinkGenerator.ts:13 | `NonBlank` picks, in increasing order, exactly the positions of the lines that are not blank after `trim()`, so order and repetitions are kept. |
| Backlinks.NoteEntriesLines | src/backlinkGenerator.ts:13 | Every entry is a non-blank line without a newline. Every non-blank line is an entry. |
| Backlinks.EntryLinks | src/backlinkGenerator.ts:18-27 | A line yields at most one link. |
| Backlinks.LinksFrom | src/backlinkGenerator.ts:15-29 | There are no more links than entries. |
| Backlinks.ParseBacklinks | src/backlinkGenerator.ts:10-31 | The loop computes `Backlinks`: for each entry in line order, the `[[path\|basename]]` link when `EntryLinks` finds a non-empty match naming a vault file. There is at most one link per non-blank line. |
| Backlinks.GenerateBacklinks | src/backlinkGenerator.ts:7-32 | The links parsed from `findSimilarNotes`' listing. None when the search fails. |
| Backlinks.LinkTargetOfNoteLine | src/rag.ts:171 | The match `LinkTarget` extracts from a `[[source]]: preview...` line is the source itself, for a non-empty source with no `]]`, no line terminator and no final `]`. |
| Backlinks.BacklinksRoundTrip | src/backlinkGenerator.ts:17 | Parsing the listing of similar notes gives one `[[path\|basename]]` link per distinct source, in order. This holds when the sources are linkable vault files. |
| Prompts.ModifyPromptIsPreamble | main.ts:524-552 | For `ModifyPrompt`, every persona's result is its fixed preamble followed by the prompt. |
| Prompts.ModifyPromptChangesIffPersona | main.ts:524-552 | `ModifyPrompt` changes the prompt exactly for the dictionary's personas other than "default". Their preamble ends in a newline. |
| Prompts.PreamblesEndInNewline | main.ts:527-548 | Each of the eleven preambles ends in a newline. |
| Prompts.Recorded | main.ts:993-1000 | The new entry is pushed, and the history is kept whole iff it fits in `max`. Otherwise the oldest entry is dropped. The entry is last whenever anything is left. |
| Prompts.RecordedWithinLimit | main.ts:993-1000 | A history within a non-negative limit stays within it. With limit 0 an empty history stays empty. |
| Prompts.RecordedKeepsNewest | main.ts:993-1000 | The result is a suffix of the old history, missing at most its first entry, followed by the new entry. |
| Prompts.ConversationHistory.Record | main.ts:993-1000 | `push` then `shift` in place computes `Recorded`. |
| Prompts.ConversationHistory.PushQuestion | main.ts:860 | The chat window pushes the question with an empty response. |
| Prompts.Slice | main.ts:580 | `slice(start)` is a suffix. A negative start keeps the last `-start` elements; a non-negative start drops `start`, clamped to the length. |
| Prompts.RecentEntries | main.ts:580 | `slice(-max)` keeps the last `max` entries, and keeps all of them when `max` is 0. |
| Prompts.Exchanges | main.ts:580-584 | The `reduce` produces a user message and an assistant message per entry, in order. |
| Prompts.RequestMessages | main.ts:576-586 | The system message, then the exchanges of the recent entries, then the user message. |
| Prompts.RequestCarriesLatest | main.ts:580 | With a positive limit, at most `max` exchanges are sent, and they are the latest entries. |
| Prompts.TextCommandContent | main.ts:572-585 | The user message is the persona preamble, the prompt, ": " and the selected text. |
| Prompts.ChatContent | main.ts:871-884 | The chat message is the persona preamble followed by the question. |
| Prompts.ChatTurnOutgrowsLimit | main.ts:856-937 | `ChatTurn`, the exchange as written: one at or over the limit grows the history by one. |
| Prompts.ChatTurnDefaultLimit | main.ts:856-937 | With limit 0, two `ChatTurn` exchanges leave the second question twice. |
| Prompts.BoundedChatTurn | main.ts:993-1000 | Recording only the answered question keeps the history within its limit. |
| Prompts.Merged | main.ts:350-356 | Stored keys override the defaults. Other default keys keep their default value. No stored data gives the defaults. |
| Prompts.StoredVersion | main.ts:78 | A stored version is used when truthy. Otherwise it is "0.0.0". |
| Prompts.NoticeShownOnce | main.ts:81-84 | After the notice records the version, the next check with that version shows nothing. |
| Prompts.MissingVersionIsOldest | main.ts:78-81 | A missing, empty or null version shows the notice unless the plugin is at "0.0.0". |
| Prompts.LlmPlugin.LoadSettings | main.ts:350-356 | The settings become the defaults merged with the stored data. |
| Prompts.LlmPlugin.SaveSettings | main.ts:358-360 | What is saved is the current settings. |
| Prompts.LlmPlugin.CheckForUpdates | main.ts:76-86 | The notice opens iff the stored version differs from the manifest's. Then the manifest's version is stored and saved. Otherwise nothing changes. |
| AutoTagger.Filtered | src/autoTagger.ts:55 | The words kept are tag-shaped (`^#?[a-zA-Z0-9]+$`), and a word is kept iff it is tag-shaped. |
| AutoTagger.FilteredExactly | src/autoTagger.ts:55 | `Filtered` picks, in increasing order, exactly the positions of the tag-shaped words, so order and repetitions are kept. |
| AutoTagger.HashedAll | src/autoTagger.ts:56 | Each word gets a `#` unless it has one. |
| AutoTagger.Take | src/autoTagger.ts:57 | `slice(0, n)` is the first `min(n, length)` elements. |
| AutoTagger.ExtractTags | src/autoTagger.ts:53-57 | There are `min(5, n)` tags, where `n` counts the normalised words (`Normalized`). Each is `#` and one or more ASCII letters or digits. They are the first of the normalised words of the trimmed reply. |
| AutoTagger.TagsFromReply | src/autoTagger.ts:53-57 | There are `min(5, k)` tags for `k` kept words. Each tag is a kept word with `#` added where missing. The kept words are a subsequence of the reply's words. |
| AutoTagger.FilteredSubsequence | src/autoTagger.ts:55 | The filter keeps words in their original order. |
| AutoTagger.NormalizedIdempotent | src/autoTagger.ts:55-56 | Applying the filter-and-prefix step `Normalized` twice is applying it once. |
| AutoTagger.RejectedWords | src/autoTagger.ts:55 | `##x`, `foo-bar`, `#` and "" are rejected. `#ai` and `ai2` are kept. |
| AutoTagger.TagRequest | src/autoTagger.ts:29-35 | The system message, then the user message: the prompt, then the text. |
| AutoTagger.GenerateTags | src/autoTagger.ts:48-57 | Any status other than 200 is an error naming the status and body. Status 200 gives the extracted tags. |
| AutoTagger.AppendTags | src/autoTagger.ts:60-63 | `"\n\n" + tags.join(' ')` is inserted at the cursor. The text before and after is kept. |
| AutoTagger.ExtractTagsOfInserted | src/autoTagger.ts:53-63 | Extracting tags from the inserted text gives back the same tags. |
| AutoTagger.ExtractTagsRoundTrip | src/autoTagger.ts:53-63 | Tags extracted, inserted and extracted again are unchanged. |
| AutoTagger.GenerateAndAppendTags | src/autoTagger.ts:4-26 | With no view only a notice is shown. Otherwise the selection, or the whole document when nothing is selected, is sent. A 200 reply inserts the tags at the saved cursor. Any other reply leaves the document as it was. |
| RagChat.CloseAt | src/ragChatModal.ts:202-203 | The lazy match stops at the first closing delimiter on the same line. |
| RagChat.ReplaceAllIsSplitJoin | src/ragChatModal.ts:204-205 | A global one-character replacement is a split on it followed by a join. |
| RagChat.ReplaceAllRemoves | src/ragChatModal.ts:205 | After replacing every `\n` with `<br>`, no `\n` is left. |
| RagChat.FormatResponseNoNewline | src/ragChatModal.ts:199-206 | `FormatResponse` (the four `replace` passes: `Wrap` for the emphasis patterns, `ReplaceAll` for the line breaks) leaves no newline. |
| RagChat.FormatResponsePlain | src/ragChatModal.ts:199-206 | Text without `*` and without newlines is unchanged. |
| RagChat.WrapSpan | src/ragChatModal.ts:202-203 | `Wrap`: `D x D` on one line is wrapped whole. |
| RagChat.FormatResponseBold | src/ragChatModal.ts:202-203 | `**x**` becomes `<strong>x</strong>`, never `<em>`. |
| RagChat.FormatResponseItalic | src/ragChatModal.ts:202-203 | `*x*` becomes `<em>x</em>`. |
| RagChat.FormatResponseThreeNewlines | src/ragChatModal.ts:204-205 | `"\n\n\n"` becomes `"</p><p><br>"`. |
| RagChat.Subtitle | src/ragChatModal.ts:30-33 | "Searching across N indexed files" iff the count is positive. Otherwise the "No files indexed yet" text. |
| RagChat.ReplyItem | src/ragChatModal.ts:139-196 | An answer adds its formatted text with its sources. An error adds its message, or the default text when the message is empty. |
| RagChat.RagChatModal.constructor | src/ragChatModal.ts:20-41 | It opens with the subtitle for the indexed count, an empty input, an empty transcript and the welcome shown. |
| RagChat.RagChatModal.SetInput | src/ragChatModal.ts:57-60 | The input is stored, and the send button is disabled iff the input is blank. |
| RagChat.RagChatModal.HandleSubmit | src/ragChatModal.ts:118-197 | A blank input changes nothing. Otherwise the welcome is hidden and the input cleared. The question and the reply are appended to the transcript. |
| RagChat.RagChatModal.ClearConversation | src/ragChatModal.ts:208-211 | The transcript is emptied and the welcome shown again. |

## Findings

| source | as written | input that shows it | evidently intended | confidence | as-written member | corrected member |
|---|---|---|---|---|---|---|
| main.ts:860 | The chat window pushes the question with an empty response before asking. After the answer, `updateConversationHistory` pushes again and drops at most one entry. | Default limit 0, two questions: the history holds two entries, the second question twice (once unanswered). | The history stays within `maxConvHistory` and holds each answered question once. | medium, not executed | Prompts.ChatTurnOutgrowsLimit | Prompts.BoundedChatTurn |

## Left out

- **Network and I/O.** `requestUrl`, `fetch` and the LLM and embedding servers are left out. The streaming reader and kill switch in `processText` are too, as is the editor write in `modifySelectedText`. Their results are parameters.
- **Vector store and chains.** The LangChain similarity ranking, `createRetrievalChain` and the prompt template are foreign code. The hits and the chain's answer are oracles.
- **LLM selection in `getRAGResponse`.** It only configures the foreign client, including its `'lm-studio'` key default and un-normalised `/v1` URL.
- **Polling and logging.** `waitForVaultReady` (src/rag.ts:191-200) is a timer-driven polling loop. On a vault with no files it never ends, so `indexNotes` never returns. `Rag.RagManager.IndexNotes` describes only runs that get past the poll. The `successfullyIndexed` counter only feeds log messages.
- **Other embedding wrappers.** localEmbeddings.ts and src/ollamaEmbeddings.ts wrap `@langchain/ollama` without logic of their own.
- **UI.** The settings tab, ribbon, status bar, `Notice`s, prompt picker and update-notice rendering are left out. In the chat windows, so are the copy button, opening a source, scrolling, the thinking indicator and the example buttons. An example button does what `SetInput` does.
- **The Enter-key handler** applies the same blank-input guard as `handleSubmit`.
- **Progress.** It is the pair `(i+1, total)`, not the floating-point fraction.
- **Strings.** They are sequences of code points. `substring(0, 100)` and `length` count UTF-16 units in JavaScript, so non-BMP characters count twice there.
- Prompts.ConversationHistory.Record: `max` is an integer. A `NaN` limit from `parseInt` is not modelled; with it nothing would ever be dropped.
- Prompts.RequestMessages: only the message list is modelled. The model name, `temperature`, `max_tokens` and `stream` fields of the body are not.
- AutoTagger.GenerateAndAppendTags:
  - The cursor is an offset saved before the request, and the document is assumed unchanged while the request runs.
  - `temperature` and `maxTokens` in the request body are not settings fields, and they are not modelled.
- Prompts.LlmPlugin.CheckForUpdates: the notice modal is represented only by the returned flag.
- **The second chat window (`LLMChatModal` in main.ts).** Its own inline formatting (`<b>`, `<i>`, `<br><br>`) is part of the UI and is not modelled.
- Rag.RagManager.IndexNotes: the vault's file list is a parameter (`getFiles`), and reading a note is the `content` field of `NoteFile`.
