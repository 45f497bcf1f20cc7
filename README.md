# GA chatbot core, modelled in Dafny

This project models the core of a small retrieval-augmented chatbot. The model has two halves.

**Server side (FastAPI).**
- The ingestion path of the document store:
  - the paginated full-table read;
  - allocation of consecutive `DOC_<n>` chunk ids;
  - chunk rows for the `vectorstore` table, and stored rows read back as documents.
- The RAG request handler: parsing the history, the history block, the chat message list, and what the retrieval chain binds to the prompt's two slots.
- The chat-log endpoint: the client address, the inserted row, and the reported outcome.
- The evaluation endpoints: ROUGE type filtering and the per-row embedding scores.

**Browser side (JavaScript).**
- The conversation state of the client:
  - a FIFO history of at most ten turns, mirrored to local storage;
  - the `isProcessing` guard.
- The response pipeline:
  - literal `\n` pairs become newlines;
  - display math, then inline math, is swapped for numbered placeholders from one shared counter;
  - the text goes through `marked`;
  - the placeholders are restored with `String.prototype.replace`.
- The bracket rewrite of `addBotMessage`.
- The typing-indicator slot.

One Dafny module covers each concern:

| module | file |
|---|---|
| `Wrappers` | wrappers.dfy |
| `Text` | text.dfy |
| `VectorStore` | vectorstore.dfy |
| `RagRequest` | rag_request.dfy |
| `ChatLog` | chat_log.dfy |
| `Metrics` | metrics.dfy |
| `ChatClient` | chat_client.dfy |
| `JsReplace` | js_replace.dfy |
| `MathPlaceholders` | math_placeholders.dfy |
| `MathRoundTrip` | math_round_trip.dfy |
| `MathCounterexamples` | math_counterexamples.dfy |
| `BotMessage` | bot_message.dfy |

How each kind of code is modelled:
- **Loops** in the source are methods with loop invariants, proved against a specification function. Examples are the page loop, the id tagging loop, the row loop, the history and prompt loops, the placeholder passes, the restore loop and the score loop.
- **Mutable state** is a class whose methods state the whole new state:
  - the client's module-level variables and local storage;
  - the typing-indicator slot.
- **External services** are function-typed parameters. This covers Supabase (the table reads and both inserts), the vector search, the text splitter, JSON, `marked`, the clock and the evaluators.
- **The language model** is not modelled. The RAG handler is modelled up to what it hands the model: the message list and the values bound to its two slots, or the error `from_messages` raises on a history message without content (`RagRequest.BindRequest`).

The placeholder round trip is the deepest result. `MathRoundTrip.MathRoundTrip` proves the following. Take `marked` as the identity. Restoring the placeholders of the protected text then gives back the text exactly, provided three conditions hold:
- the text does not contain `MATHPLACEHOLDER`;
- no closer `\]` or `\)` is directly followed by `_`;
- no recorded math segment contains `$` or `MATHPLACEHOLDER`.

Each condition excludes a way the round trip fails; the third excludes two. `MathCounterexamples` proves a failing family for each of the four exclusions, for any `a`, `b`, `c`, `x`, `y`, `z` free of backslashes, `$` and `M`:
- Placeholder text already in the input is restored as if the pass had made it. So `MATHPLACEHOLDER_DISPLAY_0_MATHPLACEHOLDER\[a\]` comes back as `\[a\]\[a\]`.
- `replace` expands some `$` pairs in a segment: `$$` becomes `$`, and `$&`, `` $` `` and `$'` insert matched text. Any other `$` stays as written (`JsReplace.ExpandLoneDollar`). So `\[a$$b\]` comes back as `\[a$b\]`.
- An underscore after a closer lets the tail of one placeholder and the head of the next spell a third placeholder. So `\[a\]\[b\]_DISPLAY_0_\[c\]` comes back as `\[a\]MATHPLACEHOLDER_DISPLAY_1_\[a\]_DISPLAY_2_MATHPLACEHOLDER`.
- Inline math enclosing display math records a segment that still holds a display placeholder. So `\(x \[y\] z\)` comes back with `MATHPLACEHOLDER_DISPLAY_0_MATHPLACEHOLDER` in place of `\[y\]`.

Some consequences are proved as separate lemmas:
- the `\n` unescaping also breaks LaTeX commands that start with `n`;
- only the innermost pair of nested brackets is rewritten;
- a history loaded from storage that is longer than ten turns would never be trimmed back. `loadHistoryFromStorage` is never called in js/app.js, though: page load calls `initializeOnPageLoad`, which empties the history, so in the shipped client the history never exceeds ten turns (`ChatClient.HistoryKeepsNewest`);
- turns stored by the client carry no `role`, so they add no chat message on the server;
- when some stored `doc_id` cannot be converted, the id fallback can reuse an id that already exists.

## Model

| member | source | states |
|---|---|---|
| VectorStore.PageRange | app/routers/vectorstore.py:27-28 | page p requests the inclusive positions p*1000 .. p*1000+999, exactly 1000 rows |
| VectorStore.SelectRange | app/routers/vectorstore.py:30 | an inclusive range select returns at most end+1-start rows and extends the prefix before start; it is a full page when the table reaches end |
| VectorStore.FetchPage | app/routers/vectorstore.py:27-32 | one page request, built from VectorStore.PageRange and VectorStore.SelectRange; specified by VectorStore.RequestTable |
| VectorStore.RequestTable | app/routers/vectorstore.py:20-48 | the loop returns the whole table in order; it requests pages 0,1,... (the table size divided by 1000, plus one, of them); every page but the last is full, the last is short, and it is empty when the size is a multiple of 1000 |
| VectorStore.CellToInt | app/routers/vectorstore.py:77 | `astype(int)` on one cell, defined here; specified by VectorStore.ColumnToInts, VectorStore.StartDocId and VectorStore.FallbackCanReuseIds |
| VectorStore.ColumnToInts | app/routers/vectorstore.py:77 | `astype(int)` succeeds iff every cell converts, and then gives each cell's value in order |
| VectorStore.MaxOf | app/routers/vectorstore.py:78 | the result bounds every element and is one of them |
| VectorStore.StartDocId | app/routers/vectorstore.py:73-81 | the start is 1 for an empty column or one that fails to convert; otherwise it is above every stored id and equal to some stored id plus one |
| VectorStore.DropPrefix4 | app/routers/vectorstore.py:108 | Python's `[4:]`: the text after four characters, or empty for shorter text |
| VectorStore.DocIdTag | app/routers/vectorstore.py:94 | `'DOC_' + str(n)`, defined here; specified by VectorStore.DocIdRoundTrip and VectorStore.DocIdTagInjective |
| VectorStore.DecodeDocId | app/routers/vectorstore.py:108 | `int(tag[4:])`, defined here; specified by VectorStore.DocIdRoundTrip, VectorStore.DecodeDocIdIsPyInt and VectorStore.NumberedIdsConsecutive |
| VectorStore.DocIdRoundTrip | app/routers/vectorstore.py:94-108 | `int(("DOC_" + str(n))[4:]) == n` for every integer n |
| VectorStore.DecodeDocIdIsPyInt | app/routers/vectorstore.py:108 | decoding `DOC_` + t is Python `int(t)`, so a number padded with whitespace or split by `_` still decodes |
| VectorStore.DocIdTagInjective | app/routers/vectorstore.py:94 | different numbers give different tags |
| VectorStore.WithDocId | app/routers/vectorstore.py:94 | the chunk keeps its text and other metadata and gains `doc_id` = its tag |
| VectorStore.Numbered | app/routers/vectorstore.py:93-95 | one tagged chunk per split chunk |
| VectorStore.TagConsecutive | app/routers/vectorstore.py:93-95 | the tagging loop tags chunk i with start + i, in splitter order |
| VectorStore.DocsTextSplit | app/routers/vectorstore.py:67-97 | the split chunks are numbered consecutively from the start id computed from the stored column |
| VectorStore.NumberedIdsConsecutive | app/routers/vectorstore.py:93-95 | chunk i's tag decodes to start + i |
| VectorStore.NumberedIdsDistinct | app/routers/vectorstore.py:93-95 | the tags within one batch are pairwise distinct |
| VectorStore.NewIdsAboveStored | app/routers/vectorstore.py:76-95 | when every stored id converts, each new id is larger than every id of the table the call read |
| VectorStore.FallbackCanReuseIds | app/routers/vectorstore.py:80-81 | a table with id 1 beside a null cell gets a new batch starting again at id 1 |
| VectorStore.RowOf | app/routers/vectorstore.py:106-113 | the row dict of one chunk, with its `KeyError` and `ValueError` paths, defined here; specified by VectorStore.RowOfTagged, VectorStore.InsertRows and VectorStore.DocsInsertDb |
| VectorStore.InsertRows | app/routers/vectorstore.py:104-115 | the rows succeed iff every chunk's row builds, and then row i is chunk i's row |
| VectorStore.ContinueStep | app/routers/vectorstore.py:106-115 | one loop step: a failing chunk ends with its error, a good one extends the rows |
| VectorStore.RowOfTagged | app/routers/vectorstore.py:106-113 | a tagged chunk with loader metadata builds the row (n, source, file name, date, text) for its tag's number n |
| VectorStore.DocsInsertDb | app/routers/vectorstore.py:99-118 | a chunk whose row fails to build ends the call with that error and nothing is inserted; otherwise the rows `InsertRows` specifies are inserted in one call, whose response is returned |
| VectorStore.InsertNumberedBatch | app/routers/vectorstore.py:93-115 | a numbered batch whose chunks carry loader metadata always inserts, chunk i as (start+i, source, file name, date, text) |
| VectorStore.ColumnKindOf | app/routers/vectorstore.py:46 | the `doc_id` column stays integer iff every cell is an integer, and becomes float iff it holds an integer and a null but no text |
| VectorStore.IdText | app/routers/vectorstore.py:137 | `str()` of a `doc_id` cell under the column's dtype, defined here; specified by VectorStore.IntCellText, and through VectorStore.DocumentOf by VectorStore.NullIdRewritesTags |
| VectorStore.DocumentOf | app/routers/vectorstore.py:133-143 | the Document built for one record, defined here; specified by VectorStore.DbToDocument, VectorStore.IngestReadBack and VectorStore.NullIdRewritesTags |
| VectorStore.DbToDocument | app/routers/vectorstore.py:120-145 | an empty table raises `KeyError('id')`; otherwise one document per row, in order, with its text, file name and source, and the tag `DOC_` + `str()` of its `doc_id` as the whole column's dtype prints it |
| VectorStore.IntCellText | app/routers/vectorstore.py:137 | an integer id prints as its digits iff the column did not become float |
| VectorStore.IngestReadBack | app/routers/vectorstore.py:46-143 | a tagged chunk inserted and read back keeps its text, file name and source and loses its date; its tag comes back unchanged iff the `doc_id` column did not become float |
| VectorStore.NullIdRewritesTags | app/routers/vectorstore.py:46-137 | beside a null id, stored id 1 reads back as `DOC_1.0` and the null one as `DOC_nan` |
| Text.IntToString | app/routers/vectorstore.py:94 | Python `str()` of an integer, defined here; specified by its digit ensures, Text.IntStringRoundTrip, Text.PyIntRoundTrip and Text.IntToStringInjective |
| Text.IntStringRoundTrip | app/routers/vectorstore.py:94-108 | a plain signed decimal reads back as the integer `str(i)` was made from |
| Text.PyInt | app/routers/vectorstore.py:108 | Python `int()` of text in base 10, defined here; specified by Text.PyIntRoundTrip, Text.PyIntPlain, Text.PyIntSpaces, Text.PyIntSeparator and Text.PyIntDoubledSeparator |
| Text.PyIntRoundTrip | app/routers/vectorstore.py:94-108 | Python `int(str(i)) == i` for every integer |
| Text.PyStripIsStrip | app/routers/vectorstore.py:108 | the whitespace `int()` ignores is what `str.strip()` removes |
| Text.PyIntPlain | app/routers/vectorstore.py:108 | on text with no `_` and no whitespace at either end, `int()` reads an optional sign and decimal digits |
| Text.PyIntSpaces | app/routers/vectorstore.py:108 | `int(' 7\n')` is 7 |
| Text.PyIntSeparator | app/routers/vectorstore.py:108 | `int('2_5')` is 25 |
| Text.PyIntDoubledSeparator | app/routers/vectorstore.py:108 | `int('1__0')` raises `ValueError` |
| Text.Strip | app/routers/db.py:20 | `strip()` for a given white-space set, defined here; specified by Text.StripSlice |
| Text.StripSlice | app/routers/db.py:20 | `strip()` returns a slice with only white space cut at both ends, and it is empty iff all characters are white space |
| Text.Join | app/routers/llm.py:117 | `sep.join(items)`, defined here; specified by Text.JoinAppend and Text.JoinLength |
| Text.JoinAppend | app/routers/llm.py:117 | joining two non-empty lists puts one separator between the two joins |
| Text.IndexOf | js/app.js:138 | the position of the next closer, defined here; specified by Text.IndexOfFirst |
| Text.IndexOfFirst | js/app.js:138 | the found closer is the first one after the opener; none is found only when none occurs |
| RagRequest.ParseHistory | app/routers/llm.py:47-57 | an absent or empty parameter, or one that fails to decode, gives an empty history; otherwise the decoded list |
| RagRequest.LastN | app/routers/llm.py:63 | `h[-5:]`: the last n entries, or all of them when there are fewer |
| RagRequest.Get | app/routers/llm.py:64-65 | `conv.get(key, '')`, defined here; specified through RagRequest.TurnBlock |
| RagRequest.TurnBlock | app/routers/llm.py:64-65 | the two f-string lines of one turn, defined here; specified by RagRequest.NewTurnAppended and RagRequest.HistoryContext |
| RagRequest.Blocks | app/routers/llm.py:63-65 | the turn blocks oldest first, defined here; specified by RagRequest.BlocksAppend and RagRequest.HistoryWindowRendered |
| RagRequest.HistoryContextOf | app/routers/llm.py:59-65 | the history block is empty iff the history is |
| RagRequest.HistoryContext | app/routers/llm.py:59-65 | the `+=` loop builds the header plus the blocks of the last five turns |
| RagRequest.BlocksAppend | app/routers/llm.py:63-65 | rendering concatenated turn runs concatenates their renderings |
| RagRequest.HistoryWindowRendered | app/routers/llm.py:62-65 | at least five turns render as their last five; fewer render all of them |
| RagRequest.OlderTurnsIgnored | app/routers/llm.py:63 | turns before the last five never affect the block |
| RagRequest.NewTurnAppended | app/routers/llm.py:63-65 | adding a turn to a short history appends exactly its block |
| RagRequest.ContentOf | app/routers/llm.py:106-108 | `message.get('content')`, defined here; specified by RagRequest.EntriesFollowHistory |
| RagRequest.MessageEntry | app/routers/llm.py:105-108 | the message one history entry adds, if any, defined here; specified through RagRequest.HistoryEntries by RagRequest.EntriesFollowHistory, RagRequest.EntriesAtMostHistory and RagRequest.ClientShapedHistory |
| RagRequest.HistoryEntries | app/routers/llm.py:104-108 | the messages of a history in order, defined here; specified by RagRequest.PromptText, RagRequest.HistoryEntriesAppend, RagRequest.EntriesFollowHistory, RagRequest.EntriesAtMostHistory and RagRequest.HistoryTemplatesPresent |
| RagRequest.PromptText | app/routers/llm.py:99-110 | the message list is the system slot, one message per known-role history entry, then the question slot |
| RagRequest.HistoryEntriesAppend | app/routers/llm.py:104-108 | the messages of concatenated histories are concatenated in order |
| RagRequest.EntriesFollowHistory | app/routers/llm.py:104-108 | with known roles, there is one message per entry: user becomes human, assistant becomes ai, and the content is carried over |
| RagRequest.EntriesAtMostHistory | app/routers/llm.py:104-108 | never more messages than entries; entries without a role give none |
| RagRequest.Contents | app/routers/llm.py:117 | the page contents of the documents, in order |
| RagRequest.FormatDocs | app/routers/llm.py:115-117 | no documents give empty text and one document gives its content |
| RagRequest.FormatDocsAppend | app/routers/llm.py:117 | two document runs are formatted with one blank line between them |
| RagRequest.GetInputString | app/routers/llm.py:120-124 | plain text passes through; a dict gives its `input_text` or raises `KeyError` |
| RagRequest.Retrieve | app/routers/llm.py:73 | the retriever returns a prefix of the ranking of length 3, or the whole ranking when it is shorter |
| RagRequest.FromMessages | app/routers/llm.py:113 | `ChatPromptTemplate.from_messages`, defined here as a test of RagRequest.TemplatesPresent; RagRequest.PromptTemplatesPresent characterises that test on the message list, and RagRequest.BindFailsIffContentMissing gives its effect on a request |
| RagRequest.HistoryTemplatesPresent | app/routers/llm.py:104-108 | the history's messages all have a template iff every user or assistant entry has `content` |
| RagRequest.PromptTemplatesPresent | app/routers/llm.py:97-113 | the same holds for the whole message list, system and question entries included |
| RagRequest.BindRequest | app/routers/llm.py:44-141 | on success the message list opens with the system slot and closes with the question slot; a failure is the `ValueError` of `from_messages` |
| RagRequest.BindFailsIffContentMissing | app/routers/llm.py:104-113 | a request fails iff a user or assistant entry of its parsed history has no `content` |
| RagRequest.RequestRagLcel | app/routers/llm.py:44-141 | the result is BindRequest's; it fails iff a user or assistant entry lacks `content`; otherwise the messages and history block follow the parsed history, the context slot is the formatted top-3 retrieval for the question and the input slot is the question |
| RagRequest.SystemSlotIgnoresHistory | app/routers/llm.py:76-139 | the system message is the bare `{context_text}` slot; two accepted requests with the same question bind the same slots whatever their histories, the context slot being the formatted retrieval for the question |
| RagRequest.ClientShapedHistory | app/routers/llm.py:104-108 | turns shaped as the client stores them add no message but still render in the history block |
| RagRequest.ClientTurnHasNoRole | js/app.js:25-29 | a client turn `{user, assistant, timestamp}` has no `role` key |
| ChatLog.FirstField | app/routers/db.py:20 | `split(',')[0]`: a comma-free prefix that ends at the first comma or at the end |
| ChatLog.FirstFieldNoComma | app/routers/db.py:20 | without a comma the first field is the whole text |
| ChatLog.GetIp | app/routers/db.py:16-22 | a missing or empty header gives the client host; otherwise the header's first comma-separated field, stripped of whitespace |
| ChatLog.HeaderIpHasNoComma | app/routers/db.py:19-20 | an address taken from the header never holds a comma |
| ChatLog.NoCommaWholeHeader | app/routers/db.py:19-20 | a comma-free header is used whole, stripped |
| ChatLog.BlankFirstFieldGivesEmpty | app/routers/db.py:19-20 | a header with a blank first field logs the empty address, not the host |
| ChatLog.InsertData | app/routers/db.py:27-32 | the row is ('public', ip, input text, chat response) |
| ChatLog.HandleRequest | app/routers/db.py:24-37 | exactly that row is inserted; success is reported iff the insert succeeds, and otherwise its error |
| ChatLog.ReportLine | app/routers/db.py:35-37 | the success line is printed iff the insert succeeded |
| Metrics.FilterRougeTypes | app/routers/metrics.py:89-90 | only valid types remain, each valid type as often as given |
| Metrics.FilterAppend | app/routers/metrics.py:90 | the filter keeps the given order |
| Metrics.FilterKeepsValid | app/routers/metrics.py:89-92 | the list is unchanged iff all types are valid, and empty iff none is |
| Metrics.FilterAllValid | app/routers/metrics.py:90 | a list of valid types passes unchanged |
| Metrics.CalculateRougeSimilarity | app/routers/metrics.py:80-101 | `ValueError("Invalid ROUGE type")` iff no valid type is left; otherwise the keys are the kept types, each with its score |
| Metrics.RougeKeysValid | app/routers/metrics.py:89-101 | result keys are valid types; the call fails iff no given type is valid |
| Metrics.DefaultScoresAll | app/routers/metrics.py:80-101 | the default request scores rouge1, rouge2 and rougeL |
| Metrics.RowScores | app/routers/metrics.py:40-58 | one score per row |
| Metrics.EvaluateEmbedding | app/routers/metrics.py:29-66 | a missing query column, then a missing label column, raises `KeyError` at the first row; no rows give an empty list; otherwise the score of each row's answer against its label, in row order |
| ChatClient.AfterAdd | js/app.js:25-34 | the new turn is the newest entry |
| ChatClient.Newest | js/app.js:32-34 | at most ten turns |
| ChatClient.AfterAddNewest | js/app.js:25-34 | adding to the newest-ten window gives the newest-ten window of one more turn |
| ChatClient.HistoryKeepsNewest | js/app.js:15-34 | from a bounded history, any run of adds keeps exactly the last ten turns seen, in order |
| ChatClient.OverlongHistoryStaysLong | js/app.js:32-34 | a history longer than ten drops one turn per add and never returns to ten; only a loaded history can be that long, and the loader is never called in js/app.js |
| ChatClient.JsTrim | js/app.js:99 | `String.prototype.trim`, defined here; specified by ChatClient.BlankInputRefused and ChatClient.Client.SendMessage |
| ChatClient.BlankInputRefused | js/app.js:99-102 | the trimmed input is empty iff it is all white space |
| ChatClient.Client.constructor | js/app.js:12-16 | script load: empty history, idle, storage as left by earlier pages |
| ChatClient.Client.AddToHistory | js/app.js:24-40 | push, shift once over ten, store the serialised history; the bound is kept |
| ChatClient.Client.LoadHistoryFromStorage | js/app.js:42-53 | a stored value replaces the history when it parses and empties it when parsing throws; no stored value changes nothing (the function is never called in js/app.js) |
| ChatClient.Client.ClearHistory | js/app.js:55-59 | empty history, storage key removed |
| ChatClient.Client.InitializeOnPageLoad | js/app.js:61-66 | empty history, storage key removed |
| ChatClient.Client.SendMessage | js/app.js:98-117 | blank input or a request in flight sends nothing and changes nothing; otherwise it sends the trimmed text with the current history, sets the flag and clears the field |
| ChatClient.Client.FinishRequest | js/app.js:118-248 | a response appends the raw reply as a turn; an error appends nothing; the flag is cleared either way |
| ChatClient.Exchange | js/app.js:98-248 | an idle client with non-blank input sends once, records the turn and ends idle |
| JsReplace.Expand | js/app.js:172 | the `$` patterns of a replacement string, defined here; specified by JsReplace.ExpandPlain, JsReplace.ExpandPlainPrefix, JsReplace.ExpandDollarDollar and JsReplace.ExpandLoneDollar |
| JsReplace.ExpandPlain | js/app.js:172 | a replacement without `$` is inserted as written |
| JsReplace.ExpandPlainPrefix | js/app.js:172 | `$`-free text at the front of a replacement is copied as written and expansion goes on after it |
| JsReplace.ExpandDollarDollar | js/app.js:172 | a `$$` anywhere after `$`-free text in a replacement yields one `$` |
| JsReplace.ExpandLoneDollar | js/app.js:172 | a `$` followed by a character other than `$`, `&`, `` ` `` and `'` stays as written |
| JsReplace.ReplaceFrom | js/app.js:172-176 | a global `replace` from one position on, defined here; specified by JsReplace.ReplaceFromIsSubstitute |
| JsReplace.ReplaceAll | js/app.js:172-176 | a global `replace` on the whole text, defined here; specified by JsReplace.ReplaceAllIsSubstitute and JsReplace.ReplaceAllAbsent |
| JsReplace.ReplaceFromIsSubstitute | js/app.js:172-176 | from any position, a global replace with a `$`-free replacement is literal left-to-right substitution |
| JsReplace.ReplaceAllIsSubstitute | js/app.js:172-176 | a global replace with a `$`-free replacement is literal substitution |
| JsReplace.SubstituteAbsent | js/app.js:170-176 | text without the pattern is unchanged |
| JsReplace.ReplaceAllAbsent | js/app.js:170-176 | replacing in text that does not contain the pattern changes nothing |
| JsReplace.SubstituteWhole | js/app.js:172-176 | the pattern alone becomes the replacement |
| JsReplace.SubstituteAppend | js/app.js:172-176 | substitution splits at a boundary no match straddles |
| MathPlaceholders.UnescapeNewlines | js/app.js:126 | `replace(/\\n/g, '\n')`, defined here; specified by MathPlaceholders.UnescapeComplete, MathPlaceholders.UnescapeNoBackslash and MathPlaceholders.UnescapeBreaksLatex |
| MathPlaceholders.UnescapeComplete | js/app.js:126 | no backslash-n pair survives and the text never grows |
| MathPlaceholders.UnescapeNoBackslash | js/app.js:126 | text without a backslash is unchanged |
| MathPlaceholders.UnescapeBreaksLatex | js/app.js:126 | `\neq` becomes a newline followed by `eq` |
| MathPlaceholders.Token | js/app.js:139-148 | the placeholder text of a kind and index, defined here; specified by MathRoundTrip.TokenInjective, MathRoundTrip.NoMarkerNoToken and MathCounterexamples.TokenNoDollar |
| MathPlaceholders.Protect | js/app.js:138-153 | one pass produces a well-formed run/placeholder layout |
| MathPlaceholders.ProtectMatchStep | js/app.js:138-153 | a match at the front becomes the next placeholder, recording the matched text |
| MathPlaceholders.ProtectCopyStep | js/app.js:138-153 | without a match at the front, the first character is copied |
| MathPlaceholders.ProtectPass | js/app.js:138-153 | the scan outputs the rendered layout, appends every matched segment to the list and advances the counter by the number of matches |
| MathPlaceholders.DisplayLayout | js/app.js:138-144 | the display pass from counter 0, defined here as MathPlaceholders.Protect on the text; specified through Protect by MathRoundTrip.ProtectOriginal and MathRoundTrip.ProtectToks, and by MathPlaceholders.ProtectMath |
| MathPlaceholders.InlineLayout | js/app.js:147-153 | the inline pass on the display pass's output, with the counter it left, defined here as MathPlaceholders.Protect; specified through Protect by MathRoundTrip.ProtectOriginal and MathRoundTrip.ProtectToks, and through MathPlaceholders.ProtectedText by MathPlaceholders.ProtectMath |
| MathPlaceholders.ProtectedText | js/app.js:132-153 | the text after both passes, defined here; specified by MathPlaceholders.ProtectMath and MathRoundTrip.MathRoundTrip |
| MathPlaceholders.Placeholders | js/app.js:132-153 | the `mathPlaceholders` list after both passes, defined here; specified by MathPlaceholders.ProtectMath and MathRoundTrip.MathRoundTrip |
| MathPlaceholders.ProtectMath | js/app.js:132-153 | the display pass and then the inline pass share one counter and one list |
| MathPlaceholders.RestoreOne | js/app.js:170-177 | one guarded global replace of a placeholder, defined here; specified by MathRoundTrip.RestoreOneIsSubstitute |
| MathPlaceholders.RestoreFrom | js/app.js:164-178 | the restore loop from one index on, defined here; specified by MathPlaceholders.RestoreMath, MathRoundTrip.RestoreLayout and MathRoundTrip.MathRoundTrip |
| MathPlaceholders.RestoreMath | js/app.js:164-178 | the loop restores display then inline placeholder i, for each index in order |
| MathPlaceholders.RenderReply | js/app.js:126-185 | the bubble HTML is unescape, protect, `marked`, then restore |
| MathRoundTrip.TokenInjective | js/app.js:139-166 | two placeholders are equal iff they have the same kind and index |
| MathRoundTrip.NoMarkerNoToken | js/app.js:165-176 | text without the marker contains no placeholder |
| MathRoundTrip.SubstituteToken | js/app.js:172-176 | replacing placeholder (k, i) in another placeholder changes it only if it is the same one |
| MathRoundTrip.RestoreOneIsSubstitute | js/app.js:170-177 | one restore step is literal substitution of the placeholder when the segment has no `$` |
| MathRoundTrip.ProtectOriginal | js/app.js:138-153 | writing each placeholder back as its segment gives the input back |
| MathRoundTrip.ProtectToks | js/app.js:138-153 | placeholder a has this pass's kind and index counter + a, and its segment starts with the backslash of its opener |
| MathRoundTrip.ProtectRuns | js/app.js:138-153 | without an underscore after a closer, no text run after a placeholder starts with `_` |
| MathRoundTrip.ProtectNumbered | js/app.js:138-153 | the placeholders of a pass are numbered consecutively from the counter and all have its kind |
| MathRoundTrip.ProtectAppend | js/app.js:138-153 | when `b` starts with the marker, the pass over `a + b` is the pass over `a` followed by the pass over `b` with the counter advanced by the matches in `a` |
| MathRoundTrip.MergeFirstOriginal | js/app.js:164-178 | writing back the first placeholder of a kind keeps the original text |
| MathRoundTrip.SubstituteMergeFirst | js/app.js:170-177 | replacing the first placeholder's token replaces exactly that occurrence |
| MathRoundTrip.RestoreLayout | js/app.js:164-178 | the restore loop turns every placeholder back into its segment, in counter order |
| MathRoundTrip.CombinedRender | js/app.js:146-153 | one layout renders as the inline pass's output, holding the inline pass's placeholders and the display placeholders in order |
| MathRoundTrip.CombinedOriginal | js/app.js:138-153 | the combined display-and-inline layout writes back to the same text as the display layout |
| MathRoundTrip.InlineSegsFree | js/app.js:146-153 | when no recorded segment holds the marker, no segment of the inline pass over the display output does |
| MathRoundTrip.RestoreCombined | js/app.js:164-178 | restoring the display and then the inline segment lists gives the original text |
| MathRoundTrip.MathRoundTrip | js/app.js:126-178 | under the three conditions above, protecting and then restoring gives the text back |
| MathCounterexamples.MarkerLayout | js/app.js:138-153 | in `MATHPLACEHOLDER_DISPLAY_0_MATHPLACEHOLDER\[a\]` the display pass copies the placeholder text and makes `\[a\]` placeholder 0 too; the inline pass finds nothing |
| MathCounterexamples.MarkerRestore | js/app.js:170-173 | restoring placeholder 0 rewrites both copies |
| MathCounterexamples.MarkerBreaksRoundTrip | js/app.js:132-178 | `MATHPLACEHOLDER_DISPLAY_0_MATHPLACEHOLDER\[a\]` comes back as `\[a\]\[a\]`, which differs from it |
| MathCounterexamples.TokenNoDollar | js/app.js:139-148 | a placeholder holds no `$` |
| MathCounterexamples.DollarLayout | js/app.js:138-153 | `\[a$$b\]` becomes display placeholder 0, recording the whole text |
| MathCounterexamples.DollarRestore | js/app.js:170-173 | restoring it writes `\[a$b\]` |
| MathCounterexamples.DollarBreaksRoundTrip | js/app.js:132-178 | `\[a$$b\]` comes back as `\[a$b\]`, which differs from it |
| MathCounterexamples.NestedLayout | js/app.js:138-153 | in `\(x \[y\] z\)`, the display pass replaces `\[y\]` and the inline pass records the inline math with that placeholder inside |
| MathCounterexamples.NestedBreaksRoundTrip | js/app.js:132-178 | `\(x \[y\] z\)` comes back as `\(x P z\)`, P being display placeholder 0, which differs from it |
| MathCounterexamples.UnderLayout | js/app.js:138-153 | `\[a\]\[b\]_DISPLAY_0_\[c\]` becomes placeholders 0 and 1, `_DISPLAY_0_` and placeholder 2; the inline pass finds nothing |
| MathCounterexamples.UnderFirstStep | js/app.js:164-173 | restoring display placeholder 0 rewrites both the real placeholder 0 and the one spelled across the joins |
| MathCounterexamples.UnderscoreBreaksRoundTrip | js/app.js:132-178 | `\[a\]\[b\]_DISPLAY_0_\[c\]` comes back as `\[a\]MATHPLACEHOLDER_DISPLAY_1_\[a\]_DISPLAY_2_MATHPLACEHOLDER`, which differs from it |
| BotMessage.NextBracket | js/utils.js:65 | the first bracket at or after i, or the end |
| BotMessage.BracketRewrite | js/utils.js:65 | the bracket `replace`, defined here; specified by BotMessage.RewriteLength, BotMessage.RewriteChangesIffPair, BotMessage.RewriteAppend, BotMessage.RewritePair, BotMessage.RewriteInContext and BotMessage.NestedInnermostOnly |
| BotMessage.RewriteLength | js/utils.js:65 | the rewrite never shortens the text, grows it on a match, and leaves it unchanged when the length is kept |
| BotMessage.RewriteChangesIffPair | js/utils.js:65 | the text changes iff it holds `[` + non-empty bracket-free run + `]` |
| BotMessage.RewriteAppend | js/utils.js:65 | the rewrite splits before an opening bracket |
| BotMessage.RewritePair | js/utils.js:65 | `[x]` becomes `$$x$$`, and the rest is rewritten on its own |
| BotMessage.RewriteInContext | js/utils.js:65 | a pair is rewritten where it stands |
| BotMessage.NestedInnermostOnly | js/utils.js:65 | in `[x[y]z]` only `[y]` is rewritten; there is no rescan |
| BotMessage.OneKindUnchanged | js/utils.js:65 | text without one of the two brackets is unchanged |
| BotMessage.EmptyBracketsKept | js/utils.js:65 | `[]` is not a match |
| BotMessage.BubbleFor | js/utils.js:64-69 | with `marked` the rewritten text is parsed; without it the raw text is shown |
| BotMessage.TypingSlot.constructor | js/utils.js:3-4 | empty slot over the existing wrappers |
| BotMessage.TypingSlot.Show | js/utils.js:99-126 | a new wrapper is appended and recorded, replacing any earlier record |
| BotMessage.TypingSlot.Hide | js/utils.js:131-136 | the recorded wrapper, if any, is removed and the record cleared |
| BotMessage.Without | js/utils.js:133 | removal keeps exactly the other wrappers |
| BotMessage.AfterShow | js/utils.js:99-126 | the new wrapper is appended and recorded |
| BotMessage.AfterHide | js/utils.js:131-136 | the record is cleared and the recorded wrapper removed, the rest kept |
| BotMessage.HideTwiceNoOp | js/utils.js:131-136 | a second hide changes nothing |
| BotMessage.ShowThenHide | js/utils.js:99-136 | hide after show restores the chat area exactly |
| BotMessage.ShowTwiceLeavesFirst | js/utils.js:99-136 | two shows before a hide leave the first wrapper in place |

## Left out

- The Supabase client, the vector store search, the text splitter, the loaders, the language models, the embedding and cross-encoder evaluators and the ROUGE scorer are parameters or not modelled. They are external services or libraries.
- `text_files_to_docs` (app/routers/vectorstore.py:50-65) is not modelled. It reads files from disk and the clock.
- `request_gemini`, `evaluate_cross_encoder` and the module-level evaluator set-up are not modelled. Each is a single call into an external model.
- `time.sleep` delays (llm.py and metrics.py) and the `print`/`console.log` output are left out. The exception is the insert report of the chat-log endpoint.
- The layout code of js/app.js is left out: viewport, scrolling, keyboard, focus and timers. The DOM element building of js/utils.js is also left out.
- A DOM node is an identity number.
- VectorStore.StartDocId: cells are integers, text or null. Text converts as Python `int()` does, whitespace and `_` separators included; pandas' conversion of float cells is not modelled.
- VectorStore.IdText: a float `doc_id` is printed as its digits followed by `.0`. That is exact up to 2^53. Above that the float would round, and from 10^16 Python prints it in exponent form; neither is modelled. Cells other than integers, text and null are not modelled.
- VectorStore.DocsTextSplit: ingestion is modelled one call at a time. Two concurrent calls read the same largest id and hand out the same ids; nothing serialises them, and that interleaving is not modelled.
- VectorStore.DecodeDocId: the non-ASCII decimal digits that Python `int()` also accepts are not modelled; only `0`-`9` count as digits.
- The `date` column's `pd.to_datetime` is left out, because the date never reaches the documents. A date it cannot parse would raise; that error is not modelled.
- RagRequest.ParseHistory: a decoded history is a list of string-valued objects. JSON values of other types and a top-level value that is not a list are not modelled.
- The rules text of the local `context_text` string is not modelled, and `{history_context}` only as the history block. The chain never reads that string: its `context_text` slot is bound to the retrieval text (RagRequest.SystemSlotIgnoresHistory).
- The call to the language model and the parsing of its output are not modelled; the handler's reply is not part of the model.
- RagRequest.FromMessages: LangChain's `ChatPromptTemplate.from_messages` is not part of this model. It is taken to raise `ValueError` on a `None` template and to accept every string template. Brace escaping in prompt templates is not modelled.
- The transport of the request (how js/api.js encodes the history into the query string) is outside this model.
- ChatClient.Client.LoadHistoryFromStorage: a parsed value that is not an array is not modelled. Parse results are sequences of turns.
- ChatClient.Client.FinishRequest: the MathJax promise and the 100 ms retry are collapsed into one step. The order in which concurrent responses finish is not modelled.
- MathRoundTrip.MathRoundTrip: `marked.parse` is taken as the identity for the round trip. What markdown does to placeholders is not modelled.
- MathRoundTrip.MathRoundTrip: the condition on `$` is stronger than `replace` requires. Segments holding a `$` are excluded even when no `$` in them is followed by `$`, `&`, `` ` `` or `'`, so that `replace` would copy them as written.
- `request.client` being `None` in `get_ip` is not modelled. The client host is a given string.
- Metrics.EvaluateEmbedding: the rounding to five places and the `-0.0` folding belong to the evaluator parameter. The type of the score dictionary wrapper `{'score': ...}` is reduced to the list.
- Side effects of the chain on earlier rows before a `KeyError` are not modelled.
