# Study Jarvis backend, modelled in Dafny

Study Jarvis is a retrieval-augmented study assistant. The user uploads
notes (PDF, DOCX or TXT). The backend cuts the extracted text into
overlapping character windows and stores one embedded record per chunk in a
Pinecone index, tagged with its source file and an optional subject,
chapter and upload time. A chat question retrieves the nearest chunks. They
are labelled with their source and put into one of several prompt templates
for a local Ollama model. The exchange is kept in an in-memory per-session
history. A quiz request does the same with an optional subject filter and a
question count. A document listing groups the stored chunks back into files.

The model covers the logic between the I/O calls:

- the sliding-window chunker;
- the record building shared by the ingestion script and the upload route;
- the prompt templates, and how a model reply, stream or failure becomes
  the answer string;
- the context assembly and source deduplication of the chat route;
- the session map;
- the extension check and messages of the upload route;
- the filter and context of the quiz route;
- the result shapes of the vector-store wrapper, and the grouping and
  sorting of its document listing.

Every call that leaves the process is an input of the model. This covers
the embedding model (`encode`), fresh UUIDs (`ids`), `datetime.now()`
(`clock`, `turnTime`, `replyTime`), text extraction (`text`), and the
store's and model server's replies (`Call`, `Outcome`).

Modules, in dependency order:

- `Wrappers`: `Option`, `Result`, Python truthiness of an optional string.
- `Text`: `str.strip()` over Python's whitespace set, clamped slicing,
  `sep.join`, occurrence, `<` on strings, ASCII `lower()`.
- `Numerals`: `str(int)` and reading it back.
- `Seqs`: first-seen deduplication, first index, counting.
- `Chunker`: `chunk_text`.
- `Store`: match metadata, and `upsert_vectors`, `query_vectors` and
  `delete_document`.
- `Registry`: `get_document_stats`.
- `Ingest`: vector records, and `ingest_file`.
- `Llm`: `query_llm` after the request.
- `Prompt`: `build_study_prompt`.
- `Sessions`: the `conversations` dict.
- `Chat`: the `/chat` route.
- `Upload`: the `/upload` route.
- `Quiz`: the `/quiz` route.

## Model

| member | source | states |
|---|---|---|
| Text.Strip | backend/ingest_notes.py:49-50 | `strip()` removes only whitespace: the result is a piece of the input that neither starts nor ends with whitespace, it is empty exactly when the input is all whitespace, and every non-whitespace character of the input lies inside it |
| Text.StripInfixShorter | backend/ingest_notes.py:46-49 | stripping a piece of a text never leaves more than stripping the whole text |
| Text.JoinContainsParts | backend/llm_client.py:85 | every part of a `sep.join` occurs in the joined string |
| Text.LexLessTransitive | backend/pinecone_client.py:117 | Python's string order, which the listing sorts by, is transitive |
| Text.LexLessTotal | backend/pinecone_client.py:117 | any two different strings are ordered one way or the other |
| Text.LexLessAsymmetric | backend/pinecone_client.py:117 | no two strings are each smaller than the other |
| Text.LexLessIrreflexive | backend/pinecone_client.py:117 | no string is smaller than itself |
| Text.AsciiLower | backend/app.py:157 | lower-casing keeps the length and maps exactly the ASCII capitals to their small letters |
| Numerals.IntToString | backend/app.py:345 | `str(num_questions)` is non-empty and starts with a minus sign exactly for negative numbers |
| Numerals.IntToStringRoundTrip | backend/app.py:345 | the numeral `str` writes reads back as the same integer, so distinct counts give distinct numerals |
| Seqs.Dedup | backend/app.py:264-265 | the collected list has no duplicates and holds exactly the elements seen |
| Seqs.DedupSameElements | backend/app.py:264-265 | an element is in the deduplicated list exactly when it was seen |
| Seqs.DedupFirstSeenOrder | backend/app.py:264-265 | the deduplicated elements are listed in order of their first appearance |
| Seqs.DedupAppend | backend/app.py:264-265 | one more element extends the list exactly when it has not been seen |
| Chunker.ChunkText | backend/ingest_notes.py:28-54 | empty text gives no chunk; every chunk holds more than 50 characters and at most `chunk_size` of them, or for a negative `chunk_size` at most what is left once `-chunk_size` characters are cut off the end of the text; there is at most one chunk per window start |
| Chunker.ChunkTextWindows | backend/ingest_notes.py:44-52 | chunk `i` is the stripped `chunk_size` window at its own start offset, which lies inside the text and is a multiple of `chunk_size - overlap` |
| Chunker.ChunkStartsIncreasing | backend/ingest_notes.py:44-52 | chunks come out in strictly increasing order of position |
| Chunker.ChunkTextComplete | backend/ingest_notes.py:44-52 | no window is lost: every step offset inside the text whose stripped window has more than 50 characters starts a chunk |
| Chunker.ChunkCountBound | backend/ingest_notes.py:44-52 | there are at most `ceil(len(text) / (chunk_size - overlap))` chunks |
| Chunker.ShortTextNoChunks | backend/ingest_notes.py:48-50 | text that fits in one window and strips to at most 50 characters gives no chunk at all |
| Chunker.ChunksOfPlaced | backend/ingest_notes.py:44-52 | every kept window lies at a step offset inside the text and is the stripped window there; there is at most one per step |
| Chunker.ChunksOfBounded | backend/ingest_notes.py:45-49 | every kept window holds at most `chunk_size` characters, or for a negative `chunk_size` at most the text less its last `-chunk_size` characters |
| Chunker.NegativeSizeCountsFromEnd | backend/ingest_notes.py:44-52 | a negative `chunk_size` is a stop counted from the end: 100 non-blank characters with size -5 and overlap -10 give the single chunk of the first 95 characters |
| Chunker.TwelveHundredCharacters | backend/ingest_notes.py:28-54 | 1200 non-blank characters with size 500 and overlap 50 give exactly the windows `[0:500]`, `[450:950]` and `[900:1200]` |
| Chunker.TwelveHundredStarts | backend/ingest_notes.py:44-52 | those three chunks start at 0, 450 and 900 |
| Text.Slice | backend/ingest_notes.py:46 | `text[start:end]` holds the characters from `start` up to the normalised stop, and nothing when that stop is not past `start` |
| Chunker.KeptAll | backend/ingest_notes.py:48-50 | windows that all strip to more than 50 characters are all kept |
| Store.UpsertVectors | backend/pinecone_client.py:56-63 | the upsert reports success exactly when the store call did not raise |
| Store.QueryVectors | backend/pinecone_client.py:70-81 | the query gives the reply's matches, and no match when the reply has none or the call raised |
| Store.DeleteDocument | backend/pinecone_client.py:136-154 | the result always echoes the source; it succeeds exactly when the delete did not raise; the message names the source on success and carries the error text otherwise |
| Store.DescribedAppend | backend/app.py:256-257 | a match with truthy metadata adds its metadata at the end; a match without is skipped |
| Store.Sources | backend/pinecone_client.py:102 | one defaulted source per piece of metadata, in order |
| Registry.GroupNames | backend/pinecone_client.py:100-110 | the listing's entries are the distinct sources in order of first appearance |
| Registry.GroupCounts | backend/pinecone_client.py:100-111 | each entry counts exactly the sampled chunks whose source is its name |
| Registry.GroupFirstSeen | backend/pinecone_client.py:104-110 | each entry's upload time and subject come from the first chunk seen for its source |
| Registry.GroupTotal | backend/pinecone_client.py:100-111 | the counts add up to the number of matches with metadata |
| Registry.GroupOneSource | backend/pinecone_client.py:100-111 | chunks that share one source group into a single entry counting all of them |
| Registry.GroupEntries | backend/pinecone_client.py:100-110 | entry names are distinct, and a name is listed exactly when it is some chunk's source |
| Registry.Insert | backend/pinecone_client.py:117 | one insertion step of the sort adds exactly the inserted entry |
| Registry.SortDesc | backend/pinecone_client.py:117 | the sort returns a permutation of the entries |
| Registry.SortDescSorted | backend/pinecone_client.py:117 | the sorted entries run from the latest upload time to the earliest |
| Registry.InsertSorted | backend/pinecone_client.py:117 | inserting into a sorted listing keeps it sorted |
| Registry.SortMembers | backend/pinecone_client.py:117 | sorting keeps the same entries, as many of them |
| Registry.SortTotal | backend/pinecone_client.py:117 | sorting keeps the total of the counts |
| Registry.SortDistinct | backend/pinecone_client.py:117 | sorting keeps the names distinct |
| Registry.GetDocumentStats | backend/pinecone_client.py:89-124 | a failed stats call gives zero vectors and no documents; otherwise the reported total, or 0 if none; a failed sample gives no documents; otherwise the documents are a sorted permutation of the grouping |
| Registry.DocumentStatsReport | backend/pinecone_client.py:89-118 | once both calls return: one entry per distinct source and no name twice, each counting its source's chunks with its first chunk's upload time and subject, counts summing to the chunks sampled, latest first |
| Ingest.IfTruthy | backend/ingest_notes.py:152-156 | an optional subject or chapter is recorded exactly when it is truthy, and then verbatim |
| Ingest.BuildVectors | backend/ingest_notes.py:144-158 | exactly one record per chunk in chunk order: record `i` has id `i`, the chunk's embedding, the chunk text, the source, index `i`, the time stamp if any, and only the truthy subject and chapter |
| Ingest.Stored | backend/pinecone_client.py:102-109 | what the listing reads back from a stored record is its source, its upload time or "Unknown", and its subject or "General" |
| Ingest.UploadedFileIsOneDocument | backend/app.py:189-204 | the records of one uploaded file show up in the listing as one document counting every chunk, with the first chunk's time stamp and the file's subject or "General" |
| Ingest.Basename | backend/ingest_notes.py:142 | the base name is the trailing piece of the path with no slash, preceded by a slash when shorter than the path |
| Ingest.IngestFile | backend/ingest_notes.py:113-169 | a missing file or blank text ingests nothing; otherwise one record per chunk of size 500 and overlap 50 is sent, tagged with the base name; the count is the number of chunks when the upsert succeeds and 0 when it fails |
| Llm.Consumed | backend/llm_client.py:52-58 | the streaming loop reads a prefix of the lines which holds no `done` record except possibly its last line, and it stops early only at such a record |
| Llm.FoldStreamReference | backend/llm_client.py:49-59 | the streaming loop succeeds exactly when no line it reads is malformed, and then returns the concatenated `response` fields of the lines read |
| Llm.BlankLinesSkipped | backend/llm_client.py:52-53 | an empty line never changes the streamed result |
| Llm.StopsAtDone | backend/llm_client.py:57-58 | nothing after the first `done` record is read |
| Llm.QueryLlm | backend/llm_client.py:49-70 | `query_llm` never fails: every failure becomes a string that starts with the error marker, a plain reply is its `response` field or "", and a clean stream is the fold of what it reads |
| Llm.ErrorReport | backend/llm_client.py:69-70 | the diagnostic for an unexpected error starts with the error marker and ends with the error's text |
| Prompt.ModeOf | backend/llm_client.py:84-159 | each of the four mode names selects its own template, and every other name selects the generic one |
| Prompt.ModeNameRoundTrip | backend/llm_client.py:84-159 | every template is reachable by some mode name |
| Prompt.TemplateSelection | backend/llm_client.py:84-162 | `build_study_prompt` returns the template of the selected mode; an unknown mode gets the space-joined chunks and the question in the generic frame |
| Prompt.AnswerWithoutNotes | backend/llm_client.py:85-93 | with no chunks, the notes section of an answer prompt is the "No relevant notes found." placeholder, directly followed by the question heading |
| Prompt.AnswerChunkAt | backend/llm_client.py:85-90 | every chunk appears verbatim in an answer prompt, at its offset within the notes section |
| Prompt.AnswerRuleAfter | backend/llm_client.py:85 | in an answer prompt, a `---` rule separates each chunk from the next |
| Prompt.AnswerQuestionAfterNotes | backend/llm_client.py:87-93 | in an answer prompt, the question heading and then the question verbatim follow the notes section |
| Prompt.AnswerAsksForCitations | backend/llm_client.py:100-101 | every answer prompt asks for `(source: filename.pdf)` citations and a `SOURCES:` section |
| Prompt.SummaryIgnoresQuestion | backend/llm_client.py:107-124 | a summary prompt depends on the notes only, not on the question |
| Prompt.NotesPromptsContainChunks | backend/llm_client.py:107-157 | the summary, quiz and flashcard prompts contain every chunk verbatim |
| Prompt.QuizAsksForCount | backend/llm_client.py:126-129 | the quiz prompt puts the question slot right before " multiple-choice questions" |
| Prompt.FlashcardsAskForCount | backend/llm_client.py:144-147 | the flashcard prompt puts the question slot right before " flashcards from these notes." |
| Sessions.History | backend/app.py:299-308 | the history of an unknown session is empty rather than an error; a known session's history is its stored turns |
| Sessions.AppendTurn | backend/app.py:278-287 | after a chat the session exists, its history is the earlier one plus the new turn, and every other session is unchanged |
| Sessions.ClearHistory | backend/app.py:310-316 | clearing removes just that session; the message is "Session not found" exactly when the session was unknown, and names the session otherwise |
| Sessions.HistoryAfterRecord | backend/app.py:278-308 | reading a session back after a chat gives its earlier history plus the turn, and other sessions read as before |
| Sessions.HistoryAfterClear | backend/app.py:299-316 | a cleared session reads as empty, other sessions read as before, and a second clear reports "Session not found" |
| Sessions.ClearUnknown | backend/app.py:313-316 | clearing an unknown session changes nothing |
| Sessions.NoHistoryAtStart | backend/app.py:81 | a fresh server knows no session |
| Chat.Label | backend/app.py:262 | a labelled chunk is `[source=`, the source, `]` and a line break, then the text verbatim |
| Chat.LabelRoundTrip | backend/app.py:262 | the source and text can be read back from the label whenever the source has no `]` |
| Chat.UnlabelSound | backend/app.py:262 | everything that reads back as a label is the label of what it reads back to |
| Chat.Labelled | backend/app.py:256-263 | one labelled chunk per match with metadata, in match order, with the source defaulting to "Unknown" and the text to "" |
| Chat.ReadMatch | backend/app.py:257-265 | one pass of the loop: a match without metadata changes nothing; otherwise its label is appended, and its source too if new |
| Chat.AssembleContext | backend/app.py:253-265 | the loop yields the labelled chunks of the matches with metadata and their sources deduplicated in first-seen order |
| Chat.ChatSources | backend/app.py:264-265 | the reply's sources have no duplicates, are exactly the sources of the matches read, and follow the order of first appearance |
| Chat.ContextUsed | backend/app.py:291 | the reply shows the first three labelled chunks, or all of them when there are fewer |
| Chat.HandleChat | backend/app.py:241-294 | the answer is the model's reply to the prompt built from the labelled chunks; the reply carries those sources and first three chunks; the turn stored in the session holds the question, answer, mode and sources |
| Upload.Extension | backend/app.py:157 | `splitext` gives a suffix of the name that starts with its last dot, has no dot or slash after it, and is not the whole last path segment; it is non-empty exactly when the last path segment has a dot after some non-dot character |
| Upload.ExtensionCondition | backend/app.py:157 | the last dot lies after the last slash with a non-dot character between them exactly when the last path segment has a dot after some non-dot character |
| Upload.ExtensionFromLastDot | backend/app.py:157 | when the name has an extension at all, the extension is everything from the last dot on |
| Upload.DoubleDotExtension | backend/app.py:157 | `a..pdf` has the extension `.pdf`: leading dots of the last segment only are ignored |
| Upload.ExtensionOfName | backend/app.py:157 | a name ending in a non-dot character, then `.e` where `e` has no dot or slash, has the extension `.e` |
| Upload.DotFileHasNoExtension | backend/app.py:157 | a dot file such as `.pdf` has no extension |
| Upload.UndottedHasNoExtension | backend/app.py:157 | a name without a dot has no extension |
| Upload.UpperCaseAllowed | backend/app.py:157-159 | `notes.PDF` passes the allow-list, which ignores case |
| Upload.LastExtensionCounts | backend/app.py:157-159 | `notes.pdf.zip` is refused: only the last extension counts |
| Upload.DotFileRefused | backend/app.py:157-159 | a file named `.pdf` is refused |
| Upload.UnsupportedDetail | backend/app.py:160-163 | the refusal message names the offending extension between its fixed prefix and suffix |
| Upload.ProcessedMessage | backend/app.py:217 | the success message names the file and has the chunk count in its count slot |
| Upload.ProcessedCountReadsBack | backend/app.py:217 | the count in the success message reads back as the number of chunks |
| Upload.UploadNotes | backend/app.py:154-223 | a disallowed extension is a 400 naming it, and nothing is sent; blank text is a 400 and nothing is sent; otherwise one time-stamped record per chunk, tagged with the file name, goes to the store; success exactly when the upsert succeeds, a 500 when it fails; the reply counts the records sent |
| Quiz.QuizFilter | backend/app.py:331 | a subject filter is present exactly when the subject is truthy, and then only matches that subject |
| Quiz.QuizContext | backend/app.py:340 | the quiz context is the defaulted text of each match with metadata, in order and without labels |
| Quiz.GenerateQuiz | backend/app.py:325-355 | the quiz echoes topic and count, and is the model's reply to the quiz prompt built from the filtered top-10 texts and `str(num_questions)` |
| Quiz.QuizAsksForRequestedNumber | backend/app.py:343-347 | the quiz prompt asks for a number of questions that reads back as `num_questions` |

## Left out

- HTTP plumbing is not modelled: FastAPI routing, form parsing, response
  models and the `/`, `/status` and `/documents` routes.
- The delete route (`backend/app.py:123-142`) only wraps
  `delete_document` and URL-decodes the name. The decoding (`unquote`)
  is not modelled.
- Text extraction (the PDF, DOCX and TXT readers) and the temporary upload
  file are not modelled; the extracted text is an input.
- Embeddings are the opaque function `encode`. Encoding the whole batch
  and encoding each chunk give the same vectors, which the model assumes.
  UUIDs and `datetime.now()` are parameters.
- The HTTP request to Ollama and its options (model name, `max_tokens`,
  temperature, stop sequences, timeout) are not modelled; the model
  starts from the request's outcome.
- Chat's `top_k` is folded into the store's reply, which is an input.
- Stream lines that are JSON but not an object are not modelled. A line
  is blank, an object, or unparseable.
- The catch-all `except Exception` of the upload, chat and quiz routes
  turns unexpected failures into 500 errors. Such failures come from
  extraction, embedding or the temp file, and none of these is modelled.
  The upsert failure of the upload route is modelled.
- Metadata values are read as strings: a store returning a non-string
  `source`, `text`, `upload_time` or `subject` is not modelled. The
  integer `chunk_index` is written but never read back.
- `None` is not modelled for `file.filename`, `session_id` or `mode`;
  all of these are strings in the model.
- Concurrent requests to the shared `conversations` dict are not
  modelled.
- Chunker.ChunkText: requires `overlap < chunk_size`. The source loops
  forever on non-empty text otherwise; only empty text would return `[]`
  there. A negative `chunk_size` that still exceeds `overlap` is modelled,
  with Python's count-from-end meaning of a negative stop index.
- Text.AsciiLower: only ASCII letters are lower-cased. No other letter
  lowers to a character of `.pdf`, `.docx` or `.txt`, so the allow-list
  decision is the same as with `str.lower()`. The lowered extension
  quoted in a refusal can differ for non-ASCII names.
- Registry.SortDesc: Python's `sorted` is stable, but the contract states
  only order and permutation, not the relative order of equal upload
  times.
- Upload.UploadNotes: the upload route tags records with the file name
  as sent, while `ingest_file` uses its base name. The model keeps this
  difference.
