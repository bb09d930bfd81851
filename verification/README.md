# RAG chatbot backend — a Dafny model

This project models the deterministic core of a retrieval-augmented chatbot
backend written in Python (FastAPI). A user uploads up to fifteen PDF files.
A background task extracts and cleans their text, splits it into chunks,
embeds the chunks and stores them in a vector index, reporting progress in a
job record. Chat questions retrieve the five best-matching chunks, build a
prompt with the last four messages of the session, send it to a
text-generation service and return the answer with the top three sources.

The model keeps every step of that logic and replaces each outside service by
a parameter:

| service | in the model |
|---|---|
| PDF reader | `extract: string -> Extraction`: the page texts, `None` for a page without text, or an error text |
| text splitter | `Splitter`: an uninterpreted function of the configuration (1500, 300, separators) and the text |
| embedding model | `Embedder`: texts to vectors, or an error text |
| vector index | `Upserter` for one batch, and `Search` for a query with its `top_k` |
| generation service | `LlmService.post`: the prompt to the decoded JSON body, or the request error text |
| `:.2f` rendering of a score | `formatScore` |
| Unicode `\w` | `isWord: char -> bool` (`\s` is modelled exactly: the CPython whitespace set) |
| `uuid4`, `datetime.now()` | `jobId`, `freshId`, `userStamp`, `assistantStamp` parameters |
| index health ping | the `indexConnected` parameter of `HealthCheck` |

The modules follow the program's structure:

- `Wrappers` holds `Option` and `Result`.
- `Strings` holds the Python string operations used: `str(n)`, `join`, `endswith`, `rfind`, `+=` accumulation.
- `TextCleaning` models `clean_text`.
- `Documents` models page assembly, `create_chunks`, `process_pdf` and `get_chunk_statistics`.
- `Vectors` models the ids, records and batches of `store_embeddings`.
- `Answers` models `retrieve_context`, the prompt, truncation, reply parsing and `get_response`.
- `Jobs` holds the job record, single-field writes and upload validation.
- `Ingestion` models `process_documents_task`.
- `Api` models the endpoints over the job and session registries.

A job record is a dictionary the background task updates one field at a
time. The model describes a run as the list of those writes. `Trace` is the
state after each write, and `After` is the final state. `Trace` is a sound
over-approximation of what `GET /upload-status` can read. The background task's only
`await` (`Backend/main.py:143`) is on `store_embeddings`, which never yields,
so in practice a request reads the job before the run or after it. The trace
holds every state a request could read if the run yielded between any two
writes. A property of every trace state therefore holds for whatever a
request reads.

The chat prompt is an f-string with fixed text around three holes: the
context block, the optional conversation block and the question. `Template`
holds that fixed text and `FillPrompt` fills the holes; `BuildPrompt` is
`FillPrompt` on the engine's own text (`RagTemplate`). The layout lemmas are
stated for any template, so they hold for `BuildPrompt` in particular.

## Model

| member | source | states |
|---|---|---|
| Strings.NatToString | Backend/rag_engine.py:78 | `str(n)` is a non-empty run of decimal digits, with no leading zero unless n is 0 |
| Strings.DigitsValueOfNatToString | Backend/rag_engine.py:78 | reading back the digits of `str(n)` gives n |
| Strings.NatToStringInjective | Backend/rag_engine.py:78 | distinct numbers print differently |
| Strings.ConcatEmpty | Backend/document_processor.py:26-32 | text accumulated with `+=` is empty exactly when every part is |
| Strings.JoinOffsetsStep | Backend/rag_engine.py:212-224 | in `sep.join(items)` each item starts one item and one separator after the previous one |
| Strings.JoinItems | Backend/rag_engine.py:212-224 | every item occurs in `sep.join(items)` at its own offset |
| Strings.JoinSeparators | Backend/rag_engine.py:212-224 | a separator follows every item but the last |
| Strings.JoinLength | Backend/rag_engine.py:212-224 | the join ends exactly where the last item ends |
| Strings.LastIndexOf | Backend/rag_engine.py:150 | `rfind` returns -1 or an index where the pattern occurs, and no occurrence lies beyond it |
| Strings.AfterLast | Backend/rag_engine.py:78 | the text after the last `_` has no `_`, is a suffix, and is preceded by `_` unless it is the whole text |
| Strings.AfterLastOfSuffix | Backend/rag_engine.py:78 | after `prefix + "_" + tail` with `tail` free of `_`, exactly `tail` follows the last `_` |
| TextCleaning.CollapseWhitespace | Backend/document_processor.py:47 | the only whitespace left is `' '`, never two in a row; empty stays empty; a leading space stays a space |
| TextCleaning.RemoveSymbols | Backend/document_processor.py:49 | only word characters, whitespace and `. , ! ? ; : - ( ) [ ] " '` remain; blank-only spacing is preserved |
| TextCleaning.TightenPunctuation | Backend/document_processor.py:51 | no whitespace precedes any of `. ! ? , ; :`; only characters of the input remain; a non-space first character is kept |
| TextCleaning.DropLeading | Backend/document_processor.py:53 | the result is a suffix of the input that starts with a visible character, empty exactly when the input is all whitespace |
| TextCleaning.DropTrailing | Backend/document_processor.py:53 | the result is a prefix of the input that ends with a visible character, empty exactly when the input is all whitespace |
| TextCleaning.Strip | Backend/document_processor.py:53 | the result is the input less a whitespace run at each end, with no whitespace left at either end; empty exactly when the input is all whitespace |
| TextCleaning.CleanText | Backend/document_processor.py:42-53 | the output has only allowed characters, `' '` as its only whitespace, no whitespace before tight punctuation, and none at either end |
| TextCleaning.CollapseKeepsText | Backend/document_processor.py:47 | collapsing whitespace keeps every non-space character, in order |
| TextCleaning.RemoveSymbolsKeepsText | Backend/document_processor.py:49 | the non-space characters left are exactly the kept characters of the input |
| TextCleaning.TightenKeepsText | Backend/document_processor.py:51 | tightening punctuation removes only whitespace |
| TextCleaning.StripKeepsText | Backend/document_processor.py:53 | stripping removes only whitespace |
| TextCleaning.CollapseMatchesReference | Backend/document_processor.py:47 | collapsing equals turning every whitespace character into a space and then deleting each space that follows a space |
| TextCleaning.RemoveSymbolsKeepsSpaces | Backend/document_processor.py:49 | removing symbols keeps every whitespace character, in order |
| TextCleaning.RemoveSymbolsIdentity | Backend/document_processor.py:49 | text made only of word characters, whitespace and kept punctuation is unchanged |
| TextCleaning.TightenMatchesReference | Backend/document_processor.py:51 | a whitespace character is deleted exactly when the first visible character after it is one of `. ! ? , ; :`; everything else is kept in order |
| TextCleaning.TightenIdentity | Backend/document_processor.py:51 | text without `. ! ? , ; :` is unchanged |
| TextCleaning.CleanPlainText | Backend/document_processor.py:42-53 | on text with nothing to remove and no tight punctuation, cleaning is collapsing whitespace and stripping the ends |
| TextCleaning.CleanTextMatchesReference | Backend/document_processor.py:42-53 | cleaning equals the four reference steps composed: blank and squeeze whitespace, delete symbols, delete whitespace before tight punctuation, strip |
| TextCleaning.CleanTextKeepsText | Backend/document_processor.py:46-53 | the non-space characters of the output are exactly the input's kept characters, in order: nothing else is lost or added |
| TextCleaning.DoubleSpaceSurvives | Backend/document_processor.py:47-53 | a removed symbol between two spaces leaves a double space (`"a @ b"` becomes `"a  b"`) |
| Documents.AssemblePagesAppend | Backend/document_processor.py:28-32 | one more page adds its marker and text numbered by its position, or nothing when it has no text |
| Documents.AssembledBlankIffNoText | Backend/document_processor.py:26-35 | the assembled text is blank exactly when no page has text |
| Documents.ConcatAllSpace | Backend/document_processor.py:26-34 | accumulated text is all whitespace exactly when every part is |
| Documents.ExtractText | Backend/document_processor.py:21-40 | a reader error or a document with no page text fails with the prefixed message; otherwise the result is the cleaned assembly |
| Documents.WrapPieces | Backend/document_processor.py:62-76 | one record per piece, same texts in order, with `chunk_id` i, the piece count, its length and the source |
| Documents.CreateChunks | Backend/document_processor.py:55-76 | the records' texts are the splitter's output under the default configuration, with that metadata |
| Documents.ProcessPdf | Backend/document_processor.py:78-92 | fails exactly when extraction fails, with `"Error processing PDF <name>: "` prefixed; otherwise chunks the extracted text under the file name |
| Documents.GetChunkStatistics | Backend/document_processor.py:94-109 | nothing for no chunks; otherwise the count, the total, and a minimum and maximum that are attained and bound every count |
| Documents.SumBetween | Backend/document_processor.py:101-108 | a sum of n values between lo and hi lies between n·lo and n·hi |
| Documents.StatisticsBounds | Backend/document_processor.py:101-108 | n·min ≤ total characters ≤ n·max |
| Documents.StatisticsOfCreatedChunks | Backend/document_processor.py:59-108 | for chunks from `create_chunks`, total characters equals the length of the splitter's pieces joined |
| Documents.SumOfLengths | Backend/document_processor.py:71-108 | the sum of the pieces' lengths is the length of their concatenation |
| Vectors.IdPositionOfVectorId | Backend/rag_engine.py:78 | the number after the id's last `_` is the record's position, whatever the job id and file name contain |
| Vectors.VectorIdsDiffer | Backend/rag_engine.py:77-78 | ids built for different positions differ, across jobs and files too |
| Vectors.BuildVectors | Backend/rag_engine.py:76-88 | `zip` stops at the shorter list; record i has the id, embedding i and chunk i's text, source and chunk id plus the job id |
| Vectors.BuildVectorsIdsDistinct | Backend/rag_engine.py:76-88 | the ids of one call are pairwise distinct and each decodes to its position |
| Vectors.BatchesFromProperties | Backend/rag_engine.py:91-94 | batches from a start index concatenate back to the rest of the list, are non-empty slices of at most 100, and number ceil(rest/100) |
| Vectors.BatchesProperties | Backend/rag_engine.py:90-94 | the batches are consecutive slices of at most 100 that concatenate to the whole list; there are ceil(n/100) |
| Vectors.UpsertAll | Backend/rag_engine.py:92-94 | succeeds exactly when every batch is stored; otherwise reports the first rejected batch's error |
| Vectors.StoreEmbeddings | Backend/rag_engine.py:64-97 | an embedding failure is reported with both prefixes; the first rejected batch's error is reported with the store prefix; success exactly when embedding succeeds and every batch is stored |
| Answers.ToContext | Backend/rag_engine.py:116-122 | a missing text or source reads as `""` and a missing chunk id as 0; the score is copied |
| Answers.MapMatches | Backend/rag_engine.py:115-124 | one context per match, in index order |
| Answers.StoredMetadataRoundTrip | Backend/rag_engine.py:81-121 | a match on a stored record gives back the stored text, source and chunk id |
| Answers.RetrieveContext | Backend/rag_engine.py:99-127 | a search error is reported with the retrieval prefix; otherwise one context per match, in order, each carrying that match's text, source and score |
| Answers.RecentHistory | Backend/rag_engine.py:220 | `history[-4:]` has min(4, n) entries and is a suffix |
| Answers.BuildPrompt | Backend/rag_engine.py:227-241 | the prompt starts with the fixed header and ends with `"User Question: "`, the query and the fixed instructions |
| Answers.PromptShowsContexts | Backend/rag_engine.py:212-231 | every context's `[Source: …, Relevance: …]` header followed by its text occurs in the context block, at that entry's place in the `"\n\n"` join, in retrieval order |
| Answers.HistoryBlockOf | Backend/rag_engine.py:218-232 | a non-empty history gives the block `"Previous conversation:\n"`, the recent lines joined by `"\n"`, then a blank line |
| Answers.PromptShowsRecentMessage | Backend/rag_engine.py:217-232 | the conversation block starts right after the contexts and their blank line, and each recent message's `ROLE: content` line occurs in it at that message's place in the `"\n"` join |
| Answers.PromptHistoryLinesAdjacent | Backend/rag_engine.py:221-232 | recent messages appear in order: the line of message `i` is followed by exactly one `"\n"`, and the line of message `i + 1` starts right after it |
| Answers.PromptQuestionAfterHistory | Backend/rag_engine.py:232-241 | with a history, the last recent line is followed by a blank line, the question and the instructions, and nothing else |
| Answers.PromptWithoutHistory | Backend/rag_engine.py:218-232 | without a history there is no conversation block: the question follows the contexts and their blank line directly |
| Answers.PromptSeesLastFourMessages | Backend/rag_engine.py:217-232 | messages older than the last four do not change the prompt |
| Answers.PromptHasQuestion | Backend/rag_engine.py:227-241 | every built prompt has `"Question:"` after its first character, so truncation always keeps a question part |
| Answers.SliceTo | Backend/rag_engine.py:155 | Python's `s[:stop]`, counting from the end when `stop` is negative |
| Answers.TruncatePrompt | Backend/rag_engine.py:146-158 | a prompt of at most 2500 characters is unchanged |
| Answers.TruncateKeepsQuestion | Backend/rag_engine.py:150-156 | the question part is kept whole at the end after a prefix and the marker; the length is 2419 when the question part has at most 2400 characters; beyond that the negative slice bound counts from the end and the length is max(question + 19, q + 2419), which can exceed 2500 |
| Answers.TruncateWithoutQuestion | Backend/rag_engine.py:157-158 | with no `"Question:"` past index 0 the prompt is cut to its first 2500 characters |
| Answers.TruncatedLengthBound | Backend/rag_engine.py:147-158 | the 2500 limit holds whenever the question part fits in 2400 characters |
| Answers.ParseReply | Backend/rag_engine.py:183-198 | a non-empty `choices` gives the first message's content, or a parse error naming the missing key; otherwise `response`, otherwise the unexpected-format error |
| Answers.CallLlm | Backend/rag_engine.py:129-198 | no key gives the missing-key error; the service receives the truncated prompt; its error is prefixed; its body is parsed |
| Answers.Excerpt | Backend/rag_engine.py:250 | the first 200 characters (or fewer) followed by `"..."` |
| Answers.Sources | Backend/rag_engine.py:247-254 | the first min(3, n) contexts in order, with source and score copied and the excerpt |
| Answers.GetResponse | Backend/rag_engine.py:200-259 | a retrieval error or a generation error is reported with the response prefix; nothing retrieved gives the fixed reply and no sources; otherwise the reply is exactly the service's answer to the built prompt, with the top sources |
| Answers.EmptyRetrievalSkipsGeneration | Backend/rag_engine.py:206-209 | with nothing retrieved the answer does not depend on the generation service |
| Answers.ResponseSeesLastFourMessages | Backend/rag_engine.py:217-244 | the answer depends on the last four history entries only |
| Jobs.Apply | Backend/main.py:124-161 | one write changes its field and no other |
| Jobs.TraceAppend | Backend/main.py:119-161 | the trace of writes in sequence is the concatenation of their traces |
| Jobs.TraceKeepsFiles | Backend/main.py:119-161 | no state of a run changes the file count or list |
| Jobs.ProgressSortedAppend | Backend/main.py:129-156 | sorted progress writes followed by writes sorted from where they stopped stay sorted |
| Jobs.SortedWritesNonDecreasing | Backend/main.py:129-156 | sorted progress writes give a trace whose progress never decreases |
| Jobs.ProgressStaysBelow | Backend/main.py:129-161 | writing only values below a bound keeps the progress of every trace state below it |
| Jobs.StatusUnwritten | Backend/main.py:129-137 | without status writes no trace state changes the status |
| Jobs.FileError | Backend/main.py:84-90 | a file fails exactly when its name lacks a case-sensitive `.pdf` ending or it exceeds 10 MiB; the name is checked first |
| Jobs.FirstFileError | Backend/main.py:83-90 | the files pass exactly when each does; otherwise the first failing file's error |
| Jobs.ValidateUpload | Backend/main.py:75-90 | more than 15 files is rejected before any file is looked at; otherwise the first failing file decides |
| Jobs.NameCheckedBeforeSize | Backend/main.py:84-90 | a misnamed file is reported as not a PDF, whatever its size |
| Jobs.FirstRejectedDecides | Backend/main.py:83-90 | when the earlier files pass, the first rejected file's error is the answer |
| Jobs.JoinPath | Backend/main.py:93 | POSIX `os.path.join` for a directory with no trailing `/`: a name starting with `/` replaces the directory, otherwise the two are joined by one `/` |
| Jobs.SavedFiles | Backend/main.py:93-102 | one record per file with its name, saved path and size |
| Jobs.NewJob | Backend/main.py:104-112 | pending, progress 0, none processed, total = number of files, and its file list is exactly the saved files, each at `uploads/<job id>_<name>` |
| Jobs.SavedPathInUploadDir | Backend/main.py:93 | a saved path is `uploads/` followed by the job id, `_` and the file name |
| Ingestion.FileProgress | Backend/main.py:130 | the progress reported while reading a file is below 50 |
| Ingestion.FileProgressMonotone | Backend/main.py:129-130 | later files never report less progress |
| Ingestion.ChunksFromFails | Backend/main.py:129-137 | reading fails exactly when some file fails, with the first failing file's error |
| Ingestion.FileLoopChunks | Backend/main.py:129-137 | the loop's chunks are every file's chunks in file order, or the first unreadable file's error |
| Ingestion.FileLoopWrites | Backend/main.py:129-137 | the loop's progress writes are sorted and below 50, and it never writes the status |
| Ingestion.FileLoopOutcome | Backend/main.py:129-137 | the loop gathers every file's chunks in order or stops at the first error; its progress writes are sorted and below 50, and it never writes the status |
| Ingestion.FileLoopCount | Backend/main.py:129-137 | the loop counts every file on success; otherwise it stops at the first unreadable file, every earlier file was read, and exactly those earlier files are counted |
| Ingestion.RunReport | Backend/main.py:119-161 | along every run's trace progress never decreases, is 100 only once completed, and the first state is `processing`; the file list is untouched |
| Ingestion.RunResult | Backend/main.py:119-161 | a run ends completed at 100 with every file counted and the success message, or failed below 100 with `"Error: "` and the error: an unreadable file leaves the files before the first such file counted; a store failure leaves every file counted and progress at 60 |
| Ingestion.RunOutcome | Backend/main.py:119-161 | a run is well reported and ends completed at 100 with every file counted, or failed below 100 with `"Error: "` and the error: an unreadable file leaves the files before the first such file counted; a store failure leaves every file counted and progress at 60 |
| Ingestion.TraceCompletedAtSixty | Backend/main.py:155-156 | the write sequence of a successful run has a state that is completed but still at progress 60 |
| Ingestion.FinalHundredIffCompleted | Backend/main.py:139-161 | when a run from a fresh job is over, its progress is 100 exactly when its status is completed |
| Ingestion.PrefixWellReported | Backend/main.py:123-137 | along the trace of the start and the loop, the status is processing and progress never decreases and stays below 50 |
| Ingestion.CompletionTail | Backend/main.py:139-157 | the embedding phase and completion raise progress to 60, then 100 only once completed |
| Ingestion.EmbedFailTail | Backend/main.py:139-161 | a store failure leaves progress at 60 and reports the error |
| Ingestion.FailTail | Backend/main.py:159-161 | a file failure keeps the last progress and reports the error |
| Ingestion.AppendWellReported | Backend/main.py:119-161 | a well-reported start followed by a well-reported tail is well reported |
| Ingestion.TaskOutcome | Backend/main.py:119-161 | with the real reader and store: terminal, completed exactly when nothing failed, the file list untouched |
| Ingestion.UnreadableFileFailsTask | Backend/main.py:129-161 | one unreadable file fails the run |
| Api.UploadFiles | Backend/main.py:67-117 | a rejected upload is a 400 with the registries unchanged; an accepted one adds exactly the new pending job |
| Api.ProcessDocuments | Backend/main.py:119-161 | only the run's own job changes; an unknown job id changes nothing |
| Api.GetUploadStatus | Backend/main.py:163-171 | the stored record for a known id, otherwise 404 `"Job not found"` |
| Api.UploadThenStatus | Backend/main.py:104-171 | an accepted upload leaves its job pending at 0% in the registry, before the background task runs |
| Api.RejectedUploadUnknown | Backend/main.py:75-171 | a rejected upload leaves its job id unknown |
| Api.UploadThenProcess | Backend/main.py:104-171 | after upload and processing the job is completed at 100 exactly when nothing failed, otherwise failed below 100 with the error |
| Api.SessionIdFor | Backend/main.py:178 | an absent or empty session id gets the fresh one |
| Api.WithSession | Backend/main.py:181-182 | an absent session is created empty; an existing one is untouched |
| Api.Chat | Backend/main.py:173-216 | the engine sees the earlier history; only this session changes; success appends exactly the question then the answer; failure is a 500 and keeps the messages |
| Api.ChatSeesLastFour | Backend/main.py:185-192 | the reply depends only on the session's last four messages |
| Api.GetChatHistory | Backend/main.py:218-226 | the stored messages, or none for an unknown session |
| Api.ClearChat | Backend/main.py:228-236 | an existing session is emptied, an unknown one is not created, and nothing else changes |
| Api.ClearThenHistory | Backend/main.py:223-236 | after clearing, the history reads back empty |
| Api.ChatThenHistory | Backend/main.py:194-226 | after a successful chat the history ends with the question and the answer |
| Api.HealthCheck | Backend/main.py:238-248 | the counts are the numbers of jobs and sessions |
| Api.HealthCounts | Backend/main.py:104-248 | an upload with a new id counts one more job; clearing a chat and processing a job change no count |

## Left out

- Reading the PDF, splitting, embedding, the vector index, and the HTTP call to the generation service are calls into libraries and services; they are parameters.
- The splitter's chunk size and overlap behaviour is a library's and is not modelled; only its configuration is recorded.
- FastAPI routing, CORS, request and response models, and the `GET /` greeting are transport and a constant reply.
- Writing uploads and the metadata JSON to disk is I/O. Earlier files of a rejected upload are still written before the rejection; the model keeps only the registries.
- `upload_time` in the file records is a timestamp only, so it is omitted.
- Background-task concurrency and the interleaving of requests are not modelled. A run is sequential. `Trace` lists the state after each write, a superset of what a status request can read.
- `avg_chunk_size` is a float, and the similarity scores and vector values are opaque.
- Ingestion.FileProgress: computed exactly as `idx * 50 / n`. Python computes `int((idx / n) * 50)` in floating point, which may round a whole result down by one.
- Answers.CallLlm: the request error text includes any `"\nResponse: "` suffix inside the service's error value. A non-list `choices` and non-string JSON values are not representable in `ReplyBody`.
- Pinecone index setup, `is_connected`, `delete_job_data` and the scripts `create_index.py`, `test.py` and `check_vectors.py` are foreign calls or one-off tools.
- A failure while writing the metadata file after storing would also fail the job. File writes are not modelled, so that path is absent.

Behaviour the code does not have:

- Retrieval searches the whole index with no job filter, so there is no per-job isolation.
- There are no retries.
- A failed chat raises an HTTP 500 and appends nothing, instead of appending a fallback message.
- Progress is `floor(idx * 50 / n)` before each file, then 60, then 100, not a per-file percentage.
- Along the write sequence, progress 100 implies completed but not the converse: one state is completed at progress 60 (`Ingestion.TraceCompletedAtSixty`). The final state of a run has both or neither (`Ingestion.FinalHundredIffCompleted`).
- Chat does not check that any job has finished.
- There is no minimum file count.
