# A verified model of a PDF question-answering assistant

The system lets a user upload PDF files through a web form and then ask questions about
them. The backend cuts each PDF into chunks and stores them in a vector store. To answer, it
takes the stored chunks closest to the question. It drops blank ones and those whose score
(a distance, so lower is closer) exceeds a threshold. It renders the rest as a labelled
context block and serialises the chat history into a prompt template. Then it asks a
language model.

This project models three parts of that system in Dafny and proves properties of them:

- `rag_pipeline.dfy` (module `RagPipeline`) covers answering: candidate filtering, the context block,
  the history text, the prompt and `generate_answer`. The vector store's search and the
  language model are function parameters. The model either completes a prompt or raises.
- `pdf_processor.dfy` (module `PdfProcessor`) covers page records and chunking. The PDF library is
  represented by its pages (number and optional text), and the text splitter by a function
  from a page's text to its pieces.
- `file_upload.dfy` (module `FileUpload`) covers the upload form. Its React state is the class
  `FileUploadState`, and its methods are the form's handlers. The network is a parameter
  `accepts(i)`, which says whether the i-th request succeeds.
- `seqs.dfy`, `text.dfy` and `wrappers.dfy` hold what these share. That is a
  filter on sequences with its laws, the Python string operations the backend uses
  (`strip`, `str.join`, integer formatting) and `Option`/`Result`.

Loops in the source are methods with loop invariants. Each method is proved equal to a
specification function, and the properties are proved about those functions.

## Model

| member | source | states |
|---|---|---|
| RagPipeline.RetrieveDocuments | backend/services/rag_pipeline.py:79-93 | the loop over the store's `(doc, score)` pairs returns exactly `Retrieved` of them: blank content skipped, score at most the threshold kept, in store order |
| RagPipeline.Retrieved | backend/services/rag_pipeline.py:81-92 | every retrieved fragment has a score within the threshold and content that is not blank after stripping, and there are never more fragments than candidates |
| RagPipeline.RetrievedSnoc | backend/services/rag_pipeline.py:81-92 | one more candidate appends its fragment exactly when it passes both tests, and otherwise changes nothing |
| RagPipeline.RetrievedSkipsBlank | backend/services/rag_pipeline.py:82-83 | no retrieved fragment has content made only of whitespace, whatever its score |
| RagPipeline.RetrievedEmptyBelowAllScores | backend/services/rag_pipeline.py:85 | a threshold below every candidate's score retrieves nothing |
| RagPipeline.RetrievedSubsequence | backend/services/rag_pipeline.py:81-92 | retrieval is an order-preserving subsequence of the candidates: each fragment copies its candidate's content, metadata and score, its page is `metadata["page"]` or 0, and every candidate passing both tests is included |
| RagPipeline.RetrievedMonotone | backend/services/rag_pipeline.py:79-93 | when one candidate list is a prefix of another, the retrieval of the first is a prefix of the retrieval of the second |
| RagPipeline.Context | backend/services/rag_pipeline.py:95-98 | the context block is empty exactly when there are no fragments |
| RagPipeline.ContextSnoc | backend/services/rag_pipeline.py:98 | one more fragment adds a blank-line separator and its `[Source: Page n] content` label at the end |
| RagPipeline.ContextLength | backend/services/rag_pipeline.py:98 | the context consists of the labelled fragments and n - 1 two-character separators, nothing more |
| RagPipeline.TranscriptAppend | backend/services/rag_pipeline.py:109-110 | the text of two runs of turns is the two texts one after the other |
| RagPipeline.SerializeHistory | backend/services/rag_pipeline.py:107-113 | the history text is the stripped concatenation of the turns' `User:`/`Assistant:` lines, and it is empty for a missing or empty history |
| RagPipeline.HistoryKeepsEarlierTurns | backend/services/rag_pipeline.py:107-113 | stripping keeps every earlier turn intact and the newest up to `Assistant:`, then the newest answer with trailing whitespace trimmed (nothing when that answer is blank) |
| RagPipeline.PromptLayout | backend/services/rag_pipeline.py:28-47 | the prompt holds the history, the context and the question verbatim, in that order, between the template's fixed pieces at fixed offsets |
| RagPipeline.GenerateLlmResponse | backend/services/rag_pipeline.py:100-120 | the model is asked the template filled with the stripped history text, the context and the question |
| RagPipeline.GenerateAnswer | backend/services/rag_pipeline.py:57-71 | as written: with a completed reply the answer is the model's text and the sources are exactly the fragments the prompt's context was built from; a model error is returned as a failure |
| RagPipeline.GenerateAnswerRecovering | backend/services/rag_pipeline.py:60-71 | as intended: a model error gives the fallback reply with no sources, and a completion gives the reply with its fragments |
| RagPipeline.ModelErrorPropagates | backend/services/rag_pipeline.py:59-60 | with a model that always raises, the source's answering fails instead of reaching the fallback |
| RagPipeline.ModelErrorRecovered | backend/services/rag_pipeline.py:66-71 | with a model that always raises, the corrected answering gives the fallback reply and no sources |
| Text.TrimStart | backend/services/rag_pipeline.py:82 | the result is a suffix of the input, everything cut off is whitespace, and it does not start with whitespace |
| Text.TrimEnd | backend/services/rag_pipeline.py:113 | the result is a prefix of the input, everything cut off is whitespace, and it does not end with whitespace |
| Text.Strip | backend/services/rag_pipeline.py:82 | the stripped text is no longer than the input and neither starts nor ends with whitespace |
| Text.StripInfix | backend/services/rag_pipeline.py:82 | the stripped text is an infix of the input, and everything before and after it is whitespace |
| Text.StripEmptyIffBlank | backend/services/rag_pipeline.py:82 | `strip()` gives the empty string exactly when the text is all whitespace |
| Text.JoinSnoc | backend/services/rag_pipeline.py:98 | joining one more part appends the separator and the part |
| Text.JoinLength | backend/services/rag_pipeline.py:98 | a join's length is the parts' total length plus one separator between each pair |
| Text.NatToDecimalRoundTrip | backend/services/rag_pipeline.py:98 | the decimal rendering of a page number reads back as that number |
| Seqs.Filter | frontend/components/FileUpload.tsx:47 | a filter keeps only elements of the input that satisfy the condition and is never longer than the input |
| Seqs.FilterAppend | frontend/components/FileUpload.tsx:128-130 | filtering a concatenation filters each part in place |
| Seqs.FilterMembership | frontend/components/FileUpload.tsx:128-130 | an element is in the filtered list exactly when it is in the list and satisfies the condition |
| Seqs.FilterPrefix | backend/services/rag_pipeline.py:81-92 | filtering a prefix gives a prefix of the filtered whole |
| Seqs.PositionsEmbed | backend/services/rag_pipeline.py:81-92 | the filtered list sits in the input at strictly increasing positions |
| Seqs.PositionsCover | backend/services/rag_pipeline.py:81-92 | every position whose element satisfies the condition is among those positions |
| Seqs.FilterSubsequence | backend/services/rag_pipeline.py:81-92 | the filtered list is the input's satisfying elements at increasing positions, and every satisfying position is among them |
| PdfProcessor.ExtractTextFromPdf | backend/services/pdf_processor.py:18-32 | one record per page, in page order, with the page's number, the file name and the page's text, or "" when no text was extracted; this is the list `Records` that `ProcessPdf` chunks |
| PdfProcessor.Chunks | backend/services/pdf_processor.py:42-50 | every chunk is a piece of its own page's text and carries that page's record as metadata |
| PdfProcessor.SplitIntoChunks | backend/services/pdf_processor.py:34-52 | the nested loops return exactly `Chunks`: each page's pieces wrapped with the page record, page after page |
| PdfProcessor.ChunksAppend | backend/services/pdf_processor.py:42-50 | chunking two runs of pages gives the two runs' chunks one after the other |
| PdfProcessor.ChunksSnoc | backend/services/pdf_processor.py:42-50 | one more page appends exactly its own pieces |
| PdfProcessor.ChunksCount | backend/services/pdf_processor.py:42-50 | there is exactly one chunk per piece the splitter makes |
| PdfProcessor.ChunkAt | backend/services/pdf_processor.py:42-50 | piece q of page p is at position (pieces of earlier pages) + q, with its text unchanged and page p's record |
| PdfProcessor.ChunksSkipEmptyPage | backend/services/pdf_processor.py:42-50 | a page the splitter makes nothing of contributes no chunk and leaves the others unchanged |
| PdfProcessor.ProcessPdf | backend/services/pdf_processor.py:54-61 | processing a PDF is chunking its page records |
| FileUpload.ValidateFile | frontend/components/FileUpload.tsx:102-118 | a file is refused exactly when it is 10 MiB or more or not `application/pdf`; a non-PDF gets the type message whatever its size; an over-large PDF gets the size message; an accepted file has no message |
| FileUpload.ValidateFiles | frontend/components/FileUpload.tsx:99-119 | one verdict per chosen file, in order |
| FileUpload.AcceptedFilesArePdfsUnderLimit | frontend/components/FileUpload.tsx:47 | of the verdicts on one batch of chosen files, every entry without an error is one of those files, a PDF under 10 MiB, with no message |
| FileUpload.VerdictsChecked | frontend/components/FileUpload.tsx:102-119 | every entry made by choosing files carries the verdict on its own file |
| FileUpload.SentFilesAccepted | frontend/components/FileUpload.tsx:47 | when every listed entry carries its own file's verdict, the files of the entries without an error are PDFs under 10 MiB |
| FileUpload.CumulativeAccepted | frontend/components/FileUpload.tsx:56-61 | growing forms made of such files, sent after any earlier requests, carry only PDFs under 10 MiB |
| FileUpload.FirstRejected | frontend/components/FileUpload.tsx:59-76 | the first request from a given one on that fails, or the number of requests when none fails: every request before it succeeds |
| FileUpload.SendRequests | frontend/components/FileUpload.tsx:56-76 | the request loop reports a failure exactly when some request fails; the forms sent are the first k growing forms, where k is one past the first failed request, or all of them |
| FileUpload.WithoutName | frontend/components/FileUpload.tsx:126-132 | after a deletion, an entry remains exactly when it was there and its file has a different name |
| FileUpload.WithoutNameAppend | frontend/components/FileUpload.tsx:128-130 | deletion acts on each part of a list independently and keeps the order |
| FileUpload.FileUploadState.constructor | frontend/components/FileUpload.tsx:22-26 | the form starts with no files, no error and no upload in progress, and its invariant (every entry carries its own file's verdict) holds |
| FileUpload.FileUploadState.UploadHandler | frontend/components/FileUpload.tsx:98-124 | choosing files appends their verdicts after the existing entries, keeps the invariant, and the handler returns false |
| FileUpload.FileUploadState.DeleteFile | frontend/components/FileUpload.tsx:126-132 | the list becomes the old list without every entry of the deleted file's name, and the invariant is kept |
| FileUpload.FileUploadState.HandleUpload | frontend/components/FileUpload.tsx:39-80 | with no acceptable entry: the "select a file" error, no request, and nothing else changes. Otherwise, request i carries the first i + 1 acceptable files, and requests stop at the first failure (`FirstRejected`), which shows the failure message. When all succeed, the error is cleared and the parent is told once. Whenever requests were sent, the uploading flag ends false. Every file sent is a PDF under 10 MiB, and the form's invariant is kept |

## Left out

- The vector store (Chroma), its embeddings and its similarity search are a parameter `search`. The call with `retrieval_k` is modelled, but not how the store ranks or how many it returns.
- The Hugging Face endpoint is a parameter `llm` that completes or raises. Its construction (model, temperature, token limit) and logging are left out.
- The prompt template is its four fixed text pieces after `.strip()`. LangChain's `PromptTemplate.format` is not modelled beyond substitution.
- `RecursiveCharacterTextSplitter` is a parameter `split`. Chunk size and overlap, and its algorithm, are not modelled.
- pdfplumber is represented by its pages. Opening the file and text extraction are not modelled.
- The `uuid4` id of each chunk is left out, because it is random and nothing in the modelled code reads it.
- Scores are `real`, not floating point. NaN and rounding are not modelled.
- Metadata values are integers or strings only. Python's rendering of other values in the context label is not modelled.
- A history turn without `user` or `assistant` keys raises `KeyError` in the source. Turns are modelled as records that always have both.
- backend/models/schemas.py (validation of `DocumentSource`) is not part of this model.
- main.py, config.py, the sqlite store and the API routes are not part of this model. The settings are a parameter.
- FileUpload.FileUploadState.HandleUpload: upload progress (`uploadProgress`), console logging and an exception thrown by `onUploadComplete` are not modelled. The axios request is the parameter `accepts`. The requests of one upload are recorded in `posts` together after the request loop, not one at a time, since nothing reads them in between.
- `onUploadError` is declared among the component's props but never called, so it has no counterpart in the model.
- FileUpload.FileUploadState.HandleUpload requires the form's invariant `Valid()`. The constructor sets it up and every handler, this one included, keeps it, as every entry in the source comes from `uploadHandler`.
- React's deferred state updates are modelled as immediate assignments. Drag-and-drop and the input element's reset are UI only.
- The setting is named `similarity_threshold` (backend/config.py:35) and the store's search promises "similarity scores" (backend/services/vector_store.py:33). Yet retrieval keeps a candidate when its score is at most the threshold (backend/services/rag_pipeline.py:85), so the model treats scores as distances, lower being closer. Retrieved fragments are kept as the store returns them, duplicates included.
- The handler at backend/services/rag_pipeline.py:66-71 means to turn a failure into the fallback reply, but it is unreachable. The model follows the code and records the correction under Findings.

## Findings

| source | as written | input that shows it | evidently intended | confidence | as-written member | corrected member |
|---|---|---|---|---|---|---|
| backend/services/rag_pipeline.py:57-71 | the language model is called before the `try`, which encloses only the construction of the result dictionary, so the `except` branch with the fallback reply cannot be reached and a model error propagates to the caller | any question when `llm.invoke` raises (endpoint unreachable, bad token) | a model error yields "Sorry, an error occurred while processing your request." with no sources | medium, not executed | RagPipeline.ModelErrorPropagates | RagPipeline.ModelErrorRecovered |
