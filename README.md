# documind-ai backend core in Dafny

This project models the document-analysis backend of documind-ai: the path of a user's uploaded document and question.

The steps are:

- **Upload filter** (`FileUpload`). The upload middleware accepts only `.pdf`, `.doc`, `.docx` and `.txt` files, whatever the case of the extension. A file over 10·1024·1024 bytes is refused with a Multer `LIMIT_FILE_SIZE` error. The session always gets an `uploadIds` list.
- **Analyse route** (`AnalyzeRoute`). `POST /api/analyze` checks three things in this order:
  - whether a file was uploaded;
  - whether a query was given;
  - whether the content is within 10 MiB.

  It then runs the analysis and deletes the upload. A thrown error is classified by substrings of its message into 413, 429 or 500.
- **Chunker** (`Chunker`, for `splitIntoChunks`). The regex `/[^.!?]+[.!?]+/g` cuts the document into sentences. The sentences are packed greedily into chunks of about 500 characters.
- **Analysis service** (`AiService`, for `analyzeDocument`):
  1. Look up the (document, query) pair in the cache.
  2. On a miss, ask the language model about each chunk.
  3. Fold every ten answers, and the remainder, into a summary.
  4. Fold those summaries into one final answer, cache it and return it.

  Any failure is rethrown with the prefix `Failed to analyze document: `.
- **Cache** (`CacheService`). An in-memory `Map`, modelled as a class whose `entries` field the methods update in place.
- **Error handler** (`ErrorHandler`). The global Express error handler: a Multer file-size error gives 400; everything else gives 500 with the error's message.

The two language-model requests are function parameters, and so is the base64 encoding used for the cache key. The analysis method returns the trace of requests it made. This lets the model state how many requests there are, in which order, and over which batches. The file system reads and deletes are also parameters, returning `Result` values.

`Prelude` holds the shared `Option`, `Result`, `AppError` and `Response` types. `Text` holds the JavaScript string built-ins the core relies on:

- `trim`, with the ECMAScript white-space set
- `includes`
- ASCII `toLowerCase`

## Model

| member | source | states |
|---|---|---|
| Chunker.Sentences | backend/services/aiService.js:21 | The matches of `/[^.!?]+[.!?]+/g`, in order, are the text with its leading terminal characters and its terminal-free tail removed; each match is a run of non-terminal characters followed by a run of terminal ones. Text after the last `.`, `!` or `?` is never matched. |
| Chunker.SplitIntoChunks | backend/services/aiService.js:18-36 | The loop that pushes the trimmed buffer whenever the next sentence would overflow it returns exactly the chunks of the greedy packing of the matched sentences. |
| Chunker.GroupsAreGreedy | backend/services/aiService.js:23-33 | The chunk groups hold every matched sentence exactly once, in order. Within a group every later sentence fitted, counting the space after each earlier one. A new group starts only when the next sentence did not fit. Only the first group can be empty, and it is empty exactly when the first sentence alone exceeds `maxChars`. |
| Chunker.ChunkShape | backend/services/aiService.js:24-33 | Every chunk is trimmed. A chunk of two or more sentences is at most `maxChars` long. A longer non-empty chunk is a single trimmed sentence. The only possible empty chunk is the first, and it occurs exactly when the first sentence exceeds `maxChars`. |
| Chunker.OversizedFirstSentence | backend/services/aiService.js:24-28 | When the first sentence alone exceeds `maxChars`, the first chunk is `""` and the second is that sentence, trimmed. |
| Chunker.OversizedFirstGroup | backend/services/aiService.js:24-28 | The same at the level of groups: an empty first group, then a group holding only the oversized sentence. |
| Chunker.NoTerminalNoChunks | backend/services/aiService.js:21-35 | Text with no `.`, `!` or `?` (the empty text included) yields no sentences and no chunks. |
| Text.TrimAppendSpace | backend/services/aiService.js:28-32 | The space appended after each sentence disappears when the buffer is trimmed. |
| CacheService.Cache.constructor | backend/services/cacheService.js:3 | The cache starts empty. |
| CacheService.Cache.Get | backend/services/cacheService.js:5-7 | `getCachedValue` yields a value exactly when the key is present and its value is non-empty, and that value is the stored one. A falsy stored value reads back as nothing. The function `Lookup` names this reading, and the other members state their facts through it. |
| CacheService.Cache.Set | backend/services/cacheService.js:9-11 | `setCachedValue` overwrites the key's entry and nothing else. Afterwards the key reads back as the value, or as nothing when the value is empty. Every other key reads as before. |
| CacheService.CacheLaws | backend/services/cacheService.js:5-11 | A key never set reads as nothing. A set value reads back when non-empty. A set leaves other keys alone. The later of two sets on one key wins. |
| AiService.CacheKey | backend/services/aiService.js:83 | The key is `analysis:`, then the first 20 characters of the encoding (all of it when shorter), then `:`, then the query; its length is 10 plus those two lengths. |
| AiService.CacheKeySeparatesQueries | backend/services/aiService.js:83 | The same document with two different queries gets two different cache keys. |
| AiService.CacheKeyUsesPrefix | backend/services/aiService.js:83 | Only the first 20 characters of the base64 encoding enter the key. Two documents whose encodings share them share the key for every query. |
| AiService.BatchesShape | backend/services/aiService.js:97-107 | The analyses are batched in chunk order, each chunk once. There are ceil(N/10) batches, all of ten except the last, which is non-empty. |
| AiService.PlanRequests | backend/services/aiService.js:97-110 | With no failure, every chunk is analysed once, in order. There are ceil(N/10) batch summaries, each over its batch's analyses, and then exactly one final summary over the batch summaries, as the last request. |
| AiService.NoChunksPlan | backend/services/aiService.js:97-110 | A document without chunks gets exactly one request, a summary over the empty list. |
| AiService.TwentyFiveChunks | backend/services/aiService.js:102-110 | 25 chunks give summaries over 10, 10 and 5 analyses, then one over the 3 batch summaries. |
| AiService.RunPlan | backend/services/aiService.js:93-110 | The loop makes the planned requests up to and including the first one that fails. Every earlier request succeeded. The result is the answer to the last request made. Without a failure the whole plan is carried out. |
| AiService.AnalyzeDocument | backend/services/aiService.js:82-119 | A cache hit returns the cached value, makes no request and leaves the cache unchanged. On a miss the requests are a non-empty prefix of the plan for the document's chunks, and all but the last succeeded. On success the final summary is returned and stored under the key. On failure the error is the prefix plus the failing request's message, and the cache is unchanged. |
| AiService.AnalyzeTwice | backend/services/aiService.js:87-112 | After a successful, non-empty analysis, repeating it returns the same result without any request. An empty result is not served from the cache. |
| AnalyzeRoute.Handle | backend/routes/analyze.js:8-59 | The status is one of 200, 400, 413, 429 and 500. It is 200 exactly when a file and a non-empty query were given, the file was read, its content is within the limit, the analysis succeeded and the upload was deleted. The 200 body carries the analysis. |
| AnalyzeRoute.MissingFile | backend/routes/analyze.js:10-12 | Without a file the answer is 400 "No file uploaded", whatever the query and without touching the file system. |
| AnalyzeRoute.MissingQuery | backend/routes/analyze.js:14-17 | With a file but a missing or empty query the answer is 400 "No query provided", before the file is read. |
| AnalyzeRoute.OversizedNeverAnalysed | backend/routes/analyze.js:22-31 | Content over 10·1024·1024 characters gives 413 with the fixed message, and the response does not depend on the analysis or the delete. |
| AnalyzeRoute.ErrorResponse | backend/routes/analyze.js:40-58 | A message containing "context length" or "tokens" gives 413. Otherwise one containing "rate limit" gives 429. Anything else gives 500. Each status has its fixed message, so every error gets exactly one of the three. |
| AnalyzeRoute.WrappedErrorKeepsStatus | backend/routes/analyze.js:42-57 | The prefix the analysis service puts on its errors changes no classification, not even by a match that straddles its end. |
| AnalyzeRoute.AnalysisFailureStatus | backend/routes/analyze.js:34-58 | A failed analysis reaches the client with the status of the underlying error. |
| FileUpload.FileFilter | backend/middleware/fileUpload.js:25-37 | Every verdict is either an acceptance or a rejection with the fixed "Invalid file type" message. |
| FileUpload.FileFilterAccepts | backend/middleware/fileUpload.js:26-30 | A file is accepted exactly when the last component of its name ends, ignoring case, in one of `.pdf`, `.doc`, `.docx` and `.txt`, with at least one character before it. |
| FileUpload.FileFilterIgnoresCase | backend/middleware/fileUpload.js:27 | Lower-casing the file name never changes the verdict. |
| FileUpload.UpperCaseAccepted | backend/middleware/fileUpload.js:27-29 | "Report.PDF" is accepted. |
| FileUpload.HiddenFileRejected | backend/middleware/fileUpload.js:27-35 | ".pdf" has no extension for `path.extname` and is rejected. |
| FileUpload.LastExtensionCounts | backend/middleware/fileUpload.js:27-35 | "notes.pdf.exe" is rejected: only the last extension counts. |
| FileUpload.NoDotRejected | backend/middleware/fileUpload.js:27-35 | A name without a dot or a slash has no extension and is rejected with the fixed message. |
| FileUpload.NoExtensionRejected | backend/middleware/fileUpload.js:27-35 | "readme" is rejected. |
| FileUpload.UploadError | backend/middleware/fileUpload.js:22-38 | An upload passes exactly when the filter accepts it and it is at most 10·1024·1024 bytes. The filter's rejection is reported first. An accepted file over the limit gets a Multer `LIMIT_FILE_SIZE` error. |
| FileUpload.AssociateUploadsWithSession | backend/middleware/fileUpload.js:16-19 | Afterwards the session has an upload list. An existing list is left unchanged, and an absent one becomes empty. Nothing else in the session changes. |
| FileUpload.AssociateIdempotent | backend/middleware/fileUpload.js:16-19 | Running the middleware twice is the same as running it once. |
| ErrorHandler.HandleError | backend/middleware/errorHandler.js:4-14 | The status is 400 exactly for a Multer error with code `LIMIT_FILE_SIZE`, with the fixed "File size is too large" message. Every other error gets 500 with its own message, or "Something went wrong!" when that is empty. |
| ErrorHandler.OtherMulterErrors | backend/middleware/errorHandler.js:6-13 | A Multer error with any other code falls through to 500 with its message. |
| ErrorHandler.MissingMessage | backend/middleware/errorHandler.js:13 | An error with a missing or empty message gives 500 "Something went wrong!". |
| ErrorHandler.UploadErrorResponse | backend/middleware/errorHandler.js:6-13 | If the `upload` middleware of backend/middleware/fileUpload.js is the one in front of the route, a file of the wrong type is answered with 500 and the "Invalid file type" message, and an accepted file over the size limit with 400. |

## Left out

- The OpenAI client and the text of its completions (`analyzeChunk`, `summarizeAnalyses`): these are network calls. They are modelled as arbitrary functions from their arguments to a reply or an error.
- Base64 encoding of the document: a function parameter. Only the 20-character slice and the key layout are modelled.
- Asynchrony and concurrent requests sharing the cache: the model runs one request at a time, so interleavings between requests on the cache are not captured.
- Console logging in every file: it has no effect on results.
- `fs.readFile`, `fs.unlink` and `path.join` in the route: parameters returning `Result` values. The upload is named by an opaque string.
- ErrorHandler.UploadErrorResponse assumes that the `upload` instance exported by backend/middleware/fileUpload.js is the middleware mounted in front of the analyse route. backend/server.js:14,32 instead mounts `createUploadMiddleware().single('file')`, a name that file does not export, so the server as written fails at startup. That wiring is not part of this model.
- Under the same assumption, the memory storage the upload middleware configures gives no `req.file.path`, so `path.join` throws on the undefined path before any read. The model covers this as an `Err` from the `readFile` parameter of AnalyzeRoute.Handle.
- Multer internals beyond the order of the checks (filter first, then the size limit) and the Express request and response objects.
- `setupUploadDirectory` and `initializeRedisClient`: directory creation and a log line only.
- The server wiring, the wake-up and database-ping routes, the process utilities and the whole frontend: I/O and framework plumbing with no logic to state.
- A query that is not a string, and a thrown value without a `message` in the route's `catch` block: the model takes the query as an optional string and every error as carrying a message.
- Cache values that are not strings: the service only stores strings.
- Chunker.SplitIntoChunks: string lengths are counted in characters, not in the UTF-16 code units JavaScript counts, so chunk sizes agree only for text without astral characters.
- AnalyzeRoute.Handle: the 10 MiB content test counts characters, not UTF-16 code units.
- FileUpload.FileFilter: `toLowerCase` is modelled for ASCII letters only. A name is judged differently only if JavaScript lower-cases a non-ASCII character in its extension into one of the letters of the allowed types, and no character other than the ASCII capitals does that for these letters.
- FileUpload.Extname: only the POSIX form of `path.extname` is modelled, which is the form used on the server's platform.
