# healthchat ingestion and retrieval, in Dafny

A model of the ingestion-and-retrieval pipeline of the healthchat Next.js
application, with proofs of what it promises.

- **Chunking.** `chunkText` (lib/embedding.js) splits a page's text on white
  space. It emits windows of `chunkSize` words, and each window starts
  `chunkSize - overlap` words after the previous one.
- **Lazy singletons.** `generateEmbedding` (lib/embedding.js) and
  `getPineconeClient` (lib/pinecone.js) each build an object on the first
  call and reuse it afterwards.
- **Ingestion.** Two routes build records and upsert them in one batch:
  - POST of app/api/ingesting/route.js skips a chunk whose embedding fails;
  - POST of app/api/upload/route.js aborts the whole request instead.
- **Record ids.** Each record is stored under
  `<name>-page-<page+1>-chunk-<chunk>`, with metadata
  `{text, source, page}`.
- **Chunking preview.** GET of app/api/ingesting/route.js previews the
  chunking of the first three pages.
- **Chat.** POST of app/api/chat/route.js checks its configuration, queries
  the five nearest records and builds the context from their texts. It
  asks the LLM through `askLLM` (lib/llm.js) and reports each match.

Modules follow the source files:

| module | file | models |
|---|---|---|
| `JsText` | `jstext.dfy` | JavaScript string operations the routes use: `\s`, `trim`, `split(/\s+/)` with the empty-word filter, `join`, `substring(0, n) + "..."`, `endsWith` |
| `Decimal` | `decimal.dfy` | `${n}` for a non-negative integer, with its inverse |
| `Config` | `config.dfy` | the environment variables and JavaScript truthiness of their values |
| `Embedding` | `embedding.dfy` | lib/embedding.js |
| `Records` | `records.dfy` | the record ids, records and page filtering the routes share |
| `Pinecone` | `pinecone.dfy` | lib/pinecone.js, and the index as a map from id to record |
| `Llm` | `llm.dfy` | lib/llm.js |
| `Chat` | `chat.dfy` | app/api/chat/route.js |
| `Ingesting` | `ingesting.dfy` | app/api/ingesting/route.js |
| `Upload` | `upload.dfy` | app/api/upload/route.js |

Code that changes state in the source is modelled with methods and classes:

- the `chunkText` loop;
- the routes' page and chunk loops;
- the extraction loops;
- the `embedder` and `pinecone` module variables;
- the index, which `upsert` changes.

Each such method is proved against a function. Code that only computes,
such as the chat handler, `askLLM`'s request and the GET preview, is
modelled with functions. Everything outside the pipeline is a parameter:
text extraction, embedding inference, the index query and the LLM call.
An oracle `string -> Option<Vector>` stands for the embedder; `None` means
it threw or timed out.

**Chunk count.** With the defaults 800/100, a 1600-word text gives 3
chunks, starting at words 0, 700 and 1400, because the loop runs while
`start < words.length` (lib/embedding.js:23). `Embedding.SixteenHundredWords`
states this.

## Model

| member | source | states |
|---|---|---|
| JsText.Trim | lib/embedding.js:25 | the trimmed string is empty exactly when the string is all white space, and otherwise starts and ends with non-white space |
| JsText.TrimSlice | lib/embedding.js:25 | the trimmed string is a middle part of the string with only white space before it and after it |
| JsText.NonBlankIff | lib/embedding.js:25 | the chunk guard `chunk.trim().length > 0` holds exactly when some character is not white space |
| JsText.WordsAreWords | lib/embedding.js:19 | every word of the split is non-empty and contains no white space |
| JsText.WordsSplit | lib/embedding.js:19 | the string is its words, in order, interleaved with white-space gaps; the gaps between words are non-empty, so the words are the maximal runs of non-white space and no character is lost |
| JsText.WordsEmptyIff | lib/embedding.js:19 | a text has no words exactly when it is empty or all white space |
| JsText.WordsOfJoin | lib/embedding.js:19-24 | splitting words joined by single spaces gives the same words back |
| JsText.JoinOfWordsTrimmed | lib/embedding.js:24-25 | words joined by single spaces form a non-empty string that is its own trim |
| JsText.JoinSnoc | app/api/chat/route.js:65 | joining one more string appends the separator and then the string |
| JsText.Preview | app/api/chat/route.js:74 | a preview is the first `n` characters (or all of them) followed by "..." |
| Decimal.DecimalRoundTrip | app/api/ingesting/route.js:141 | reading back the decimal rendering of a number gives the number |
| Decimal.DecimalInjective | app/api/ingesting/route.js:141 | distinct numbers render differently |
| Embedding.ChunkText | lib/embedding.js:17-31 | the loop, which ends only when `overlap < chunkSize`, returns the joined word windows that pass the trim guard |
| Embedding.ChunksAreWindows | lib/embedding.js:19-28 | over the words of a text the guard drops nothing: the chunks are all the windows, joined |
| Embedding.ChunkCount | lib/embedding.js:23-28 | there are ceil(n / (chunkSize - overlap)) chunks for n words |
| Embedding.ChunkAt | lib/embedding.js:24 | chunk k is words `[k*(chunkSize-overlap), min(k*(chunkSize-overlap)+chunkSize, n))` joined by single spaces, and its start lies inside the text |
| Embedding.ChunkWords | lib/embedding.js:24 | splitting chunk k gives back its window, which has between 1 and chunkSize words |
| Embedding.ChunkTrimmed | lib/embedding.js:25 | every chunk is non-empty and its own trim, so the guard never drops one |
| Embedding.ChunksEmptyIff | lib/embedding.js:19-23 | a text yields no chunks exactly when it is empty or all white space |
| Embedding.ChunkOverlap | lib/embedding.js:24-28 | when chunk k is full and another follows, its last `overlap` words are the first `overlap` words of chunk k+1 |
| Embedding.ChunkCoverage | lib/embedding.js:23-28 | word j is word `j % step` of chunk `j / step`, so every word is in some chunk |
| Embedding.LastChunkReachesEnd | lib/embedding.js:23-28 | the last chunk starts inside the text and its window reaches the last word |
| Embedding.EightHundredOneWords | lib/embedding.js:17-28 | with the defaults, 801 words give 2 chunks |
| Embedding.SixteenHundredWords | lib/embedding.js:17-28 | with the defaults, 1600 words give 3 chunks, which start at words 0, 700 and 1400 |
| Embedding.WindowCountIsCeiling | lib/embedding.js:23-28 | the number of loop iterations over n words is ceil(n / step) |
| Embedding.EmbeddingCache.GenerateEmbedding | lib/embedding.js:6-14 | the model is loaded only when none is cached; a loaded model is kept and reused; a failed load leaves the cache empty |
| Records.ParseRecordId | app/api/ingesting/route.js:141 | an id `<name>-page-<p>-chunk-<i>` reads back into exactly `name`, `p` and `i` |
| Records.RecordIdInjective | app/api/ingesting/route.js:141 | distinct (name, page, chunk) triples give distinct ids |
| Records.MakeRecordInjective | app/api/ingesting/route.js:140-148 | a record determines the chunk, its page and index, the source and the vector |
| Records.RecordOrder | app/api/ingesting/route.js:123-156 | records built from chunks in page-then-chunk order are in that order as read from their ids, and have pairwise distinct ids |
| Records.ChunkRefsShape | app/api/ingesting/route.js:123-127 | the nested loops visit exactly the (page, chunk) pairs that exist, with their texts, once each and in page-then-chunk order |
| Records.KeepNonBlankPages | app/api/ingesting/route.js:101-111 | the extraction loop keeps the trimmed pages that are not empty, in order |
| Records.KeptPagesTrimmed | app/api/ingesting/route.js:107-110 | every kept page is non-empty and its own trim |
| Records.KeptPageIndex | app/api/ingesting/route.js:104-141 | a blank page leaves no trace and a non-blank page is kept right after the pages kept before it, so stored page numbers count kept pages |
| Records.BlankPageShiftsNumbering | app/api/ingesting/route.js:104-141 | after a blank first page, the document's second page is stored as page 1 |
| Records.FullTextLength | app/api/ingesting/route.js:36-50 | the accumulated text's length is the sum of the page lengths plus 2 per page |
| Pinecone.ClientCache.GetPineconeClient | lib/pinecone.js:7-19 | with no key it fails with the configuration error, whatever is cached; the first call with a key builds one client with that key; later calls return that same client |
| Pinecone.BatchKeys | app/api/ingesting/route.js:169 | an upserted batch covers exactly the batch's ids |
| Pinecone.UpsertedContents | app/api/ingesting/route.js:169 | after an upsert of records with distinct ids, each record is stored under its id and every other id is unchanged |
| Pinecone.UpsertIdempotent | app/api/ingesting/route.js:169 | upserting the same batch twice is the same as upserting it once, so re-ingestion overwrites |
| Pinecone.VectorIndex.Upsert | app/api/ingesting/route.js:169 | the index becomes the old map overridden by the batch, and one more upsert call is counted |
| Llm.ModelName | lib/llm.js:8 | the model name is `LLM_MODEL`, else `DEEPSEEK_MODEL`, else "deepseek-chat", and never empty |
| Llm.LlmModule.Load | lib/llm.js:6-17 | a client exists exactly when the key is set, and it holds the key and the base URL |
| Llm.Messages | lib/llm.js:26-36 | there are two messages: the system prompt first, then the user turn "Context:\n" + context + "\n\nQuestion: " + question |
| Llm.UserContentDeterminesContext | lib/llm.js:34 | for a fixed question, the user turn determines the context |
| Llm.UserContentDeterminesQuestion | lib/llm.js:34 | for a fixed context, the user turn determines the question |
| Llm.LlmModule.RequestFor | lib/llm.js:25-46 | the request uses the loaded model name, the two messages and temperature 0.2, with a timeout that defaults to 30000 ms |
| Llm.Answer | lib/llm.js:47 | the answer is the first choice's content, or "" when there are no choices or no content |
| Llm.LlmModule.AskLLM | lib/llm.js:19-51 | without a client it fails before any request; otherwise it fails when the call fails and returns the extracted answer when it succeeds |
| Chat.GuardOrder | app/api/chat/route.js:18-44 | a missing Pinecone key or index gives a 500 "Vector store not configured"; only after that is a missing DeepSeek setting reported; either way nothing is called, and otherwise the first call embeds the question |
| Chat.QueryShape | app/api/chat/route.js:44-55 | the only query is the second call; it asks for the 5 nearest records with metadata, for the question's embedding |
| Chat.NoMatchesNoLlm | app/api/chat/route.js:57-63 | with no matches, or no array of matches, the answer is the fixed text and the LLM is never called |
| Chat.AnsweredShape | app/api/chat/route.js:65-86 | an answered request returns the matches as sources, with one summary per match and `totalChunks` equal to their number; the third and last call is to the LLM with the joined texts |
| Chat.ContextSnoc | app/api/chat/route.js:65 | the context is the match texts in order, separated by a blank line |
| Chat.ContextSingle | app/api/chat/route.js:65 | a single match's text is the whole context |
| Chat.ChunkedTextAt | app/api/chat/route.js:68-75 | entry i is numbered i+1 and carries match i's text and length; page and source are the metadata's values when truthy and fall back to "unknown" exactly when falsy; the preview is the first 200 characters plus "...", or "undefined..." without text |
| Ingesting.Post | app/api/ingesting/route.js:75-181 | a missing PDF gives 404 and changes nothing; a missing key gives 500; otherwise no records means the no-content reply and no upsert, and any records are upserted once and reported. With a PDF, the client cache is unchanged without a key, keeps a cached client, and otherwise gets a new client holding the key |
| Ingesting.EmbedPages | app/api/ingesting/route.js:119-156 | the page loop builds exactly the records of the specification function, and `totalChunks` counts them |
| Ingesting.EmbedPage | app/api/ingesting/route.js:125-155 | the chunk loop appends the records of the page's chunks whose embedding succeeds, and counts each |
| Ingesting.EmbeddedMembers | app/api/ingesting/route.js:131-154 | a chunk is embedded exactly when it was visited and its embedding succeeded, so a failure skips that chunk only |
| Ingesting.EmbeddedInOrder | app/api/ingesting/route.js:123-156 | skipping failed chunks keeps the visiting order |
| Ingesting.IngestOrder | app/api/ingesting/route.js:123-156 | the records come in page-then-chunk order, as read from their ids, and their ids are pairwise distinct |
| Ingesting.IngestedChunk | app/api/ingesting/route.js:123-154 | chunk i of kept page p is stored exactly when its embedding succeeds, under `<name>-page-<p+1>-chunk-<i>`, with its embedding and metadata `{text, source, page: p+1}` |
| Ingesting.EmbeddedAppend | app/api/ingesting/route.js:123-156 | the chunks embedded from two runs of chunks are those of the first followed by those of the second |
| Ingesting.Get | app/api/ingesting/route.js:9-67 | a missing PDF gives 404; otherwise the preview is built from the untrimmed pages and the accumulated text |
| Ingesting.PreviewShape | app/api/ingesting/route.js:48-65 | the preview counts all pages and the text length; it covers at most 3 pages, numbers pages and chunks from 1 and reports each page's length, its chunk count and each chunk's length |
| Upload.Post | app/api/upload/route.js:11-169 | local mode: 404 without the bundled PDF, otherwise the outcome for its pages. File mode: 400 without a file, then the extension dispatch, 500 without a key, then the outcome. One upsert exactly when there are records. Whenever the client is requested, the cache is unchanged without a key, keeps a cached client, and otherwise gets a new client holding the key |
| Upload.ExtractPdfPages | app/api/upload/route.js:112-126 | the loop keeps the trimmed non-empty pages and accumulates their texts, each followed by a blank line |
| Upload.EmbedAllPages | app/api/upload/route.js:140-153 | the page loop gives all records of all chunks, or nothing as soon as one embedding fails |
| Upload.EmbedAllChunks | app/api/upload/route.js:143-152 | the chunk loop gives the page's records exactly when every embedding of the page succeeds |
| Upload.AbortsIff | app/api/upload/route.js:140-167 | the request aborts exactly when the embedding of some chunk of some page fails |
| Upload.AllChunksStored | app/api/upload/route.js:141-153 | when nothing fails there is one record per chunk, in page-then-chunk order, with that chunk's embedding |
| Upload.AgreesWithIngesting | app/api/upload/route.js:141-153 | when every embedding succeeds, the upload builds the records the ingesting route would build from the same pages |
| Upload.NoTextNoRecords | app/api/upload/route.js:113-160 | a document without text becomes one empty page, which yields no records, so there is no upsert |
| Upload.Dispatch | app/api/upload/route.js:99-131 | a readable ".pdf" gives its kept pages (or the empty full text), a readable ".docx" one page of raw text, and always at least one page |
| Upload.UnsupportedIff | app/api/upload/route.js:99-134 | a name ending in neither ".pdf" nor ".docx", and only such a name, gets a 400 "Unsupported file format" |

## Left out

- PDF and DOCX text extraction is an input. It uses pdfjs-dist, mammoth, the worker configuration and `fs` reads. The model receives each page's items already joined with " ".
- A failure to parse the bundled PDF (ingesting POST and GET, upload local mode) is not modelled; only its absence is. An uploaded file's parse failure is modelled as `None`.
- Embedding inference (`@xenova/transformers`) is an oracle that may fail. The `Promise.race` 30-second timeout is part of that failure.
- The Pinecone network calls are parameters. `Index(name)` is the `VectorIndex` object handed in, and the index name is not modelled. `query` is a function that returns the matches or fails; its ranking is not modelled.
- The LLM HTTP call is a function `complete` that returns a completion or fails. The `AbortController` timer is the `timeoutMs` the request carries; the abort itself is part of that failure.
- Chat: the `getPineconeClient()` call after the guards is not modelled. The guards have already checked the key, so it returns a client.
- Chat: `request.json()` is not modelled, so the question is a parameter.
- Logging and `Response.json` envelopes are left out, and so are the chat route's `debug` objects.
- Ingesting.Post: of its 500 replies only the missing-key one is modelled, with its message as `details`. A throwing `client.Index(...)` (app/api/ingesting/route.js:117) or `index.upsert(...)` (line 169) is not modelled; the model's upsert always succeeds.
- Upload.Post: a throwing `client.Index(...)` (app/api/upload/route.js:49, 138) or `index.upsert(...)` (lines 77, 162) is not modelled. In the source these give 500 "Error processing local PDF" (lines 80-82) or "Error processing file" (lines 165-167). A failing `file.arrayBuffer()` (line 95, the same 500) and a failing `request.formData()` (line 87, outside the `try`) are not modelled either.
- JsText.Preview, Chat.ChunkedTextAt, Ingesting.PreviewShape and Records.FullTextLength count lengths and cut previews in code points, while JavaScript's `length` and `substring` count UTF-16 code units. For text outside the Basic Multilingual Plane, the source's lengths are larger and a preview may split a surrogate pair. Word splitting, chunks, record ids and the chat context are not affected, because every white-space character is a single code unit.
- Embedding.EmbeddingCache.GenerateEmbedding: each call is atomic. Overlapping first calls, which each await `pipeline(...)` before assigning the cache (lib/embedding.js:9-10), and so may each load a model, are not modelled.
- The routes take the embedder as an oracle and do not thread the `embedder` cache through their calls. `Embedding.EmbeddingCache.GenerateEmbedding` models that cache on its own.
- Embedding.LastChunkReachesEnd: states that the last chunk's window starts inside the text and reaches its last word. It does not restate that chunk's content, which `Embedding.ChunkAt` gives.
