# Retrieval core of a small RAG chatbot, modelled in Dafny

The chatbot has two API routes. The upload route cuts an uploaded text into chunks of 500
UTF-16 code units (modelled as characters), embeds every chunk, and appends chunk and
embedding to two in-memory arrays (`dynamicKB`, `dynamicEmbeddings`). The chat route answers a question in five steps:

1. It loads the static knowledge base once (`kb`).
2. It embeds all of the knowledge base's texts once (`kbEmbeddings`).
3. It embeds the question and scores every cached embedding against it.
4. It sorts the scores in descending order and keeps the top three.
5. It builds a context string and a list of source titles, and passes the context and the
   question to a text generator.

Modules, one per file:

- `Common` (common.dfy): an `Option` type, the `Vector` type, and string concatenation.
- `Upload` (upload.dfy): the chunker is specified by the function `Chunks` (the window
  of `chunkSize` characters, then the chunks of the rest) and implemented by the loop
  `ChunkText`. The class `UploadStore` holds the two module-level arrays. Its
  `Post` method is the upload handler.
- `Retrieval` (retrieval.dfy): the ranking pipeline of the chat handler, written as pure
  functions. Each step has lemmas about it:
  - `Indexed` is the `map` to `{ idx, score }` (app/api/chat/route.js:83-85);
  - `SortByScore` is the stable `sort` (line 86);
  - `Rank` is the `slice(0, 3)` of the sorted list (line 89);
  - `Block` renders one item as `Title: …\nText: …`, and `Join` is `Array.prototype.join`;
    `BuildContext` is the `map`/`join` that builds the context from them (lines 92-95);
  - `SourceTitles` is the `map` that builds the sources (line 120);
  - `Retrieve` chains these steps into a context and a list of sources.

  `SortedIndexed`, `RankTop`, `JoinSeparators`, `ContextShape` and `RetrieveSpec` state
  what these definitions promise.
- `Chat` (chat.dfy): the class `KnowledgeBase` holds the two load-once caches. It has
  `LoadKB`, `EnsureKBEmbeddings` and the handler `Post`. The predicate `Missing` is the
  `!question` test (app/api/chat/route.js:66). The function `Respond` is the part of the
  handler that runs once both caches are filled. The functions `Texts` and `Scores`
  are the definitions of the `map` calls at app/api/chat/route.js:49 and 83-85. The
  `EnsureKBEmbeddings` contract states that the batch call gets the item texts, and
  `SortedIndexed` states what the sort makes of the scores, one per cached embedding.

External calls are parameters, and `None` stands for a call that throws:

- the file read plus JSON parse is an `Option<seq<Item>>`;
- the batch embedder is `seq<string> -> Option<seq<Vector>>`;
- the upload's per-chunk embedder is `string -> EmbedReply`: a reply with an embedding,
  a reply without one, or a call that throws;
- the question's embedder is `string -> Option<Vector>`;
- the similarity is `(Vector, Vector) -> real`;
- the generator is `(question, context) -> Option<string>`.

The chat class has two ghost counters, `fileReads` and `embedderCalls`. They make "no read"
and "no embedder call" statable.

The model follows the code as written, including in these points:

- An uploaded file with empty text is accepted. The answer is 200 with 0 chunks. Only a
  missing file is refused.
- The chat route searches the static knowledge base only. It never reads the uploaded
  chunks.
- The code never checks that the query vector and the corpus vectors have the same
  dimension.
- A failure partway through an upload answers a plain 500, without the number of chunks
  already appended. Those chunks stay appended.
- An embed reply that resolves without an `embedding` still has its chunk pushed onto
  `dynamicKB` (app/api/upload/route.js:39) before reading `res.embedding.values` throws
  (line 40). The answer is 500, and `dynamicKB` is then one entry longer than
  `dynamicEmbeddings`. Every later upload appends to both, so from then on entry k of
  `dynamicEmbeddings` is not the embedding of entry k of `dynamicKB`. The class invariant
  is therefore only that embeddings never outnumber chunks.
- The embedding cache has no single-flight guard.
- If the batch embedder returns more vectors than there are items, the top list can name an
  index with no item. Reading its title then throws, and the answer is 500. `BuildContext`
  models this as `None`.

## Model

| member | source | states |
|---|---|---|
| Upload.ChunkText | app/api/upload/route.js:11-17 | the loop that advances by `chunkSize` returns exactly `Chunks(text, chunkSize)`, and their concatenation is `text` |
| Upload.ChunksConcat | app/api/upload/route.js:13-14 | concatenating the chunks in order gives back the text exactly |
| Upload.ChunksCount | app/api/upload/route.js:11-13 | there are ceil(\|text\| / n) chunks, and none exactly when the text is empty |
| Upload.ChunksShape | app/api/upload/route.js:13-14 | every chunk is non-empty and at most n long; every chunk except the last is exactly n long |
| Upload.ChunkAt | app/api/upload/route.js:13-14 | chunk k is `text.slice(k*n, k*n + n)` with its end clamped to the text's length, and k*n is below the text's length |
| Upload.EmbeddedPrefix | app/api/upload/route.js:34-41 | the number of chunks handled before the first failing embed call: every earlier chunk embeds, and the chunk at that position (if any) does not |
| Upload.Stray | app/api/upload/route.js:35-40 | at most one chunk is pushed without an embedding, and there is one exactly when some chunk's reply lacks an embedding while every earlier chunk was embedded; that chunk is the first one not embedded |
| Upload.UploadStore.constructor | app/api/upload/route.js:7-8 | both arrays start empty, so embeddings do not outnumber chunks |
| Upload.UploadStore.Post | app/api/upload/route.js:19-55 | the answer is 400 exactly when there is no file, and then both arrays are unchanged. Otherwise both arrays grow append-only: `dynamicKB` by the chunks before the first failed embed call, plus that chunk when its reply lacked an embedding; `dynamicEmbeddings` by the embeddings of the earlier chunks, in order. The gap between the two lengths grows by one exactly in the no-embedding case. The answer is 200 with the chunk count when every chunk was embedded, and 500 otherwise |
| Retrieval.Insert | app/api/chat/route.js:86 | inserting into a list adds exactly that one entry (multiset) |
| Retrieval.SortByScore | app/api/chat/route.js:86 | the sorted list is a permutation of its input (multiset) |
| Retrieval.InsertRanked | app/api/chat/route.js:86 | inserting an entry with an index smaller than every index of a ranked list keeps the list ranked (descending score, ties by ascending index) |
| Retrieval.SortRanked | app/api/chat/route.js:86 | sorting a list given in ascending index order gives a ranked list, which is what a stable sort by descending score promises |
| Retrieval.RankedUnique | app/api/chat/route.js:86 | two ranked lists with the same entries are equal, so any stable descending sort gives the same list as this one |
| Retrieval.SortedIndexed | app/api/chat/route.js:83-86 | the sorted `sims` has one entry per embedding; each entry carries the score of its own index; every index 0..n-1 occurs once; scores are non-increasing; equal scores keep ascending index order |
| Retrieval.RankTop | app/api/chat/route.js:89 | `top` is the length-min(3, n) prefix of the sorted list (empty for an empty knowledge base), and each of its entries is ordered before every entry left out |
| Retrieval.JoinSeparators | app/api/chat/route.js:95 | joining m parts gives the first part, then m-1 separators, each followed by the next part in order |
| Retrieval.JoinLength | app/api/chat/route.js:95 | the joined string is as long as its parts plus m-1 separators |
| Retrieval.ContextShape | app/api/chat/route.js:92-95 | the context is the rank-ordered `Title: …\nText: …` blocks separated by `\n\n---\n\n`; it is empty for an empty top list, and it fails exactly when a top index has no item |
| Retrieval.RetrieveSpec | app/api/chat/route.js:83-120 | retrieval fails exactly when a top index has no item, so never when there are at most as many embeddings as items; on success there are min(3, n) sources, parallel to the top list |
| Chat.Respond | app/api/chat/route.js:77-125 | with the caches filled, the handler never answers 400. An answer has min(3, n) sources. An answer comes exactly when the question embeds, the retrieval succeeds and the generator replies. The answer is the generator's reply to the question and the retrieved context, and its sources are the retrieved sources |
| Chat.RespondAnswers | app/api/chat/route.js:83-120 | with one embedding per item, an embedded question and a generator that replies to the retrieved context, the answer's sources are the titles of the top min(3, n) items, in rank order |
| Chat.KnowledgeBase.constructor | app/api/chat/route.js:12-13 | both caches start null and nothing has been read or embedded |
| Chat.KnowledgeBase.LoadKB | app/api/chat/route.js:31-36 | a filled `kb` is returned unchanged without reading the file; otherwise the file is read once and its result is cached (a failed read leaves `kb` null) |
| Chat.KnowledgeBase.EnsureKBEmbeddings | app/api/chat/route.js:41-55 | a filled `kbEmbeddings` is returned with no file read and no embedder call. Otherwise `kb` is loaded if needed and one batch call on the item texts is made. A failing load or call leaves `kbEmbeddings` null, so a later call retries |
| Chat.KnowledgeBase.Post | app/api/chat/route.js:61-134 | the answer is 400 exactly when the question is missing or empty, and then there is no state change, file read or embedder call. Filled caches are never refilled. Otherwise the caches are filled as above, the file is read at most once, and the embedder is called once per batch and once for the question. The answer is `Respond` on the cached values, or 500 when filling a cache failed |

## Left out

- The cosine similarity `cosineSim` (app/api/chat/route.js:18-26) uses floating point, a
  square root and an epsilon. It is the parameter `score`, and scores are reals, so NaN does
  not arise. The comparator `b.score - a.score` is modelled as the order on reals.
- Dimension mismatch between the query vector and the corpus vectors is not modelled. The
  code has no check and no error for it.
- The Gemini SDK calls (`embedContent`, `generateContent`), `fs.readFileSync`/`JSON.parse`,
  `req.json()`, `req.formData()`, `file.text()`, `Response` construction, `console.error`,
  and the error message texts are left out. They are oracles or fixed response kinds.
- The prompt template (app/api/chat/route.js:98-112) is left out. The generator oracle is
  given the question and the context it wraps.
- Upload.ChunkText: the model's characters stand for JavaScript's UTF-16 code units. Text
  outside the Basic Multilingual Plane is chunked here by code point, so chunk counts and
  boundaries differ from the source's (one letter followed by 300 emoji is 601 code units
  and 2 chunks there, 301 characters and 1 chunk here). A boundary that splits a surrogate
  pair cannot be represented.
- Upload.UploadStore.Post: a reply whose `embedding` is present but has no `values` pushes
  `undefined` onto `dynamicEmbeddings` without throwing; that reply is not modelled.
- Upload.UploadStore.Post: the embedder is a function of the chunk text. So two equal chunks
  in one upload get the same reply, and a provider that answers the same text differently
  on two calls is not captured.
- Chat.KnowledgeBase.LoadKB: the parsed knowledge file is assumed to be an array. A JSON
  value that JavaScript treats as false (`null`, `0`, `""`) would leave `kb` unset and be
  re-read on every call; that case is not modelled. The same holds for the shape of the
  batch embedder's result.
- Chat.Missing: the question is modelled as an optional string. JavaScript's `!question`
  also refuses `0` and `false`, and other JSON values such as numbers are not modelled.
  An item's title is likewise an optional string: a JSON `"title": null` renders as
  "Title: null" in the source, while the model renders every absent title as "undefined".
- Knowledge items: an item's text is always present. An absent title is modelled: it shows
  as "undefined" in the context and as null in the sources.
- Concurrency is not modelled. Concurrent first calls to `ensureKBEmbeddings` and concurrent
  uploads are races the code does not guard against.
- The user interface is left out: components/chatWindow.jsx, components/Message.jsx,
  app/page.jsx, app/layout.jsx and app/globals.jsx only present the results.
