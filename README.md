# RAG document pipeline: text cleaning, chunking, JSON extraction and pipeline state

This project models the core of a retrieval-augmented generation (RAG) system and proves properties of the model. The system cleans documents, cuts them into chunks, and embeds the chunks into a vector store. It answers questions from the chunks the store finds. Three parts are modelled:

- **Document processing** (`DocumentProcessor` in `RAG/src/document_processor.py`).
  - `clean_text` is three string rewrites. It collapses whitespace runs to one space, deletes characters outside `\w`, whitespace and the kept punctuation, and strips the ends. These are the pure functions of `TextCleaning`.
  - `chunk_text` splits the cleaned text into sentences and words (`Segmentation`). It then packs the sentences greedily into a buffer, seeding each new buffer with an overlap. A first sentence that is too long is split at word boundaries.
  - `chunk_text` is the method `Chunking.ChunkText`. It keeps the source's loop over sentences and its inner loop over words, and is proved equal to the fold `Chunking.Chunks`; the properties are lemmas about that fold. `ChunkRuns` proves that with no overlap, and a first sentence no longer than `chunk_size`, the chunks are runs of whole sentences.
  - The loop body is the method `Chunking.PackSentence` and the inner word loop is `Chunking.SplitOversizedSentence`. Each is proved against one step of the fold.
- **JSON text extraction** (`extract_text_from_json` and `_extract_from_dict` in `RAG/data/json_loader.py`).
  - JSON is the datatype `JsonLoader.Json`. An object is a sequence of members in the dict's insertion order.
  - The source's loops are methods proved equal to recursive functions.
  - The walk over a list value inside a dict is the separate method `ExtractFromList`.
  - `ExtractPicksSelectedLeaves` gives an independent description as lemmas. The output is exactly the string leaves of the tree whose path the selection rule accepts, in depth-first order.
- **Pipeline state** (`RAGPipeline` in `RAG/src/rag_pipeline.py`).
  - `Pipeline` is a class with the `is_indexed` flag and its three collaborators, which are the embedder, the vector store and the LLM.
  - Each collaborator is a class that only records the requests it receives in a `requests` field. The answers it gives (embeddings, the load result, the search hits, the generated text) are parameters of the pipeline's methods.
  - The chunking loop of `ingest_documents` is the method `ChunkDocuments`. It is proved to equal the in-order flattening `AllChunks` of the per-document chunk lists.

The constants of `RAG/config/config.py` (chunk size 1000, overlap 200, top-k 5, dimension 3072) are in `Config`.

Where the code and the documented design disagree, the model follows the code:

- `clean_text` is not idempotent, because whitespace is collapsed before characters are deleted. `"a @ b"` cleans to `"a  b"`, which cleans to `"a b"`. `CleanNotIdempotent` states this for any two word characters in place of `a` and `b`. Cleaning twice gives what cleaning once gives exactly when the cleaned text has no double space (`CleanIdempotentIff`).
- A chunk can be longer than `chunk_size`.
  - The space that joins a sentence to the buffer is not counted at line 61. `"A. B. C."` with size 4 and overlap 0 gives `["A. B.", "C."]`, whose first chunk has 5 characters (`ShortSentencesChunks`, for any three word characters in place of `A`, `B` and `C`).
  - The proved bound for texts whose sentences all fit is `chunk_size + 1 + max(chunk_overlap, 0)` (`ChunkLengthBound`).
- `chunk_overlap < chunk_size` is never checked. All sizes are plain integers, and every loop runs over a finite list.
- The word split continues with its last piece as the buffer, not with an empty buffer (`FirstSentenceWordSplit`).
- The word split runs only for the first sentence of a document, because the buffer is never empty again after it (`BufferNeverEmptyAfterFirst`). Lines 89-90 cannot be reached; the method has `assert false` there.
- The filter at line 99 never removes a chunk (`DropBlankRemovesNothing`).

Regular expressions have these meanings here:
- `\w` is ASCII letters, digits and `_`.
- `\s`, `str.split()` and `str.strip()` use the characters for which Python's `str.isspace` holds, listed in `TextCleaning.IsSpace`.

## Model

| member | source | states |
|---|---|---|
| TextCleaning.CollapseShape | RAG/src/document_processor.py:30 | after collapsing, the only whitespace is the plain space, no two whitespace characters stand side by side, the result starts with whitespace exactly when the input does, and every other character comes from the input |
| TextCleaning.CollapseAppend | RAG/src/document_processor.py:30 | collapsing two texts that meet at a non-space character is collapsing each and concatenating, so whitespace runs are replaced one by one |
| TextCleaning.CollapseSpaceRun | RAG/src/document_processor.py:30 | a non-empty run of whitespace becomes exactly one plain space |
| TextCleaning.CollapseNoSpace | RAG/src/document_processor.py:30 | a text without whitespace is unchanged |
| TextCleaning.NonSpaceCollapse | RAG/src/document_processor.py:30 | collapsing keeps every non-space character, in order |
| TextCleaning.RemoveDisallowed | RAG/src/document_processor.py:33 | the result holds only word characters, whitespace and the kept punctuation, all taken from the input |
| TextCleaning.RemoveDisallowedAppend | RAG/src/document_processor.py:33 | the deletion works character by character: deleting from two texts one after the other is deleting from each and concatenating |
| TextCleaning.RemoveDisallowedChar | RAG/src/document_processor.py:33 | a single character is kept exactly when it is allowed |
| TextCleaning.RemoveDisallowedCounts | RAG/src/document_processor.py:33 | every allowed character occurs in the result as often as in the input, and every other character not at all |
| TextCleaning.Strip | RAG/src/document_processor.py:36 | the result has no whitespace at either end, is no longer than the input, holds only input characters, and leaves an already trimmed text unchanged |
| TextCleaning.StripSlice | RAG/src/document_processor.py:36 | the result is the slice of the input left after cutting whitespace off both ends: everything before and after the slice is whitespace |
| TextCleaning.StripSingleSpaced | RAG/src/document_processor.py:36 | stripping a text with no two whitespace characters side by side keeps that property |
| TextCleaning.Clean | RAG/src/document_processor.py:19-38 | the cleaned text holds only word characters, whitespace and the kept punctuation, and has no whitespace at either end |
| TextCleaning.KeptCollapse | RAG/src/document_processor.py:30 | collapsing whitespace keeps every allowed non-space character, in order |
| TextCleaning.NonSpaceRemoveDisallowed | RAG/src/document_processor.py:33 | the non-space characters after the deletion are exactly the allowed non-space characters of the input |
| TextCleaning.NonSpaceStrip | RAG/src/document_processor.py:36 | stripping removes only whitespace |
| TextCleaning.CleanShape | RAG/src/document_processor.py:29-38 | the only whitespace left in the cleaned text is the plain space |
| TextCleaning.CleanKeepsContent | RAG/src/document_processor.py:29-38 | the non-space characters of the cleaned text are exactly the allowed non-space characters of the input, in order |
| TextCleaning.CleanEmptyIff | RAG/src/document_processor.py:29-38 | the cleaned text is empty if and only if the input has no allowed non-space character |
| TextCleaning.CollapseSingleSpaced | RAG/src/document_processor.py:30 | a text whose only whitespace is single plain spaces is unchanged by collapsing |
| TextCleaning.RemoveAllAllowed | RAG/src/document_processor.py:33 | a text of allowed characters is unchanged by the deletion |
| TextCleaning.CleanFixesTidy | RAG/src/document_processor.py:19-38 | a trimmed, allowed, single-spaced text cleans to itself |
| TextCleaning.CleanIdempotentWhenSingleSpaced | RAG/src/document_processor.py:30-36 | cleaning twice equals cleaning once when the cleaned text has no double space |
| TextCleaning.CleanIdempotentIff | RAG/src/document_processor.py:30-36 | cleaning twice equals cleaning once if and only if the cleaned text has no two whitespace characters side by side |
| TextCleaning.CleanAllowedSingleSpaced | RAG/src/document_processor.py:30-36 | cleaning a text made only of allowed characters leaves no two whitespace characters side by side |
| TextCleaning.CleanNotIdempotent | RAG/src/document_processor.py:30-36 | for word characters `a` and `b`, `"a @ b"` cleans to `"a  b"` and `"a  b"` cleans to `"a b"`, so cleaning is not idempotent |
| Segmentation.SplitSentences | RAG/src/document_processor.py:54 | the sentence list is never empty; the empty text gives the one sentence `""` (what the cuts are is stated by the rows below) |
| Segmentation.FindBoundary | RAG/src/document_processor.py:54 | the result is the first position at or after the start where whitespace follows `.`, `!` or `?`, or the length when there is none |
| Segmentation.SentencesCutAtEveryBoundary | RAG/src/document_processor.py:54 | no sentence holds a boundary, so the text is cut at every boundary, and every sentence except the last is non-empty and ends with `.`, `!` or `?` |
| Segmentation.SentencesKeepContent | RAG/src/document_processor.py:54 | the sentences joined by spaces have the same non-space characters as the text |
| Segmentation.SentencesTrimmed | RAG/src/document_processor.py:51-54 | every sentence of a non-empty trimmed text is non-empty and trimmed |
| Segmentation.SplitAtFirstBoundary | RAG/src/document_processor.py:54 | a text is cut at its first boundary, and the whitespace after the cut is dropped |
| Segmentation.SplitWithoutBoundary | RAG/src/document_processor.py:54 | a text without a boundary is one sentence |
| Segmentation.SplitWords | RAG/src/document_processor.py:76 | every word is non-empty and holds no whitespace |
| Segmentation.WordsRoundTrip | RAG/src/document_processor.py:76 | the words joined by single spaces are the text with every whitespace run collapsed to one space and both ends stripped |
| Segmentation.WordsKeepContent | RAG/src/document_processor.py:76 | the words joined by spaces have the same non-space characters as the text |
| Segmentation.SomeWord | RAG/src/document_processor.py:76 | a text with a non-space character has at least one word |
| Chunking.ChunkText | RAG/src/document_processor.py:40-101 | the loops compute `Chunks`; the result is empty if and only if the cleaned text is empty; every chunk is non-empty and trimmed |
| Chunking.PackSentence | RAG/src/document_processor.py:59-92 | one turn of the sentence loop computes one step of the fold that defines `Chunks` |
| Chunking.SplitOversizedSentence | RAG/src/document_processor.py:76-88 | the word loop computes the word fold over `sentence.split()` |
| Chunking.ProcessDocument | RAG/src/document_processor.py:103-113 | returns the list `chunk_text` returns, unchanged |
| Chunking.Overlap | RAG/src/document_processor.py:68 | the overlap is the last `min(chunk_overlap, len(buffer))` characters of the buffer |
| Chunking.DropBlank | RAG/src/document_processor.py:99 | keeps exactly the chunks whose strip is non-empty, and keeps the whole list when none is blank |
| Chunking.CleanSentences | RAG/src/document_processor.py:51-54 | an empty cleaned text gives the one sentence `""`; otherwise every sentence is non-empty and trimmed |
| Chunking.WordPackShape | RAG/src/document_processor.py:76-88 | each emitted piece is non-empty, trimmed and at most `chunk_size` long or a single word; so is the last piece, which remains once a word was seen; pieces and last piece joined by spaces are the words joined by spaces |
| Chunking.PackTrimmed | RAG/src/document_processor.py:59-92 | every chunk the sentence loop emits is trimmed |
| Chunking.PackSolid | RAG/src/document_processor.py:59-92 | over non-empty trimmed sentences, the buffer ends in a non-space character and every emitted chunk is non-empty |
| Chunking.ChunksEmptyIff | RAG/src/document_processor.py:50-101 | `chunk_text` returns no chunk if and only if the cleaned text is empty |
| Chunking.ChunksTrimmed | RAG/src/document_processor.py:94-101 | every returned chunk is non-empty and has no whitespace at its ends |
| Chunking.DropBlankRemovesNothing | RAG/src/document_processor.py:94-99 | the blank-chunk filter returns the emitted list unchanged |
| Chunking.FlushSeedsOverlap | RAG/src/document_processor.py:61-71 | on overflow of a non-empty buffer, the stripped buffer is emitted; with a positive overlap the new buffer is the buffer's last `min(chunk_overlap, len)` characters, a space and the sentence; otherwise it is the sentence |
| Chunking.BufferNeverEmptyAfterFirst | RAG/src/document_processor.py:62-90 | after the first sentence the buffer is never empty, unless the cleaned text is empty |
| Chunking.FirstSentenceWordSplit | RAG/src/document_processor.py:72-88 | an oversized first sentence leaves a non-empty buffer and pieces that together are its words in order, each at most `chunk_size` long or a single word |
| Chunking.OversizedSentenceSplit | RAG/src/document_processor.py:72-88 | an oversized sentence packed into an empty state is split into pieces and a buffer that, joined, are its words, each at most `chunk_size` or a single word |
| Chunking.StepOnEmptyBuffer | RAG/src/document_processor.py:72-88 | an oversized sentence on an empty buffer emits the word fold's pieces and keeps its last piece as the buffer |
| Chunking.ChunkLengthBound | RAG/src/document_processor.py:59-96 | when every sentence fits in `chunk_size`, every chunk is at most `chunk_size + 1 + max(chunk_overlap, 0)` long |
| Chunking.PackBound | RAG/src/document_processor.py:59-92 | the same bound for the buffer and every emitted chunk at each point of the sentence loop |
| ChunkRuns.ChunksAreSentenceRuns | RAG/src/document_processor.py:59-96 | with `chunk_overlap <= 0` and a first sentence that fits, the chunks of a text with content are consecutive runs of whole sentences in order, and the chunks joined by spaces equal the sentences joined by spaces |
| ChunkRuns.PackRuns | RAG/src/document_processor.py:59-92 | the loop invariant behind it: the buffer is non-empty and trimmed, and the emitted chunks followed by the buffer cut the sentences seen so far into runs |
| ChunkRuns.NextSentenceRuns | RAG/src/document_processor.py:61-92 | each later sentence either starts a new run after the flushed buffer or extends the buffer's run |
| ChunkRuns.RunsJoin | RAG/src/document_processor.py:94-96 | chunks that cut a sentence list into runs, joined by spaces, equal the sentences joined by spaces |
| ChunkingExamples.SentencesExample | RAG/src/document_processor.py:54 | for word characters `A`, `B` and `C`, the text `"A. B. C."` splits into `["A.", "B.", "C."]` |
| ChunkingExamples.ThreeSentenceExample | RAG/src/document_processor.py:61-96 | three trimmed two-character sentences, packed with size 4 and overlap 0 and filtered, give two chunks: the first two sentences joined (length 5) and the third |
| ChunkingExamples.ShortSentencesChunks | RAG/src/document_processor.py:61-99 | for word characters `A`, `B` and `C`, chunking `"A. B. C."` with size 4 and overlap 0 gives `["A. B.", "C."]`, whose first chunk is one character longer than the size |
| JsonLoader.TextFields | RAG/data/json_loader.py:53-55 | no field list means `content`, `text`, `description`, `body`, `article` and `story`; a given list is used as it is |
| JsonLoader.ExtractTextFromJson | RAG/data/json_loader.py:41-69 | the loop computes `ExtractText` with the defaulted field list |
| JsonLoader.ExtractFromDict | RAG/data/json_loader.py:71-87 | the loop over the members computes the recursive walk `FromDict` |
| JsonLoader.ExtractFromList | RAG/data/json_loader.py:80-85 | the loop over a list value computes `FromList`: objects are walked, strings are kept only under a text field, everything else is dropped |
| JsonLoader.DictPicks | RAG/data/json_loader.py:75-87 | walking an object yields the selected leaves of its members, in order |
| JsonLoader.MemberPicks | RAG/data/json_loader.py:76-85 | a member yields its value's selected leaves under its key: a string only under a text field, an object always walked, a list by the list rule, other values nothing |
| JsonLoader.ListPicks | RAG/data/json_loader.py:80-85 | a list value under a key yields the selected leaves of its elements, in order |
| JsonLoader.ListItemPicks | RAG/data/json_loader.py:82-85 | an element of a list value yields its selected leaves under the key and its index |
| JsonLoader.TopListPicks | RAG/data/json_loader.py:61-66 | a top-level list yields the selected leaves of its elements, in order |
| JsonLoader.TopItemPicks | RAG/data/json_loader.py:62-66 | a top-level element yields its string itself, an object's selected leaves, or nothing |
| JsonLoader.ExtractPicksSelectedLeaves | RAG/data/json_loader.py:41-87 | the extracted list is exactly the string leaves whose path is selected, in depth-first order, one entry per occurrence |
| JsonLoader.ExtractedAreSelectedLeaves | RAG/data/json_loader.py:41-87 | a string is extracted if and only if it is the text of a string leaf whose path is selected |
| JsonLoader.ObjectWithoutFields | RAG/data/json_loader.py:75-85 | with no text fields an object yields nothing |
| JsonLoader.TopListWithoutFields | RAG/data/json_loader.py:61-66 | with no text fields a top-level list yields exactly its direct string elements, in order |
| RagPipeline.Embedder.GenerateEmbeddings | RAG/src/embeddings.py:25-43 | records one request to embed the texts and returns the embedder's answer, which is `None` when the call raises |
| RagPipeline.Embedder.GenerateSingleEmbedding | RAG/src/embeddings.py:45-56 | records one request to embed the question and returns the embedder's answer, which is `None` when the call raises |
| RagPipeline.VectorStore.AddEmbeddings | RAG/src/rag_pipeline.py:56 | records one request to add the embeddings with their texts |
| RagPipeline.VectorStore.SaveIndex | RAG/src/rag_pipeline.py:59 | records one save request |
| RagPipeline.VectorStore.LoadIndex | RAG/src/rag_pipeline.py:81 | records one load request and returns the store's result |
| RagPipeline.VectorStore.Search | RAG/src/rag_pipeline.py:116 | records one search request for the query and `top_k`, and returns the store's texts and scores |
| RagPipeline.Llm.GenerateResponse | RAG/src/rag_pipeline.py:130 | records one request with the question and the context, and returns the model's answer |
| RagPipeline.ChunkDocuments | RAG/src/rag_pipeline.py:38-46 | the loop builds the in-order concatenation of `process_document` over the documents, and the running count equals its length |
| RagPipeline.TotalLengthIsLength | RAG/src/rag_pipeline.py:39-46 | the sum of the per-document chunk counts is the length of the concatenated list |
| RagPipeline.FlattenConcat | RAG/src/rag_pipeline.py:45 | concatenating the lists of two batches of documents is flattening them together |
| RagPipeline.FlattenMembers | RAG/src/rag_pipeline.py:45 | a chunk is in the flattened list if and only if it is in some document's list |
| RagPipeline.FlattenEmptyIff | RAG/src/rag_pipeline.py:45 | the flattened list is empty if and only if every document's list is |
| RagPipeline.PerDocumentConcat | RAG/src/rag_pipeline.py:42-44 | processing two batches of documents one after the other gives the two lists of per-document results one after the other |
| RagPipeline.AllChunksConcat | RAG/src/rag_pipeline.py:42-45 | the chunks of two batches of documents are the chunks of the first batch followed by those of the second |
| RagPipeline.AllChunksMembers | RAG/src/rag_pipeline.py:42-45 | a chunk is ingested if and only if it is a chunk of one of the documents |
| RagPipeline.IngestedChunksTrimmed | RAG/src/rag_pipeline.py:44-45 | every ingested chunk is non-empty and trimmed |
| RagPipeline.AllChunksEmptyIff | RAG/src/rag_pipeline.py:42-45 | no chunk is ingested if and only if every document cleans to the empty text |
| RagPipeline.Pipeline.constructor | RAG/src/rag_pipeline.py:11-24 | fresh collaborators with no requests, `is_indexed` false, and the configured chunk size and overlap |
| RagPipeline.Pipeline.IngestDocuments | RAG/src/rag_pipeline.py:26-71 | asks the embedder for all chunks in order; when it raises, nothing reaches the store, `is_indexed` is unchanged and there is no result; otherwise adds the chunks with the embeddings and saves, sets `is_indexed`, and reports the counts of documents, chunks and embeddings |
| RagPipeline.Pipeline.LoadExistingIndex | RAG/src/rag_pipeline.py:73-87 | returns the store's load result unchanged; `is_indexed` becomes true on success and is otherwise left as it was |
| RagPipeline.Pipeline.Query | RAG/src/rag_pipeline.py:89-140 | unindexed: the "No index available" error with empty context and scores, and no collaborator is asked; indexed: the question is embedded, and when that raises there is no result and neither the store nor the LLM is asked; with no hits: the "No relevant context found" error and no LLM request; otherwise the hits and scores are passed through with their count and the LLM's answer |
| RagPipeline.Pipeline.ResetPipeline | RAG/src/rag_pipeline.py:162-167 | replaces the store with a fresh empty one, keeps the embedder and the LLM, and clears `is_indexed` |

## Left out

- The vector store (`src/vector_store.py`) is not part of this model. It stands in as a collaborator that records requests; its index, distance metric, tie order, persistence and `get_stats` are not modelled, and search and load results are parameters.
- The embedding and LLM calls (`RAG/src/embeddings.py`, `RAG/src/llm.py`) are network calls. They are collaborators that record requests and return answers given as parameters. Prompt formatting is not modelled.
- Embeddings and similarity scores are floating point; they are carried opaquely as `real` values. JSON numbers are modelled as integers, because the walk only tests their kind.
- Console output is not modelled: the progress messages and the chunk statistics of `process_document` (lines 114-125, float averages).
- Environment and `.env` loading in `RAG/config/config.py` is left out; only its four numeric constants are modelled.
- `RAG/main.py` and `RAG/examples/demo.py` are left out: they are a command-line interface and an interactive loop.
- Failures of the vector store are not modelled: `add_embeddings`, `save_index` and `search` always succeed in the model, so the paths where they raise are left out. The `vector_store_stats` entry of the ingestion statistics is left out with the store.
- JSON file I/O (`load_json_data`, `create_sample_json`, `get_json_documents`) is left out, and so is `RAG/data/sample_story.py`, which is static data.
- `get_pipeline_stats` and `test_components` are left out: they only read configuration or call the external services.
- Duplicate JSON object keys are out of scope: a Python dict cannot hold them, and the model keeps the order members are listed in.
- Unicode word characters are not modelled: `\w` is ASCII letters, digits and `_`, so the model deletes non-ASCII letters that the source keeps.
- ChunkRuns.ChunksAreSentenceRuns: the runs part is stated for a text with content; the empty text has the one sentence `""` and no chunk, and for it only the join equation is stated.
