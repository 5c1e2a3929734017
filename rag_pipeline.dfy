/** RAGPipeline: the orchestration of chunking, embedding, indexing and
    answering, with the `is_indexed` flag that guards queries. The embedder,
    the vector store and the language model are outside this model: each is
    a class that records the requests it receives, and what it answers is
    handed in by the caller of the pipeline method. */
module RagPipeline {
  import opened Common
  import opened TextCleaning
  import opened Chunking
  import Config

  /** An embedding vector; its entries are floating-point numbers in the
      system and are only carried around here. */
  type Vector = seq<real>

  datatype EmbedRequest =
    | EmbedTexts(texts: seq<string>)
    | EmbedQuery(text: string)

  datatype StoreRequest =
    | AddTexts(embeddings: seq<Vector>, texts: seq<string>)
    | Save
    | Load
    | SearchFor(query: Vector, topK: int)

  datatype LlmRequest = Generate(question: string, context: seq<string>)

  /** EmbeddingGenerator, seen from the pipeline. */
  class Embedder {
    var requests: seq<EmbedRequest>

    constructor()
      ensures requests == []
    {
      requests := [];
    }

    /** `generate_embeddings(texts)`; `answer` is what the service returns,
        `None` when the call raises (the error is re-raised to the caller). */
    method GenerateEmbeddings(texts: seq<string>, answer: Option<seq<Vector>>) returns (embeddings: Option<seq<Vector>>)
      modifies this
      ensures embeddings == answer
      ensures requests == old(requests) + [EmbedTexts(texts)]
    {
      requests := requests + [EmbedTexts(texts)];
      embeddings := answer;
    }

    /** `generate_single_embedding(text)`; `None` when the call raises. */
    method GenerateSingleEmbedding(text: string, answer: Option<Vector>) returns (embedding: Option<Vector>)
      modifies this
      ensures embedding == answer
      ensures requests == old(requests) + [EmbedQuery(text)]
    {
      requests := requests + [EmbedQuery(text)];
      embedding := answer;
    }
  }

  /** FAISSVectorStore, seen from the pipeline. */
  class VectorStore {
    var requests: seq<StoreRequest>

    /** A new, empty store. */
    constructor()
      ensures requests == []
    {
      requests := [];
    }

    method AddEmbeddings(embeddings: seq<Vector>, texts: seq<string>)
      modifies this
      ensures requests == old(requests) + [AddTexts(embeddings, texts)]
    {
      requests := requests + [AddTexts(embeddings, texts)];
    }

    method SaveIndex()
      modifies this
      ensures requests == old(requests) + [Save]
    {
      requests := requests + [Save];
    }

    /** `load_index()`; `found` says whether an index was on disk. */
    method LoadIndex(found: bool) returns (success: bool)
      modifies this
      ensures success == found
      ensures requests == old(requests) + [Load]
    {
      requests := requests + [Load];
      success := found;
    }

    /** `search(query, top_k)`; `texts` and `scores` are what the index
        returns. */
    method Search(query: Vector, topK: int, texts: seq<string>, scores: seq<real>)
      returns (similarTexts: seq<string>, similarityScores: seq<real>)
      modifies this
      ensures similarTexts == texts && similarityScores == scores
      ensures requests == old(requests) + [SearchFor(query, topK)]
    {
      requests := requests + [SearchFor(query, topK)];
      similarTexts, similarityScores := texts, scores;
    }
  }

  /** GeminiLLM, seen from the pipeline. */
  class Llm {
    var requests: seq<LlmRequest>

    constructor()
      ensures requests == []
    {
      requests := [];
    }

    /** `generate_response(question, context)`; `answer` is the model's
        text. */
    method GenerateResponse(question: string, context: seq<string>, answer: string) returns (response: string)
      modifies this
      ensures response == answer
      ensures requests == old(requests) + [Generate(question, context)]
    {
      requests := requests + [Generate(question, context)];
      response := answer;
    }
  }

  /** The statistics `ingest_documents` returns (the store's own statistics
      are not part of this model). */
  datatype IngestStats = IngestStats(totalDocuments: nat, totalChunks: nat, totalEmbeddings: nat)

  /** The dictionary `query` returns; `error` and `numContextChunks` are the
      keys that only some answers carry. */
  datatype QueryResult = QueryResult(
    response: string,
    context: seq<string>,
    similarityScores: seq<real>,
    error: Option<string>,
    numContextChunks: Option<nat>)

  const NotIndexedResponse: string := "Error: No documents have been indexed yet. Please ingest documents first."
  const NotIndexedError: string := "No index available"
  const NoContextResponse: string := "I couldn't find any relevant information to answer your question."
  const NoContextError: string := "No relevant context found"

  // ---------------------------------------------------------------------
  // What ingestion computes

  /** The lists of `xss`, one after the other (`list.extend` in a loop). */
  function Flatten(xss: seq<seq<string>>): seq<string>
  {
    if xss == [] then [] else Flatten(xss[..|xss| - 1]) + xss[|xss| - 1]
  }

  /** The sum of the lengths of the lists of `xss`. */
  function TotalLength(xss: seq<seq<string>>): nat
  {
    if xss == [] then 0 else TotalLength(xss[..|xss| - 1]) + |xss[|xss| - 1]|
  }

  lemma FlattenSnoc(xss: seq<seq<string>>, i: nat)
    requires i < |xss|
    ensures Flatten(xss[..i + 1]) == Flatten(xss[..i]) + xss[i]
    ensures TotalLength(xss[..i + 1]) == TotalLength(xss[..i]) + |xss[i]|
  {
    assert xss[..i + 1][..i] == xss[..i];
  }

  lemma {:induction false} TotalLengthIsLength(xss: seq<seq<string>>)
    ensures TotalLength(xss) == |Flatten(xss)|
    decreases |xss|
  {
    if xss != [] {
      TotalLengthIsLength(xss[..|xss| - 1]);
    }
  }

  lemma {:induction false} FlattenConcat(a: seq<seq<string>>, b: seq<seq<string>>)
    ensures Flatten(a + b) == Flatten(a) + Flatten(b)
    decreases |b|
  {
    if b == [] {
      assert a + b == a;
    } else {
      var b' := b[..|b| - 1];
      assert (a + b)[..|a + b| - 1] == a + b';
      FlattenConcat(a, b');
    }
  }

  lemma {:induction false} FlattenMembers(xss: seq<seq<string>>)
    ensures forall c :: c in Flatten(xss) <==> exists i :: 0 <= i < |xss| && c in xss[i]
    decreases |xss|
  {
    if xss != [] {
      FlattenMembers(xss[..|xss| - 1]);
    }
  }

  lemma {:induction false} FlattenEmptyIff(xss: seq<seq<string>>)
    ensures Flatten(xss) == [] <==> forall i :: 0 <= i < |xss| ==> xss[i] == []
    decreases |xss|
  {
    if xss != [] {
      FlattenEmptyIff(xss[..|xss| - 1]);
    }
  }

  /** What `chunk` makes of each document. */
  function PerDocument(documents: seq<string>, chunk: string -> seq<string>): (r: seq<seq<string>>)
    ensures |r| == |documents|
  {
    if documents == [] then []
    else PerDocument(documents[..|documents| - 1], chunk) + [chunk(documents[|documents| - 1])]
  }

  lemma {:induction false} PerDocumentAt(documents: seq<string>, chunk: string -> seq<string>, i: nat)
    requires i < |documents|
    ensures PerDocument(documents, chunk)[i] == chunk(documents[i])
    decreases |documents|
  {
    if i < |documents| - 1 {
      PerDocumentAt(documents[..|documents| - 1], chunk, i);
    }
  }

  lemma {:induction false} PerDocumentConcat(a: seq<string>, b: seq<string>, chunk: string -> seq<string>)
    ensures PerDocument(a + b, chunk) == PerDocument(a, chunk) + PerDocument(b, chunk)
    decreases |b|
  {
    if b == [] {
      assert a + b == a;
    } else {
      var b' := b[..|b| - 1];
      assert (a + b)[..|a + b| - 1] == a + b';
      PerDocumentConcat(a, b', chunk);
    }
  }

  /** `process_document` of a DocumentProcessor with these settings. */
  function Processor(chunkSize: int, chunkOverlap: int): string -> seq<string>
  {
    d => Chunks(d, chunkSize, chunkOverlap)
  }

  /** The chunks of all documents, document after document. */
  function AllChunks(documents: seq<string>, chunkSize: int, chunkOverlap: int): seq<string>
  {
    Flatten(PerDocument(documents, Processor(chunkSize, chunkOverlap)))
  }

  /** Ingesting two batches gives the chunks of the first, then those of the
      second. */
  lemma AllChunksConcat(a: seq<string>, b: seq<string>, chunkSize: int, chunkOverlap: int)
    ensures AllChunks(a + b, chunkSize, chunkOverlap) == AllChunks(a, chunkSize, chunkOverlap) + AllChunks(b, chunkSize, chunkOverlap)
  {
    var chunk := Processor(chunkSize, chunkOverlap);
    PerDocumentConcat(a, b, chunk);
    FlattenConcat(PerDocument(a, chunk), PerDocument(b, chunk));
  }

  /** A chunk is ingested exactly when it is a chunk of one of the
      documents. */
  lemma AllChunksMembers(documents: seq<string>, chunkSize: int, chunkOverlap: int)
    ensures forall c :: c in AllChunks(documents, chunkSize, chunkOverlap) <==>
              exists d :: d in documents && c in Chunks(d, chunkSize, chunkOverlap)
  {
    var per := PerDocument(documents, Processor(chunkSize, chunkOverlap));
    FlattenMembers(per);
    forall c | c in Flatten(per) ensures exists d :: d in documents && c in Chunks(d, chunkSize, chunkOverlap) {
      var i :| 0 <= i < |per| && c in per[i];
      PerDocumentAt(documents, Processor(chunkSize, chunkOverlap), i);
      assert documents[i] in documents;
    }
    forall c, d | d in documents && c in Chunks(d, chunkSize, chunkOverlap) ensures c in Flatten(per) {
      var i :| 0 <= i < |documents| && documents[i] == d;
      PerDocumentAt(documents, Processor(chunkSize, chunkOverlap), i);
      assert c in per[i];
    }
  }

  /** Every ingested chunk is non-empty with no whitespace at its ends. */
  lemma IngestedChunksTrimmed(documents: seq<string>, chunkSize: int, chunkOverlap: int)
    ensures forall c :: c in AllChunks(documents, chunkSize, chunkOverlap) ==> c != [] && Trimmed(c)
  {
    AllChunksMembers(documents, chunkSize, chunkOverlap);
    forall d | d in documents {
      ChunksTrimmed(d, chunkSize, chunkOverlap);
    }
  }

  /** Nothing is ingested exactly when every document is blank after
      cleaning. */
  lemma AllChunksEmptyIff(documents: seq<string>, chunkSize: int, chunkOverlap: int)
    ensures AllChunks(documents, chunkSize, chunkOverlap) == [] <==> forall d :: d in documents ==> Clean(d) == []
  {
    var per := PerDocument(documents, Processor(chunkSize, chunkOverlap));
    FlattenEmptyIff(per);
    forall i | 0 <= i < |documents| ensures per[i] == [] <==> Clean(documents[i]) == [] {
      PerDocumentAt(documents, Processor(chunkSize, chunkOverlap), i);
      ChunksEmptyIff(documents[i], chunkSize, chunkOverlap);
    }
  }

  /** The loop of `ingest_documents` that chunks every document: it
      extends `all_chunks` with each document's chunks and adds their number
      to `total_chunks`. */
  method ChunkDocuments(documents: seq<string>, chunkSize: int, chunkOverlap: int)
    returns (allChunks: seq<string>, totalChunks: nat)
    ensures allChunks == AllChunks(documents, chunkSize, chunkOverlap)
    ensures totalChunks == |allChunks|
  {
    allChunks := [];
    totalChunks := 0;
    ghost var per := PerDocument(documents, Processor(chunkSize, chunkOverlap));
    for i := 0 to |documents|
      invariant allChunks == Flatten(per[..i])
      invariant totalChunks == TotalLength(per[..i])
    {
      var chunks := ProcessDocument(documents[i], chunkSize, chunkOverlap);
      assert per[i] == chunks by {
        PerDocumentAt(documents, Processor(chunkSize, chunkOverlap), i);
      }
      FlattenSnoc(per, i);
      allChunks := allChunks + chunks;
      totalChunks := totalChunks + |chunks|;
    }
    assert per[..|documents|] == per;
    TotalLengthIsLength(per);
  }

  // ---------------------------------------------------------------------
  // The pipeline

  class Pipeline {
    var embedder: Embedder
    var store: VectorStore
    var llm: Llm
    var isIndexed: bool
    /** The settings of the pipeline's DocumentProcessor. */
    const chunkSize: int
    const chunkOverlap: int

    /** A pipeline with new collaborators and no index. */
    constructor()
      ensures fresh(embedder) && fresh(store) && fresh(llm)
      ensures embedder.requests == [] && store.requests == [] && llm.requests == []
      ensures !isIndexed
      ensures chunkSize == Config.ChunkSize && chunkOverlap == Config.ChunkOverlap
    {
      chunkSize := Config.ChunkSize;
      chunkOverlap := Config.ChunkOverlap;
      embedder := new Embedder();
      store := new VectorStore();
      llm := new Llm();
      isIndexed := false;
    }

    /** `ingest_documents(documents)`: chunks every document, embeds all
        chunks in one request, adds them to the store, saves it and marks
        the pipeline indexed. `embeddings` is the embedder's answer; when
        the embedder raises (`None`), the error propagates: nothing reaches
        the store, `is_indexed` is left as it was and no statistics are
        returned (`None`). */
    method IngestDocuments(documents: seq<string>, embeddings: Option<seq<Vector>>) returns (stats: Option<IngestStats>)
      modifies this, embedder, store
      ensures embedder == old(embedder) && store == old(store) && llm == old(llm)
      ensures embedder.requests == old(embedder.requests) + [EmbedTexts(AllChunks(documents, chunkSize, chunkOverlap))]
      ensures embeddings.None? ==>
                && stats == None
                && store.requests == old(store.requests)
                && isIndexed == old(isIndexed)
      ensures embeddings.Some? ==>
                && store.requests == old(store.requests) + [AddTexts(embeddings.value, AllChunks(documents, chunkSize, chunkOverlap)), Save]
                && isIndexed
                && stats == Some(IngestStats(|documents|, |AllChunks(documents, chunkSize, chunkOverlap)|, |embeddings.value|))
    {
      var allChunks, totalChunks := ChunkDocuments(documents, chunkSize, chunkOverlap);
      var vectors := embedder.GenerateEmbeddings(allChunks, embeddings);
      match vectors
      case None =>
        stats := None;
      case Some(v) =>
        store.AddEmbeddings(v, allChunks);
        store.SaveIndex();
        isIndexed := true;
        stats := Some(IngestStats(|documents|, totalChunks, |v|));
    }

    /** `load_existing_index()`: reports the store's answer unchanged and
        marks the pipeline indexed only when loading succeeded; a failed
        load leaves the flag as it was. */
    method LoadExistingIndex(found: bool) returns (success: bool)
      modifies this, store
      ensures embedder == old(embedder) && store == old(store) && llm == old(llm)
      ensures store.requests == old(store.requests) + [Load]
      ensures success == found
      ensures isIndexed == (old(isIndexed) || success)
    {
      success := store.LoadIndex(found);
      if success {
        isIndexed := true;
      }
    }

    /** `query(question, top_k)`. Without an index no collaborator is asked
        anything; with one, the question is embedded and searched, and the
        language model is asked only when the search found some context.
        `queryEmbedding`, `foundTexts`, `foundScores` and `answer` are the
        collaborators' answers. When embedding the question raises
        (`queryEmbedding` is `None`), the error propagates and there is no
        result (`None`); the language model catches its own errors and
        answers with a message, so `answer` covers that case. */
    method Query(question: string, queryEmbedding: Option<Vector>, foundTexts: seq<string>, foundScores: seq<real>,
                 answer: string, topK: int := Config.TopKResults)
      returns (result: Option<QueryResult>)
      modifies embedder, store, llm
      ensures !isIndexed ==>
                && result == Some(QueryResult(NotIndexedResponse, [], [], Some(NotIndexedError), None))
                && embedder.requests == old(embedder.requests)
                && store.requests == old(store.requests)
                && llm.requests == old(llm.requests)
      ensures isIndexed ==> embedder.requests == old(embedder.requests) + [EmbedQuery(question)]
      ensures isIndexed && queryEmbedding.None? ==>
                && result == None
                && store.requests == old(store.requests)
                && llm.requests == old(llm.requests)
      ensures isIndexed && queryEmbedding.Some? ==>
                store.requests == old(store.requests) + [SearchFor(queryEmbedding.value, topK)]
      ensures isIndexed && queryEmbedding.Some? && foundTexts == [] ==>
                && result == Some(QueryResult(NoContextResponse, [], [], Some(NoContextError), None))
                && llm.requests == old(llm.requests)
      ensures isIndexed && queryEmbedding.Some? && foundTexts != [] ==>
                && result == Some(QueryResult(answer, foundTexts, foundScores, None, Some(|foundTexts|)))
                && llm.requests == old(llm.requests) + [Generate(question, foundTexts)]
    {
      if !isIndexed {
        return Some(QueryResult(NotIndexedResponse, [], [], Some(NotIndexedError), None));
      }
      var embedding := embedder.GenerateSingleEmbedding(question, queryEmbedding);
      if embedding.None? {
        return None;
      }
      var similarTexts, similarityScores := store.Search(embedding.value, topK, foundTexts, foundScores);
      if similarTexts == [] {
        return Some(QueryResult(NoContextResponse, [], [], Some(NoContextError), None));
      }
      var response := llm.GenerateResponse(question, similarTexts, answer);
      result := Some(QueryResult(response, similarTexts, similarityScores, None, Some(|similarTexts|)));
    }

    /** `reset_pipeline()`: a new, empty store and no index; the embedder
        and the language model stay. */
    method ResetPipeline()
      modifies this
      ensures fresh(store) && store.requests == []
      ensures embedder == old(embedder) && llm == old(llm)
      ensures !isIndexed
    {
      store := new VectorStore();
      isIndexed := false;
    }
  }
}
