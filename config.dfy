/** The tuning constants of RAG/config/config.py that the modelled code
    reads. */
module Config {

  /** Characters per chunk targeted by DocumentProcessor. */
  const ChunkSize: int := 1000

  /** Characters of the previous chunk carried into the next one. */
  const ChunkOverlap: int := 200

  /** Default number of chunks retrieved for a query. */
  const TopKResults: int := 5

  /** Length of one embedding vector. */
  const VectorDimension: int := 3072
}
