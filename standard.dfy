/** The summary a successful conversion returns (`StandardData`). */
module Standard {
  import opened Io

  /**
   * Where the batches were written, the vectors' dimensionality, the number
   * of base vectors, the batch size used, and the number of query vectors.
   */
  datatype StandardData = StandardData(
    dataDir: Path,
    dimensionality: nat,
    cardinality: nat,
    batchSize: nat,
    numQueries: nat)
}
