/**
 * The rows of the closure table (one row per materialised path of the DAG),
 * the request that names an edge, and the errors the core raises.
 */
module DagModel {

  /** SQL NULL in an id column. Auto-increment ids start at 1, so 0 names no row. */
  const NoId: nat := 0

  /**
   * One closure row: a path from startVertex to endVertex made of hops + 1
   * direct edges, tagged with the graph it belongs to (source). entryEdgeId and
   * exitEdgeId name the rows it was composed from; directEdgeId names the
   * direct edge whose insertion created it.
   */
  datatype Row = Row(
    id: nat,
    startVertex: int,
    endVertex: int,
    hops: nat,
    source: string,
    entryEdgeId: nat,
    exitEdgeId: nat,
    directEdgeId: nat)

  /** The edge an insertion or a removal is about (table name and connection left out). */
  datatype EdgeData = EdgeData(startVertex: int, endVertex: int, source: string)

  /** The exceptions of the core, one variant each. */
  datatype DagError = CircularReference | TooManyHops(maxHops: int) | InvalidArgument

  datatype Option<T> = None | Some(value: T)

  datatype Result<T> = Success(value: T) | Failure(error: DagError)

  /** The graph-level view of a row: what it connects and how far, without its ids. */
  datatype Link = Link(from: int, to: int, hops: nat, source: string)

  function LinkOf(r: Row): Link
  {
    Link(r.startVertex, r.endVertex, r.hops, r.source)
  }
}
