/**
 * The query path of app/retriever/search.py: the nearest neighbours that
 * Matching Engine returns are joined, one by one and in order, with the
 * catalog loaded from disk.
 */
module Search {
  import opened Wrappers
  import opened Catalog

  /** One neighbour of the response: its datapoint id and an opaque distance. */
  datatype Neighbor<D> = Neighbor(datapointId: string, distance: D)

  /** One result of search_topk: {datapoint_id, distance, title, chunk_ix, text}. */
  datatype Context<D> = Context(datapointId: string, distance: D, title: Json, chunkIx: Json, text: Json)

  /** search_topk fails when no endpoint has the configured display name, or when the catalog cannot be loaded. */
  datatype SearchError = NoEndpoint | CatalogUnreadable(cause: LoadError)

  /** `catalog.get(dp_id, {})`. */
  function MetaFor(table: Table, id: string): map<string, Json> {
    if JStr(id) in table then table[JStr(id)] else map[]
  }

  /**
   * results is the join of neighbors with table: one result per neighbour,
   * in the same order, carrying the neighbour's id and distance; an id the
   * catalog lacks gets null metadata and one it has gets that entry's fields.
   */
  ghost predicate IsJoin<D>(table: Table, neighbors: seq<Neighbor<D>>, results: seq<Context<D>>) {
    && |results| == |neighbors|
    && (forall i :: 0 <= i < |neighbors| ==>
          results[i].datapointId == neighbors[i].datapointId && results[i].distance == neighbors[i].distance)
    && (forall i :: 0 <= i < |neighbors| && JStr(neighbors[i].datapointId) !in table ==>
          results[i].title == JNull && results[i].chunkIx == JNull && results[i].text == JNull)
    && (forall i :: 0 <= i < |neighbors| && JStr(neighbors[i].datapointId) in table ==>
          var meta := table[JStr(neighbors[i].datapointId)];
          results[i].title == Get(meta, "title") && results[i].chunkIx == Get(meta, "chunk_ix") && results[i].text == Get(meta, "text"))
  }

  /** The result loop of search_topk. */
  method JoinNeighbors<D>(table: Table, neighbors: seq<Neighbor<D>>) returns (results: seq<Context<D>>)
    ensures IsJoin(table, neighbors, results)
  {
    results := [];
    for i := 0 to |neighbors|
      invariant IsJoin(table, neighbors[..i], results)
    {
      var dpId := neighbors[i].datapointId;
      var meta := MetaFor(table, dpId);
      results := results + [Context(dpId, neighbors[i].distance, Get(meta, "title"), Get(meta, "chunk_ix"), Get(meta, "text"))];
    }
    assert neighbors[..|neighbors|] == neighbors;
  }

  /**
   * search_topk after the query has been embedded: take the first endpoint
   * with the configured display name, ask it for topK neighbours, load the
   * catalog and join. The endpoint lookup comes before the catalog load, so
   * a missing endpoint is reported first.
   */
  method SearchTopK<E, D>(endpoints: seq<E>, find: (E, nat) -> seq<Neighbor<D>>, topK: nat, catalogFile: Option<Json>)
    returns (r: Result<seq<Context<D>>, SearchError>)
    ensures endpoints == [] ==> r == Err(NoEndpoint)
    ensures endpoints != [] && LoadCatalog(catalogFile).Err? ==> r == Err(CatalogUnreadable(LoadCatalog(catalogFile).error))
    ensures endpoints != [] && LoadCatalog(catalogFile).Ok? ==>
              r.Ok? && IsJoin(LoadCatalog(catalogFile).value, find(endpoints[0], topK), r.value)
  {
    if |endpoints| == 0 {
      return Err(NoEndpoint);
    }
    var neighbors := find(endpoints[0], topK);
    var loaded := LoadCatalog(catalogFile);
    if loaded.Err? {
      return Err(CatalogUnreadable(loaded.error));
    }
    var results := JoinNeighbors(loaded.value, neighbors);
    return Ok(results);
  }

  /**
   * With the corrected reader, a neighbour whose id is one of the upserted
   * records gets that record's title, chunk index and text.
   */
  lemma JoinOverWrittenCatalog<D>(records: seq<Record>, neighbors: seq<Neighbor<D>>, results: seq<Context<D>>, i: nat, j: nat)
    requires DistinctIds(records)
    requires i < |neighbors| && j < |records|
    requires neighbors[i].datapointId == records[j].id
    requires LoadCatalogEitherShape(Some(WrittenCatalog(records))).Ok?
    requires IsJoin(LoadCatalogEitherShape(Some(WrittenCatalog(records))).value, neighbors, results)
    ensures results[i].datapointId == records[j].id
    ensures results[i].title == JStr(records[j].title)
    ensures results[i].chunkIx == JNum(records[j].chunkIx)
    ensures results[i].text == JStr(records[j].text)
  {
    WrittenCatalogRoundTrip(records, j);
  }
}
