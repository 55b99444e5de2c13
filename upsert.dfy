/**
 * run_upsert in app/retriever/upsert_vector.py: ensure the index and the
 * endpoint, chunk every document into records, stop when there are none,
 * embed the record texts, upsert one datapoint per record and vector, and
 * write the catalog.
 */
module Upsert {
  import opened Wrappers
  import opened Collections
  import opened Text
  import opened Chunk
  import opened Catalog
  import opened VectorRegistry
  import Embedding

  /** chunk_text's defaults, which run_upsert uses. */
  const ChunkSize: int := 1100
  const ChunkOverlap: int := 150

  const NoChunksReason: string := "no docs/chunks"

  /** One loaded document: its title and its text. */
  datatype Doc = Doc(title: string, text: string)

  /** A document after chunk_text: its title and its chunks, in order. */
  datatype ChunkedDoc = ChunkedDoc(title: string, chunks: seq<string>)

  function DocChunks(d: Doc): seq<string> {
    Chunks(d.text, ChunkSize, ChunkOverlap)
  }

  /** Every loaded document with the chunks chunk_text gives its text, in load order. */
  function ChunkDocs(docs: seq<Doc>): (cds: seq<ChunkedDoc>)
    ensures |cds| == |docs|
  {
    seq(|docs|, d requires 0 <= d < |docs| => ChunkedDoc(docs[d].title, DocChunks(docs[d])))
  }

  /** The number of chunks of all documents together. */
  function ChunkCount(cds: seq<ChunkedDoc>): nat {
    if cds == [] then 0 else ChunkCount(cds[..|cds| - 1]) + |cds[|cds| - 1].chunks|
  }

  /** The records of one document: chunk k gets id ids[k], the document's title and chunk_ix k. */
  function DocRecords(title: string, chunks: seq<string>, ids: seq<string>): (rs: seq<Record>)
    requires |ids| == |chunks|
  {
    seq(|chunks|, k requires 0 <= k < |chunks| => Record(ids[k], title, k, chunks[k]))
  }

  /** The records run_upsert builds, document by document; the i-th record takes the i-th supplied uuid. */
  function RecordsOf(cds: seq<ChunkedDoc>, ids: seq<string>): seq<Record>
    requires |ids| >= ChunkCount(cds)
  {
    if cds == [] then []
    else
      var init := cds[..|cds| - 1];
      var last := cds[|cds| - 1];
      RecordsOf(init, ids) + DocRecords(last.title, last.chunks, ids[ChunkCount(init)..ChunkCount(cds)])
  }

  /** There is one record per chunk, and record i carries the i-th uuid. */
  lemma {:induction false} RecordsOfIds(cds: seq<ChunkedDoc>, ids: seq<string>)
    requires |ids| >= ChunkCount(cds)
    ensures |RecordsOf(cds, ids)| == ChunkCount(cds)
    ensures forall i :: 0 <= i < ChunkCount(cds) ==> RecordsOf(cds, ids)[i].id == ids[i]
    decreases |cds|
  {
    if cds != [] {
      var init := cds[..|cds| - 1];
      var last := cds[|cds| - 1];
      RecordsOfIds(init, ids);
      var a: seq<Record> := RecordsOf(init, ids);
      var lo, hi := ChunkCount(init), ChunkCount(cds);
      var b: seq<Record> := DocRecords(last.title, last.chunks, ids[lo..hi]);
      var rs: seq<Record> := a + b;
      assert RecordsOf(cds, ids) == rs;
      forall i | 0 <= i < hi ensures rs[i].id == ids[i] {
        if i >= lo {
          assert b[i - lo].id == ids[lo..hi][i - lo];
        }
      }
    }
  }

  /** Pairwise distinct uuids give pairwise distinct record ids. */
  lemma RecordIdsDistinct(cds: seq<ChunkedDoc>, ids: seq<string>)
    requires |ids| >= ChunkCount(cds)
    requires forall a, b :: 0 <= a < b < |ids| ==> ids[a] != ids[b]
    ensures DistinctIds(RecordsOf(cds, ids))
  {
    RecordsOfIds(cds, ids);
  }

  /** The chunk count of a prefix grows by the next document's chunks. */
  lemma ChunkCountPrefix(cds: seq<ChunkedDoc>, d: nat)
    requires d < |cds|
    ensures ChunkCount(cds[..d + 1]) == ChunkCount(cds[..d]) + |cds[d].chunks|
    ensures ChunkCount(cds[..d + 1]) <= ChunkCount(cds)
  {
    assert cds[..d + 1][..d] == cds[..d];
    ChunkCountMono(cds, d + 1);
  }

  lemma {:induction false} ChunkCountMono(cds: seq<ChunkedDoc>, d: nat)
    requires d <= |cds|
    ensures ChunkCount(cds[..d]) <= ChunkCount(cds)
    decreases |cds|
  {
    if d < |cds| {
      var init := cds[..|cds| - 1];
      ChunkCountMono(init, d);
      assert init[..d] == cds[..d];
    } else {
      assert cds[..d] == cds;
    }
  }

  /**
   * Records come document by document in load order: the records of
   * document d start after those of the documents before it, and its k-th
   * record is its k-th chunk with chunk_ix k and the document's title.
   */
  lemma {:induction false} RecordsOfDoc(cds: seq<ChunkedDoc>, ids: seq<string>, d: nat, k: nat)
    requires |ids| >= ChunkCount(cds)
    requires d < |cds| && k < |cds[d].chunks|
    ensures ChunkCount(cds[..d]) + k < ChunkCount(cds) == |RecordsOf(cds, ids)|
    ensures RecordsOf(cds, ids)[ChunkCount(cds[..d]) + k]
            == Record(ids[ChunkCount(cds[..d]) + k], cds[d].title, k, cds[d].chunks[k])
    decreases |cds|
  {
    RecordsOfIds(cds, ids);
    ChunkCountPrefix(cds, d);
    var init := cds[..|cds| - 1];
    if d < |cds| - 1 {
      assert init[..d] == cds[..d];
      assert init[d] == cds[d];
      ChunkCountPrefix(init, d);
      RecordsOfDoc(init, ids, d, k);
      RecordsOfInit(cds, ids, ChunkCount(cds[..d]) + k);
    } else {
      assert init == cds[..d];
      RecordsOfLast(cds, ids, k);
    }
  }

  /** Appending a document leaves the earlier records where they were. */
  lemma RecordsOfInit(cds: seq<ChunkedDoc>, ids: seq<string>, j: nat)
    requires cds != [] && |ids| >= ChunkCount(cds)
    requires j < ChunkCount(cds[..|cds| - 1])
    ensures |ids| >= ChunkCount(cds[..|cds| - 1])
    ensures j < |RecordsOf(cds[..|cds| - 1], ids)| && j < |RecordsOf(cds, ids)|
    ensures RecordsOf(cds, ids)[j] == RecordsOf(cds[..|cds| - 1], ids)[j]
  {
    RecordsOfIds(cds, ids);
    RecordsOfIds(cds[..|cds| - 1], ids);
  }

  /** The records of the last document follow those of the documents before it, chunk by chunk. */
  lemma RecordsOfLast(cds: seq<ChunkedDoc>, ids: seq<string>, k: nat)
    requires cds != [] && |ids| >= ChunkCount(cds)
    requires k < |cds[|cds| - 1].chunks|
    ensures ChunkCount(cds[..|cds| - 1]) + k < |RecordsOf(cds, ids)|
    ensures var j := ChunkCount(cds[..|cds| - 1]) + k;
            RecordsOf(cds, ids)[j] == Record(ids[j], cds[|cds| - 1].title, k, cds[|cds| - 1].chunks[k])
  {
    RecordsOfIds(cds, ids);
    var init := cds[..|cds| - 1];
    var last := cds[|cds| - 1];
    var lo, hi := ChunkCount(init), ChunkCount(cds);
    var tail := DocRecords(last.title, last.chunks, ids[lo..hi]);
    RecordsOfIds(init, ids);
    assert RecordsOf(cds, ids) == RecordsOf(init, ids) + tail;
    assert RecordsOf(cds, ids)[lo + k] == tail[k];
  }

  /** There are no chunks at all exactly when no document has a chunk. */
  lemma {:induction false} NoChunksIffNoneHasChunks(cds: seq<ChunkedDoc>)
    ensures ChunkCount(cds) == 0 <==> forall d :: 0 <= d < |cds| ==> cds[d].chunks == []
    decreases |cds|
  {
    if cds != [] {
      var init := cds[..|cds| - 1];
      NoChunksIffNoneHasChunks(init);
      assert forall d :: 0 <= d < |init| ==> init[d] == cds[d];
    }
  }

  /** No record at all exactly when every document's text is whitespace only. */
  lemma NoRecordsIffBlank(docs: seq<Doc>, ids: seq<string>)
    requires |ids| >= ChunkCount(ChunkDocs(docs))
    ensures RecordsOf(ChunkDocs(docs), ids) == [] <==> forall d, i :: 0 <= d < |docs| && 0 <= i < |docs[d].text| ==> IsSpace(docs[d].text[i])
  {
    var cds := ChunkDocs(docs);
    RecordsOfIds(cds, ids);
    NoChunksIffNoneHasChunks(cds);
    forall d | 0 <= d < |docs|
      ensures cds[d].chunks == [] <==> forall i :: 0 <= i < |docs[d].text| ==> IsSpace(docs[d].text[i])
    {
      NoChunksIffBlank(docs[d].text, ChunkSize, ChunkOverlap);
    }
  }

  /** The record texts, `[r["text"] for r in records]`. */
  function Texts(records: seq<Record>): (ts: seq<string>)
    ensures |ts| == |records|
    ensures forall i :: 0 <= i < |ts| ==> ts[i] == records[i].text
  {
    seq(|records|, i requires 0 <= i < |records| => records[i].text)
  }

  /** Appending the record of one more chunk extends a document's records. */
  lemma DocRecordsSnoc(title: string, chunks: seq<string>, ids: seq<string>, ix: nat)
    requires ix < |chunks| && ix < |ids|
    ensures DocRecords(title, chunks[..ix + 1], ids[..ix + 1])
            == DocRecords(title, chunks[..ix], ids[..ix]) + [Record(ids[ix], title, ix, chunks[ix])]
  {
  }

  /** The records of one more document extend those of the documents before it. */
  lemma RecordsOfSnoc(cds: seq<ChunkedDoc>, ids: seq<string>, d: nat)
    requires d < |cds| && |ids| >= ChunkCount(cds)
    ensures ChunkCount(cds[..d]) + |cds[d].chunks| == ChunkCount(cds[..d + 1]) <= ChunkCount(cds)
    ensures RecordsOf(cds[..d + 1], ids)
            == RecordsOf(cds[..d], ids) + DocRecords(cds[d].title, cds[d].chunks, ids[ChunkCount(cds[..d])..ChunkCount(cds[..d + 1])])
  {
    ChunkCountPrefix(cds, d);
    assert cds[..d + 1][..d] == cds[..d];
  }

  /** The inner loop of run_upsert: `for ix, ch in enumerate(chunks)`, one record per chunk with a fresh uuid. */
  method AppendDocRecords(records: seq<Record>, title: string, chunks: seq<string>, docIds: seq<string>)
    returns (extended: seq<Record>)
    requires |docIds| == |chunks|
    ensures extended == records + DocRecords(title, chunks, docIds)
  {
    extended := records;
    for ix := 0 to |chunks|
      invariant extended == records + DocRecords(title, chunks[..ix], docIds[..ix])
    {
      DocRecordsSnoc(title, chunks, docIds, ix);
      extended := extended + [Record(docIds[ix], title, ix, chunks[ix])];
    }
    assert chunks[..|chunks|] == chunks && docIds[..|chunks|] == docIds;
  }

  /** The nested loop of run_upsert: for each document, for each (ix, chunk) of chunk_text(text), append a record. */
  method BuildRecords(docs: seq<Doc>, ids: seq<string>) returns (records: seq<Record>)
    requires |ids| >= ChunkCount(ChunkDocs(docs))
    ensures records == RecordsOf(ChunkDocs(docs), ids)
  {
    ghost var cds := ChunkDocs(docs);
    records := [];
    var used := 0;
    for d := 0 to |docs|
      invariant used == ChunkCount(cds[..d]) <= ChunkCount(cds)
      invariant records == RecordsOf(cds[..d], ids)
    {
      RecordsOfSnoc(cds, ids, d);
      var chunks := ChunkText(docs[d].text, ChunkSize, ChunkOverlap);
      assert cds[d] == ChunkedDoc(docs[d].title, chunks);
      records := AppendDocRecords(records, docs[d].title, chunks, ids[used..used + |chunks|]);
      used := used + |chunks|;
    }
    assert cds[..|docs|] == cds;
  }

  /** A Matching Engine datapoint of record r with vector v. */
  function DatapointOf<V>(r: Record, v: V): Datapoint<V> {
    Datapoint(r.id, v, [], None)
  }

  /** `zip(records, vectors)` turned into datapoints. */
  function Datapoints<V>(records: seq<Record>, vectors: seq<V>): seq<Datapoint<V>> {
    seq(Min(|records|, |vectors|), i requires 0 <= i < Min(|records|, |vectors|) => DatapointOf(records[i], vectors[i]))
  }

  /** The zip loop: datapoint i pairs record i's id with vector i; the shorter input decides the count. */
  method MakeDatapoints<V>(records: seq<Record>, vectors: seq<V>) returns (dps: seq<Datapoint<V>>)
    ensures |dps| == Min(|records|, |vectors|)
    ensures forall i :: 0 <= i < |dps| ==>
              dps[i].datapointId == records[i].id && dps[i].featureVector == vectors[i]
              && dps[i].restricts == [] && dps[i].crowdingTag == None
  {
    dps := [];
    var n := Min(|records|, |vectors|);
    for i := 0 to n
      invariant |dps| == i
      invariant forall j :: 0 <= j < i ==> dps[j] == DatapointOf(records[j], vectors[j])
    {
      dps := dps + [DatapointOf(records[i], vectors[i])];
    }
  }

  /** The index _ensure_index returns is in the index list it leaves behind, so _ensure_endpoint never reports it missing. */
  lemma EnsuredIndexExists(indexes: seq<Index>, newName: string)
    ensures IndexExists(EnsureIndexSpec(indexes, newName).0, EnsureIndexSpec(indexes, newName).1)
  {
    match FirstWith(indexes, IsDemoIndex)
    case Some(k) =>
    case None =>
      var after := EnsureIndexSpec(indexes, newName).0;
      assert after[|indexes|].resourceName == newName;
  }

  /** What run_upsert returns: the success summary, the "no docs/chunks" answer, or the exception it raises. */
  datatype UpsertOutcome = Upserted(index: string, endpoint: string, count: nat) | NotOk(reason: string) | Raised(error: RegistryError)

  /**
   * run_upsert. The index and endpoint are ensured first, so the registry
   * changes even when there are no records; with no records nothing is
   * embedded, upserted or written. Otherwise every record is embedded,
   * upserted into the index, and the catalog written afterwards.
   */
  method RunUpsert<V>(reg: Registry<V>, docs: seq<Doc>, ids: seq<string>, newIndexName: string, newEndpointName: string,
                      embed: seq<string> -> seq<V>)
    returns (outcome: UpsertOutcome, catalog: Option<Json>)
    requires |ids| >= ChunkCount(ChunkDocs(docs))
    modifies reg
    ensures var (indexes1, indexName) := EnsureIndexSpec(old(reg.indexes), newIndexName);
            var (endpoints1, ep) := EnsureEndpointSpec(indexes1, old(reg.endpoints), indexName, newEndpointName);
            var records := RecordsOf(ChunkDocs(docs), ids);
            && reg.indexes == indexes1 && reg.endpoints == endpoints1
            && (ep.Err? ==> outcome == Raised(ep.error) && catalog == None && reg.datapoints == old(reg.datapoints))
            && (ep.Ok? && records == [] ==> outcome == NotOk(NoChunksReason) && catalog == None && reg.datapoints == old(reg.datapoints))
            && (ep.Ok? && records != [] ==>
                  && outcome == Upserted(indexName, ep.value, |records|)
                  && catalog == Some(WrittenCatalog(records))
                  && reg.datapoints == old(reg.datapoints)[indexName := old(reg.Stored(indexName))
                       + IndexBy(Datapoints(records, Embedding.EmbedAll(Texts(records), embed)), DatapointId, FeatureVector)])
    ensures outcome.Raised? ==> outcome.error == DeployConflict(DeployedIndexId)
  {
    EnsuredIndexExists(reg.indexes, newIndexName);
    var indexName := reg.EnsureIndex(newIndexName);
    var ep := reg.EnsureEndpoint(indexName, newEndpointName);
    if ep.Err? {
      return Raised(ep.error), None;
    }
    var records := BuildRecords(docs, ids);
    if |records| == 0 {
      return NotOk(NoChunksReason), None;
    }
    var vectors := Embedding.EmbedTexts(Texts(records), embed);
    var dps := MakeDatapoints(records, vectors);
    assert dps == Datapoints(records, vectors);
    var up := reg.UpsertDatapoints(indexName, dps);
    assert up.Ok?;
    return Upserted(indexName, ep.value, |records|), Some(WrittenCatalog(records));
  }

  /**
   * With one vector per record, the ids upserted are exactly the catalog's
   * keys, and record i's datapoint holds vector i.
   */
  lemma UpsertedIdsAreCatalogKeys<V>(records: seq<Record>, vectors: seq<V>, i: nat)
    requires |vectors| == |records|
    requires DistinctIds(records)
    requires i < |records|
    ensures IndexBy(Datapoints(records, vectors), DatapointId, FeatureVector).Keys == WrittenCatalog(records).fields.Keys
    ensures records[i].id in IndexBy(Datapoints(records, vectors), DatapointId, FeatureVector)
    ensures IndexBy(Datapoints(records, vectors), DatapointId, FeatureVector)[records[i].id] == vectors[i]
  {
    UpsertedKeys(records, vectors);
    UpsertedVector(records, vectors, i);
  }

  /** The ids upserted are the catalog's keys. */
  lemma UpsertedKeys<V>(records: seq<Record>, vectors: seq<V>)
    requires |vectors| == |records|
    ensures IndexBy(Datapoints(records, vectors), DatapointId, FeatureVector).Keys == WrittenCatalog(records).fields.Keys
  {
    SameIds(records, vectors);
    WrittenCatalogKeys(records);
  }

  /** With distinct ids, record i's datapoint holds vector i. */
  lemma UpsertedVector<V>(records: seq<Record>, vectors: seq<V>, i: nat)
    requires |vectors| == |records|
    requires DistinctIds(records)
    requires i < |records|
    ensures records[i].id in IndexBy(Datapoints(records, vectors), DatapointId, FeatureVector)
    ensures IndexBy(Datapoints(records, vectors), DatapointId, FeatureVector)[records[i].id] == vectors[i]
  {
    var dps := Datapoints(records, vectors);
    DatapointsDistinct(records, vectors);
    IndexByDistinct(dps, DatapointId, FeatureVector, i);
    assert dps[i] == DatapointOf(records[i], vectors[i]);
  }

  lemma DatapointsDistinct<V>(records: seq<Record>, vectors: seq<V>)
    requires |vectors| == |records|
    requires DistinctIds(records)
    ensures |Datapoints(records, vectors)| == |records|
    ensures forall a, b :: 0 <= a < b < |Datapoints(records, vectors)| ==>
              DatapointId(Datapoints(records, vectors)[a]) != DatapointId(Datapoints(records, vectors)[b])
  {
    var dps := Datapoints(records, vectors);
    forall a, b | 0 <= a < b < |dps| ensures DatapointId(dps[a]) != DatapointId(dps[b]) {
      assert dps[a].datapointId == records[a].id && dps[b].datapointId == records[b].id;
    }
  }

  /** The datapoint ids are the record ids. */
  lemma SameIds<V>(records: seq<Record>, vectors: seq<V>)
    requires |vectors| == |records|
    ensures (set k | 0 <= k < |Datapoints(records, vectors)| :: DatapointId(Datapoints(records, vectors)[k]))
            == (set k | 0 <= k < |records| :: records[k].id)
  {
    var dps := Datapoints(records, vectors);
    var ids := set k | 0 <= k < |records| :: records[k].id;
    forall x | x in ids
      ensures x in (set k | 0 <= k < |dps| :: DatapointId(dps[k]))
    {
      var k :| 0 <= k < |records| && records[k].id == x;
      assert DatapointId(dps[k]) == x;
    }
  }

  /**
   * When the model returns one vector per text, every catalog key is
   * upserted, holding the vector the model gave that record's text.
   */
  lemma CatalogKeysAreUpserted<V>(records: seq<Record>, embed: seq<string> -> seq<V>, i: nat)
    requires Embedding.OnePerInput(embed)
    requires DistinctIds(records)
    requires i < |records|
    ensures var upserted := IndexBy(Datapoints(records, Embedding.EmbedAll(Texts(records), embed)), DatapointId, FeatureVector);
            && upserted.Keys == WrittenCatalog(records).fields.Keys
            && records[i].id in upserted
            && upserted[records[i].id] == Embedding.EmbedAll(Texts(records), embed)[i]
  {
    Embedding.EmbedAllLength(Texts(records), embed);
    UpsertedIdsAreCatalogKeys(records, Embedding.EmbedAll(Texts(records), embed), i);
  }
}
