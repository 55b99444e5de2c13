/**
 * The catalog file that joins vector ids to their source text: the shape
 * run_upsert writes (app/retriever/upsert_vector.py) and the shape
 * _load_catalog reads (app/retriever/search.py). The two do not agree:
 * the writer emits a JSON object keyed by id, the reader iterates a JSON
 * array of objects carrying "id".
 */
module Catalog {
  import opened Wrappers
  import opened Collections

  /** The JSON values a parsed catalog file holds (booleans and floats are not modelled). */
  datatype Json = JNull | JNum(num: int) | JStr(str: string) | JArr(elems: seq<Json>) | JObj(fields: map<string, Json>)

  /** dict.get(key): the field's value, or None (null) when the key is absent. */
  function Get(fields: map<string, Json>, key: string): Json {
    if key in fields then fields[key] else JNull
  }

  /** Values Python accepts as dict keys: lists and dicts are unhashable. */
  predicate Hashable(j: Json) {
    !j.JArr? && !j.JObj?
  }

  /** One chunk record of run_upsert: {"id", "title", "chunk_ix", "text"}. */
  datatype Record = Record(id: string, title: string, chunkIx: nat, text: string)

  function RecordId(r: Record): string {
    r.id
  }

  /** {"title": ..., "chunk_ix": ..., "text": ...} of one record. */
  function MetaOf(r: Record): Json {
    JObj(map["title" := JStr(r.title), "chunk_ix" := JNum(r.chunkIx), "text" := JStr(r.text)])
  }

  predicate DistinctIds(records: seq<Record>) {
    forall a, b :: 0 <= a < b < |records| ==> records[a].id != records[b].id
  }

  /** The catalog run_upsert writes: a JSON object from record id to the record's {title, chunk_ix, text}. */
  function WrittenCatalog(records: seq<Record>): Json {
    JObj(IndexBy(records, RecordId, MetaOf))
  }

  /** The written object's keys are exactly the record ids. */
  lemma WrittenCatalogKeys(records: seq<Record>)
    ensures WrittenCatalog(records).fields.Keys == set k | 0 <= k < |records| :: records[k].id
  {
    assert forall k :: 0 <= k < |records| ==> RecordId(records[k]) == records[k].id;
  }

  /** The written object's keys are exactly the record ids, each holding that record's metadata. */
  lemma WrittenCatalogEntries(records: seq<Record>, i: nat)
    requires DistinctIds(records)
    requires i < |records|
    ensures WrittenCatalog(records).fields.Keys == set k | 0 <= k < |records| :: records[k].id
    ensures records[i].id in WrittenCatalog(records).fields
    ensures WrittenCatalog(records).fields[records[i].id] == MetaOf(records[i])
  {
    IndexByDistinct(records, RecordId, MetaOf, i);
  }

  /** What _load_catalog returns: entry "id" -> the entry. */
  type Table = map<Json, map<string, Json>>

  /** Why _load_catalog raises: no file, `c["id"]` on a non-dict or an unhashable id, or no "id" key. */
  datatype LoadError = FileNotFound | TypeError | KeyError

  /** How `c["id"]` fares on one element c of the loaded value, and whether the id can be a key. */
  function EntryError(c: Json): Option<LoadError> {
    if !c.JObj? then Some(TypeError)
    else if "id" !in c.fields then Some(KeyError)
    else if !Hashable(c.fields["id"]) then Some(TypeError)
    else None
  }

  /** The error of the first element that fails, in iteration order. */
  function FirstEntryError(items: seq<Json>): (e: Option<LoadError>)
    ensures e.None? <==> forall i :: 0 <= i < |items| ==> EntryError(items[i]).None?
  {
    if items == [] then None
    else if EntryError(items[0]).Some? then EntryError(items[0])
    else FirstEntryError(items[1..])
  }

  function IdOf(c: Json): Json {
    if c.JObj? && "id" in c.fields then c.fields["id"] else JNull
  }

  function FieldsOf(c: Json): map<string, Json> {
    if c.JObj? then c.fields else map[]
  }

  /**
   * _load_catalog on the parsed file: iterate the top-level value and key
   * each element c by c["id"]. Iterating an object yields its keys and
   * iterating a string its characters; indexing either with "id" raises
   * TypeError, as does iterating a number or null.
   */
  function LoadCatalog(file: Option<Json>): Result<Table, LoadError> {
    match file
    case None => Err(FileNotFound)
    case Some(doc) =>
      match doc
      case JArr(items) =>
        (match FirstEntryError(items)
         case Some(e) => Err(e)
         case None => Ok(IndexBy(items, IdOf, FieldsOf)))
      case JObj(fields) => if |fields| == 0 then Ok(map[]) else Err(TypeError)
      case JStr(s) => if s == [] then Ok(map[]) else Err(TypeError)
      case JNum(_) => Err(TypeError)
      case JNull => Err(TypeError)
  }

  /**
   * Loading a JSON array succeeds exactly when every element is an object
   * with a hashable "id"; the table then maps each id to its entry, the
   * later entry winning on a repeated id.
   */
  lemma LoadedArrayTable(items: seq<Json>, i: nat)
    requires i < |items|
    ensures LoadCatalog(Some(JArr(items))).Ok? <==> forall k :: 0 <= k < |items| ==> EntryError(items[k]).None?
    ensures LoadCatalog(Some(JArr(items))).Ok? ==>
              && LoadCatalog(Some(JArr(items))).value.Keys == (set k | 0 <= k < |items| :: items[k].fields["id"])
              && (IsLastWithKey(items, IdOf, i) ==> LoadCatalog(Some(JArr(items))).value[items[i].fields["id"]] == items[i].fields)
  {
    if LoadCatalog(Some(JArr(items))).Ok? {
      var t := LoadCatalog(Some(JArr(items))).value;
      assert (set k | 0 <= k < |items| :: items[k].fields["id"]) == (set k | 0 <= k < |items| :: IdOf(items[k])) by {
        forall k | 0 <= k < |items| ensures items[k].fields["id"] == IdOf(items[k]) {
          assert EntryError(items[k]).None?;
        }
      }
      assert EntryError(items[i]).None?;
    }
  }

  /** The file run_upsert writes cannot be read back by _load_catalog: loading it raises TypeError. */
  lemma WrittenCatalogIsUnreadable(records: seq<Record>)
    requires records != []
    ensures LoadCatalog(Some(WrittenCatalog(records))) == Err(TypeError)
  {
    assert records[0].id in WrittenCatalog(records).fields;
  }

  /** The table of an object keyed by id: each key k, as a JSON string, holds the fields of fields[k]. */
  function KeyedByName(fields: map<string, Json>): (t: Table)
    ensures forall x :: x in t <==> x.JStr? && x.str in fields
    ensures forall k :: k in fields ==> t[JStr(k)] == FieldsOf(fields[k])
  {
    var t := map k | k in fields :: JStr(k) := FieldsOf(fields[k]);
    assert forall x: Json :: x.JStr? && x.str in fields ==> x == JStr(x.str);
    t
  }

  /**
   * A reader that accepts the object shape run_upsert writes: each key is an
   * id and each value that id's entry; any other file is read as before.
   */
  function LoadCatalogEitherShape(file: Option<Json>): Result<Table, LoadError> {
    match file
    case Some(JObj(fields)) =>
      if forall k :: k in fields ==> fields[k].JObj? then Ok(KeyedByName(fields))
      else Err(TypeError)
    case _ => LoadCatalog(file)
  }

  /** Every value of the written object is itself an object. */
  lemma WrittenCatalogValuesAreObjects(records: seq<Record>)
    ensures forall k :: k in WrittenCatalog(records).fields ==> WrittenCatalog(records).fields[k].JObj?
  {
    var fields := WrittenCatalog(records).fields;
    forall k | k in fields ensures fields[k].JObj? {
      WrittenCatalogKeys(records);
      assert k in set j | 0 <= j < |records| :: records[j].id;
      var j :| 0 <= j < |records| && records[j].id == k;
      LastWithKeyExists(records, RecordId, j);
      var last :| j <= last < |records| && RecordId(records[last]) == RecordId(records[j]) && IsLastWithKey(records, RecordId, last);
      assert fields[k] == MetaOf(records[last]);
    }
  }

  /** The corrected reader accepts the written object and keys it by name. */
  lemma WrittenCatalogLoads(records: seq<Record>)
    ensures LoadCatalogEitherShape(Some(WrittenCatalog(records))) == Ok(KeyedByName(WrittenCatalog(records).fields))
  {
    WrittenCatalogValuesAreObjects(records);
  }

  /** The ids of the table read back are exactly the record ids. */
  lemma WrittenCatalogIds(records: seq<Record>)
    ensures KeyedByName(WrittenCatalog(records).fields).Keys == set k | 0 <= k < |records| :: JStr(records[k].id)
  {
    var fields := WrittenCatalog(records).fields;
    var t := KeyedByName(fields);
    var ids := set k | 0 <= k < |records| :: JStr(records[k].id);
    WrittenCatalogKeys(records);
    forall x | x in t ensures x in ids {
      assert x.str in set k | 0 <= k < |records| :: records[k].id;
      var j :| 0 <= j < |records| && records[j].id == x.str;
      assert x == JStr(records[j].id);
    }
    forall j | 0 <= j < |records| ensures JStr(records[j].id) in t {
      assert records[j].id in fields;
    }
  }

  /** The file run_upsert writes reads back, under the corrected reader, as each record's metadata under its id. */
  lemma WrittenCatalogRoundTrip(records: seq<Record>, i: nat)
    requires DistinctIds(records)
    requires i < |records|
    ensures LoadCatalogEitherShape(Some(WrittenCatalog(records))).Ok?
    ensures var t := LoadCatalogEitherShape(Some(WrittenCatalog(records))).value;
            && t.Keys == (set k | 0 <= k < |records| :: JStr(records[k].id))
            && JStr(records[i].id) in t
            && Get(t[JStr(records[i].id)], "title") == JStr(records[i].title)
            && Get(t[JStr(records[i].id)], "chunk_ix") == JNum(records[i].chunkIx)
            && Get(t[JStr(records[i].id)], "text") == JStr(records[i].text)
  {
    WrittenCatalogLoads(records);
    WrittenCatalogIds(records);
    WrittenEntryReadsBack(records, i);
    MetaFields(records[i]);
  }

  /** Under the corrected reader, record i's id holds the fields of its metadata object. */
  lemma WrittenEntryReadsBack(records: seq<Record>, i: nat)
    requires DistinctIds(records)
    requires i < |records|
    ensures var t := KeyedByName(WrittenCatalog(records).fields);
            JStr(records[i].id) in t && t[JStr(records[i].id)] == MetaOf(records[i]).fields
  {
    WrittenCatalogEntries(records, i);
  }

  /** A record's metadata holds its title, chunk_ix and text. */
  lemma MetaFields(r: Record)
    ensures Get(MetaOf(r).fields, "title") == JStr(r.title)
    ensures Get(MetaOf(r).fields, "chunk_ix") == JNum(r.chunkIx)
    ensures Get(MetaOf(r).fields, "text") == JStr(r.text)
  {
  }
}
