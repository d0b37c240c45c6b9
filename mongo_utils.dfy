/** The vector store side of the pipeline (`mongo_utils`): making sure the vector index
    exists, building one record per chunk and upserting the records by chunk id, and
    formatting search results into the context handed to the language model. */
module MongoUtils {
  import opened Python
  import opened Text
  import opened DataChunking

  /** An embedding vector, carried as an opaque payload. */
  type Embedding = seq<real>

  const VectorDimensions := 768
  const HeaderKey := "Header 1"
  /** How many candidates the search considers per requested result. */
  const CandidateFactor := 20

  // ---------------------------------------------------------------- the vector index

  datatype IndexField =
    | VectorField(path: string, numDimensions: nat, similarity: string)
    | FilterField(path: string)

  datatype SearchIndexModel = SearchIndexModel(name: string, kind: string, fields: seq<IndexField>)

  /** The index definition `create_vector_index` submits. */
  function VectorIndexModel(name: string): SearchIndexModel {
    SearchIndexModel(name, "vectorSearch", [
      VectorField("embedding", VectorDimensions, "cosine"),
      FilterField("metadata.Header 1"),
      FilterField("metadata.Page"),
      FilterField("metadata.source")
    ])
  }

  /** The names of the indexes, in listing order. */
  function IndexNames(indexes: seq<SearchIndexModel>): (names: seq<string>)
    ensures |names| == |indexes|
    ensures forall k :: 0 <= k < |indexes| ==> names[k] == indexes[k].name
  {
    seq(|indexes|, k requires 0 <= k < |indexes| => indexes[k].name)
  }

  /** The index list after the check-then-create: an index of that name is present afterwards,
      the existing indexes are left exactly as they were, and at most one is added. */
  function EnsureIndex(indexes: seq<SearchIndexModel>, name: string): (r: seq<SearchIndexModel>)
    ensures name in IndexNames(r)
    ensures |indexes| <= |r| <= |indexes| + 1 && r[..|indexes|] == indexes
    ensures name in IndexNames(indexes) <==> r == indexes
    ensures |r| == |indexes| + 1 ==> r[|indexes|] == VectorIndexModel(name)
  {
    if name in IndexNames(indexes) then indexes
    else
      var r := indexes + [VectorIndexModel(name)];
      assert IndexNames(r)[|indexes|] == name;
      r
  }

  /** Ensuring the index a second time changes nothing: it is created at most once. */
  lemma EnsureIndexIdempotent(indexes: seq<SearchIndexModel>, name: string)
    ensures EnsureIndex(EnsureIndex(indexes, name), name) == EnsureIndex(indexes, name)
  {
  }

  // ---------------------------------------------------------------- records

  datatype RecordMetadata = RecordMetadata(source: string, page: PyValue, header: PyValue, chunkId: string)

  /** One stored chunk: its text, its vector and its provenance. */
  datatype Record = Record(text: string, embedding: Embedding, metadata: RecordMetadata)

  /** The position of the last `c` in `s`, or -1 (`str.rfind`). */
  function RFind(s: string, c: char): (i: int)
    ensures -1 <= i < |s|
    ensures i >= 0 ==> s[i] == c
    ensures forall j :: i < j < |s| ==> s[j] != c
  {
    if s == [] then -1 else if s[|s| - 1] == c then |s| - 1 else RFind(s[..|s| - 1], c)
  }

  /** `PurePath.suffix` of a file name. */
  function Suffix(name: string): string {
    var i := RFind(name, '.');
    if 0 < i < |name| - 1 then name[i..] else ""
  }

  /** `PurePath.stem` of a file name. */
  function Stem(name: string): string {
    var i := RFind(name, '.');
    if 0 < i < |name| - 1 then name[..i] else name
  }

  /** The stem and the suffix split the name: the suffix is empty or one dot and what
      follows the last dot. */
  lemma StemAndSuffix(name: string)
    ensures Stem(name) + Suffix(name) == name
    ensures Suffix(name) == "" || (Suffix(name)[0] == '.' && '.' !in Suffix(name)[1..] && |Suffix(name)| > 1)
    ensures Suffix(name) != "" <==> 0 < RFind(name, '.') < |name| - 1
  {
    var i := RFind(name, '.');
    if 0 < i < |name| - 1 {
      assert name[..i] + name[i..] == name;
      assert forall j :: 0 <= j < |name[i..][1..]| ==> name[i..][1..][j] == name[i + 1 + j];
    }
  }

  /** The content identity: `f"{stem}_{hash(text)}"`. */
  function ChunkId(stem: string, hashValue: int): string {
    stem + "_" + IntToString(hashValue)
  }

  /** A chunk id determines the stem and the hash value it was built from. */
  lemma ChunkIdInjective(stem1: string, hash1: int, stem2: string, hash2: int)
    requires ChunkId(stem1, hash1) == ChunkId(stem2, hash2)
    ensures stem1 == stem2 && hash1 == hash2
  {
    var id := ChunkId(stem1, hash1);
    var t1, t2 := IntToString(hash1), IntToString(hash2);
    assert id == stem2 + "_" + t2 && id[|stem2|] == '_' && id[|stem1|] == '_';
    UnderscoreAtMostAt(stem1, t1, |stem2|);
    UnderscoreAtMostAt(stem2, t2, |stem1|);
    assert stem1 == id[..|stem1|] == stem2;
    assert t1 == id[|stem1| + 1..] == t2;
    IntToStringInjective(hash1, hash2);
  }

  /** In `a + "_" + t` with no `_` in `t`, the last `_` sits right after `a`. */
  lemma UnderscoreAtMostAt(a: string, t: string, p: nat)
    requires '_' !in t
    requires p < |a + "_" + t| && (a + "_" + t)[p] == '_'
    ensures p <= |a|
  {
  }

  /** The record built for one chunk and its vector (the per-record dictionary): `hash`
      stands for Python's string hash within one process. */
  function BuildRecord(chunk: DocValue, vector: Embedding, pdfName: string, hash: string -> int): Record {
    Record(chunk.pageContent, vector, RecordMetadata(
      pdfName,
      Get(chunk.metadata, PageKey, PyNone),
      Get(chunk.metadata, HeaderKey, PyNone),
      ChunkId(Stem(pdfName), hash(chunk.pageContent))))
  }

  /** Two chunks of one file get the same id exactly when their texts hash alike; in
      particular an unchanged text gets its old id back, whatever its vector or metadata. */
  lemma SameIdIffSameHash(c1: DocValue, v1: Embedding, c2: DocValue, v2: Embedding,
                          pdfName: string, hash: string -> int)
    ensures BuildRecord(c1, v1, pdfName, hash).metadata.chunkId == BuildRecord(c2, v2, pdfName, hash).metadata.chunkId
        <==> hash(c1.pageContent) == hash(c2.pageContent)
  {
    var stem := Stem(pdfName);
    if ChunkId(stem, hash(c1.pageContent)) == ChunkId(stem, hash(c2.pageContent)) {
      ChunkIdInjective(stem, hash(c1.pageContent), stem, hash(c2.pageContent));
    }
  }

  function Min(a: int, b: int): int {
    if a <= b then a else b
  }

  /** The records of `zip(chunks, vectors)`: as many as the shorter list, in pair order. */
  function BuildRecords(chunks: seq<DocValue>, vectors: seq<Embedding>, pdfName: string,
                        hash: string -> int): (records: seq<Record>)
    ensures |records| == Min(|chunks|, |vectors|)
    ensures forall k :: 0 <= k < |records| ==> records[k] == BuildRecord(chunks[k], vectors[k], pdfName, hash)
  {
    seq(Min(|chunks|, |vectors|), k requires 0 <= k < Min(|chunks|, |vectors|) =>
      BuildRecord(chunks[k], vectors[k], pdfName, hash))
  }

  /** Every built record has the text, vector, file name and metadata of its own pair. */
  lemma BuiltRecordProvenance(chunks: seq<DocValue>, vectors: seq<Embedding>, pdfName: string,
                              hash: string -> int, k: nat)
    requires k < |chunks| && k < |vectors|
    ensures var r := BuildRecords(chunks, vectors, pdfName, hash)[k];
      && r.text == chunks[k].pageContent && r.embedding == vectors[k]
      && r.metadata.source == pdfName
      && (PageKey in chunks[k].metadata ==> r.metadata.page == chunks[k].metadata[PageKey])
      && (PageKey !in chunks[k].metadata ==> r.metadata.page == PyNone)
      && (HeaderKey in chunks[k].metadata ==> r.metadata.header == chunks[k].metadata[HeaderKey])
      && (HeaderKey !in chunks[k].metadata ==> r.metadata.header == PyNone)
      && r.metadata.chunkId == Stem(pdfName) + "_" + IntToString(hash(chunks[k].pageContent))
  {
  }

  // ---------------------------------------------------------------- upsert by chunk id

  /** Every stored record is filed under its own chunk id. */
  ghost predicate KeyedByChunkId(store: map<string, Record>) {
    forall id :: id in store ==> store[id].metadata.chunkId == id
  }

  /** `ReplaceOne({"metadata.chunk_id": id}, doc, upsert=True)`. */
  function ReplaceOne(store: map<string, Record>, doc: Record): map<string, Record> {
    store[doc.metadata.chunkId := doc]
  }

  /** An ordered bulk of replacements, applied first to last. */
  function BulkReplace(store: map<string, Record>, docs: seq<Record>): map<string, Record> {
    if docs == [] then store else ReplaceOne(BulkReplace(store, docs[..|docs| - 1]), docs[|docs| - 1])
  }

  /** The last record in `docs` with chunk id `id`. */
  function LastWithId(docs: seq<Record>, id: string): (r: Option<Record>)
    ensures r.None? <==> forall k :: 0 <= k < |docs| ==> docs[k].metadata.chunkId != id
    ensures r.Some? ==> r.value.metadata.chunkId == id && r.value in docs
    ensures r.Some? ==> (exists k :: 0 <= k < |docs| && docs[k] == r.value &&
                          forall j :: k < j < |docs| ==> docs[j].metadata.chunkId != id)
  {
    if docs == [] then None
    else if docs[|docs| - 1].metadata.chunkId == id then Some(docs[|docs| - 1])
    else
      var init := docs[..|docs| - 1];
      assert forall k :: 0 <= k < |init| ==> init[k] == docs[k];
      LastWithId(init, id)
  }

  /** After the bulk, the id of every written record holds the last record written with that
      id, and every other id keeps what it held (or stays absent). */
  lemma {:induction false} BulkReplaceContents(store: map<string, Record>, docs: seq<Record>, id: string)
    ensures id in BulkReplace(store, docs) <==> id in store || LastWithId(docs, id).Some?
    ensures LastWithId(docs, id).Some? ==> BulkReplace(store, docs)[id] == LastWithId(docs, id).value
    ensures LastWithId(docs, id).None? && id in store ==> BulkReplace(store, docs)[id] == store[id]
  {
    if docs != [] {
      BulkReplaceContents(store, docs[..|docs| - 1], id);
    }
  }

  /** The bulk keeps every record filed under its own chunk id. */
  lemma BulkReplaceKeepsKeying(store: map<string, Record>, docs: seq<Record>)
    requires KeyedByChunkId(store)
    ensures KeyedByChunkId(BulkReplace(store, docs))
  {
    forall id | id in BulkReplace(store, docs)
      ensures BulkReplace(store, docs)[id].metadata.chunkId == id
    {
      BulkReplaceContents(store, docs, id);
    }
  }

  /** Running the same bulk twice leaves the store as one run left it. */
  lemma BulkReplaceIdempotent(store: map<string, Record>, docs: seq<Record>)
    ensures BulkReplace(BulkReplace(store, docs), docs) == BulkReplace(store, docs)
  {
    var once := BulkReplace(store, docs);
    var twice := BulkReplace(once, docs);
    forall id ensures (id in twice <==> id in once) && (id in once ==> twice[id] == once[id]) {
      BulkReplaceContents(store, docs, id);
      BulkReplaceContents(once, docs, id);
    }
  }

  /** Writing the same chunks and vectors twice, with the same hash, leaves the store as
      one write left it. */
  lemma UpsertTwiceIsUpsertOnce(store: map<string, Record>, chunks: seq<DocValue>, vectors: seq<Embedding>,
                                pdfName: string, hash: string -> int)
    ensures var docs := BuildRecords(chunks, vectors, pdfName, hash);
      BulkReplace(BulkReplace(store, docs), docs) == BulkReplace(store, docs)
  {
    BulkReplaceIdempotent(store, BuildRecords(chunks, vectors, pdfName, hash));
  }

  // ---------------------------------------------------------------- the collection

  /** The collection: its search indexes and its records, keyed by chunk id. */
  class Collection {
    var searchIndexes: seq<SearchIndexModel>
    var documents: map<string, Record>

    ghost predicate Valid()
      reads this
    {
      KeyedByChunkId(documents)
    }

    constructor ()
      ensures Valid() && searchIndexes == [] && documents == map[]
    {
      searchIndexes := [];
      documents := map[];
    }
  }

  /** `create_vector_index`: creates the index only when no index of that name is listed. */
  method CreateVectorIndex(coll: Collection, indexName: string)
    modifies coll`searchIndexes
    ensures coll.searchIndexes == EnsureIndex(old(coll.searchIndexes), indexName)
  {
    var vectorIndex := VectorIndexModel(indexName);
    var existingIndexes := IndexNames(coll.searchIndexes);
    if indexName !in existingIndexes {
      coll.searchIndexes := coll.searchIndexes + [vectorIndex];
    }
  }

  /** `upsert_data`: builds one record per (chunk, vector) pair and, when there is any,
      submits them as one ordered bulk of upserts keyed by chunk id. */
  method UpsertData(coll: Collection, chunks: seq<DocValue>, vectors: seq<Embedding>,
                    pdfName: string, hash: string -> int)
    requires coll.Valid()
    modifies coll`documents
    ensures coll.Valid()
    ensures coll.documents == BulkReplace(old(coll.documents), BuildRecords(chunks, vectors, pdfName, hash))
    ensures Min(|chunks|, |vectors|) == 0 ==> coll.documents == old(coll.documents)
  {
    var docsToInsert: seq<Record> := [];
    for k := 0 to Min(|chunks|, |vectors|)
      invariant |docsToInsert| == k
      invariant forall j :: 0 <= j < k ==> docsToInsert[j] == BuildRecord(chunks[j], vectors[j], pdfName, hash)
    {
      var doc := BuildRecord(chunks[k], vectors[k], pdfName, hash);
      docsToInsert := docsToInsert + [doc];
    }
    assert docsToInsert == BuildRecords(chunks, vectors, pdfName, hash);
    if |docsToInsert| > 0 {
      for k := 0 to |docsToInsert|
        invariant coll.documents == BulkReplace(old(coll.documents), docsToInsert[..k])
      {
        TakeOneMore(docsToInsert, k + 1);
        coll.documents := ReplaceOne(coll.documents, docsToInsert[k]);
      }
      TakeAll(docsToInsert);
    }
    BulkReplaceKeepsKeying(old(coll.documents), docsToInsert);
  }

  // ---------------------------------------------------------------- search and context

  datatype VectorSearchStage =
    VectorSearchStage(index: string, path: string, queryVector: Embedding, numCandidates: int, limit: int)

  /** The `$project` stage: the fields kept, the fields dropped, and where the score goes. */
  datatype ProjectStage = ProjectStage(kept: seq<string>, dropped: seq<string>, scoreField: string)

  datatype Pipeline = Pipeline(search: VectorSearchStage, project: ProjectStage)

  /** The aggregation pipeline of `search_result_for_llm`. */
  function SearchPipeline(indexName: string, queryVector: Embedding, topK: int): Pipeline {
    Pipeline(
      VectorSearchStage(indexName, "embedding", queryVector, topK * CandidateFactor, topK),
      ProjectStage(["text", "metadata"], ["_id"], "score"))
  }

  /** One search result after projection. */
  datatype SearchHit = SearchHit(text: string, metadata: map<string, PyValue>, score: real)

  /** A metadata field as printed: `metadata.get(key, "Unknown")`. */
  function FieldOr(metadata: map<string, PyValue>, key: string): string {
    if key in metadata then Show(metadata[key]) else "Unknown"
  }

  /** The citation line of the result ranked `i`. */
  function ContextLine(i: nat, hit: SearchHit): string {
    "[" + NatToString(i) + "] " + FieldOr(hit.metadata, "source") + " | " + FieldOr(hit.metadata, "header")
      + " | " + FieldOr(hit.metadata, "page") + ":" + Strip(hit.text) + " "
  }

  /** The citation lines of all results, ranked from 1 in result order. */
  function ContextLines(hits: seq<SearchHit>): (lines: seq<string>)
    ensures |lines| == |hits|
  {
    if hits == [] then [] else ContextLines(hits[..|hits| - 1]) + [ContextLine(|hits|, hits[|hits| - 1])]
  }

  /** The line at position `k` cites the result at position `k` under rank `k + 1`. */
  lemma {:induction false} ContextLinesRanks(hits: seq<SearchHit>, k: nat)
    requires k < |hits|
    ensures ContextLines(hits)[k] == ContextLine(k + 1, hits[k])
  {
    if k < |hits| - 1 {
      var init := hits[..|hits| - 1];
      ContextLinesRanks(init, k);
      assert init[k] == hits[k];
    }
  }

  /** `"\n\n".join` of the citation lines. */
  function Context(hits: seq<SearchHit>): string {
    Join(ContextLines(hits), "\n\n")
  }

  /** `search_result_for_llm`: embeds the query, runs the pipeline and formats the results.
      `embedQuery` stands for the embedding service and `aggregate` for the store's search. */
  method SearchResultForLlm(coll: Collection, query: string, topK: int, indexName: string,
                            embedQuery: string -> Embedding,
                            aggregate: (map<string, Record>, Pipeline) -> seq<SearchHit>)
    returns (context: string)
    ensures context == Context(aggregate(coll.documents, SearchPipeline(indexName, embedQuery(query), topK)))
  {
    var queryEmb := embedQuery(query);
    var pipeline := SearchPipeline(indexName, queryEmb, topK);
    var results := aggregate(coll.documents, pipeline);
    var lines: seq<string> := [];
    for i := 1 to |results| + 1
      invariant lines == ContextLines(results[..i - 1])
    {
      var result := results[i - 1];
      TakeOneMore(results, i);
      lines := lines + [ContextLine(i, result)];
    }
    TakeAll(results);
    context := Join(lines, "\n\n");
  }

  /** The pipeline asks for `top_k` results out of `20 * top_k` candidates, so a store that
      honours the limit yields at most `top_k` citation lines. */
  lemma AtMostTopKLines(indexName: string, queryVector: Embedding, topK: int, hits: seq<SearchHit>)
    requires |hits| <= SearchPipeline(indexName, queryVector, topK).search.limit
    ensures |ContextLines(hits)| <= topK
    ensures SearchPipeline(indexName, queryVector, topK).search.numCandidates == 20 * topK
  {
  }

  /** No results give the empty context; otherwise the context opens with the line of the
      first-ranked result, followed by the separator when more lines follow. */
  lemma ContextOpensWithTopResult(hits: seq<SearchHit>)
    ensures hits == [] ==> Context(hits) == ""
    ensures |hits| == 1 ==> Context(hits) == ContextLine(1, hits[0])
    ensures |hits| > 1 ==> Context(hits) == ContextLine(1, hits[0]) + "\n\n" + Join(ContextLines(hits)[1..], "\n\n")
  {
    if hits != [] {
      ContextLinesRanks(hits, 0);
    }
  }

  /** `"Unknown"` appears in place of a field only when the key is missing (or holds that very
      text); a stored `None` prints as `None`. */
  lemma UnknownOnlyWhenMissing(metadata: map<string, PyValue>, key: string)
    ensures FieldOr(metadata, key) == "Unknown" <==> key !in metadata || metadata[key] == PyStr("Unknown")
    ensures key in metadata && metadata[key] == PyNone ==> FieldOr(metadata, key) == "None"
  {
  }

  /** A record as the search projects it: its text and its metadata as a dictionary. */
  function Projected(r: Record, score: real): SearchHit {
    SearchHit(r.text, map[
      "source" := PyStr(r.metadata.source),
      "page" := r.metadata.page,
      "header" := r.metadata.header,
      "chunk_id" := PyStr(r.metadata.chunkId)], score)
  }

  /** For a record this pipeline wrote, the citation line never falls back to `"Unknown"`:
      it shows the file name, the header and page as stored, and the stripped text. */
  lemma StoredRecordLine(i: nat, r: Record, score: real)
    ensures ContextLine(i, Projected(r, score))
         == "[" + NatToString(i) + "] " + r.metadata.source + " | " + Show(r.metadata.header)
            + " | " + Show(r.metadata.page) + ":" + Strip(r.text) + " "
  {
    var m := Projected(r, score).metadata;
    assert "source" in m && m["source"] == PyStr(r.metadata.source);
    assert "header" in m && m["header"] == r.metadata.header;
    assert "page" in m && m["page"] == r.metadata.page;
  }
}
