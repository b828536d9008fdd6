/** Ingestion into and retrieval from the Pinecone vector index (`PineconeVectorStore`):
    the chunks of an uploaded document whose embedding succeeded become upsert records,
    which are sent in batches; a query keeps the matches that score above 0.4.

    The embedding service and the Pinecone query are calls into code that is not part of
    this model: they are parameters (`embed`, `query`). A Java `null` embedding is `None`. */
module VectorStore {
  import opened Wrappers
  import Chunker

  const BATCH_SIZE: nat := 96
  const CHUNK_SIZE: nat := 200
  const CHUNK_OVERLAP: nat := 50
  const TOP_K: nat := 20
  const SCORE_THRESHOLD: real := 0.4

  const PARSE_FAILED: string := "文件解析失败或内容为空"
  const UPLOAD_OK: string := "✅ 成功！已批量上传数据到 Pinecone。"
  const UPLOAD_FAILED: string := "❌ 上传失败: "

  type Vector = seq<real>

  /** A `VectorWithUnsignedIndices`: id, dense values and the metadata struct with the
      fields `material` (the chunk text) and `source` (the file name). */
  datatype UpsertRecord = UpsertRecord(id: string, values: Vector, material: string, source: string)

  /** One match of a Pinecone query: its score and its metadata fields. */
  datatype Match = Match(id: string, score: real, metadata: map<string, string>)

  /** `VectorSearchResult(text, score, source)`. */
  datatype VectorSearchResult = VectorSearchResult(text: string, score: real, source: string)

  // ---------------------------------------------------------------------------------------
  // Record ids: filename + "_part_" + i

  function Digit(d: nat): char
    requires d < 10
  {
    "0123456789"[d]
  }

  /** The decimal text of `n`, as Java prints an `int` in a string concatenation. */
  function NatToString(n: nat): (r: string)
    ensures |r| >= 1
    ensures n >= 10 ==> |r| >= 2
  {
    if n < 10 then [Digit(n)] else NatToString(n / 10) + [Digit(n % 10)]
  }

  /** Different numbers print differently. */
  lemma {:induction false} NatToStringInjective(a: nat, b: nat)
    requires NatToString(a) == NatToString(b)
    ensures a == b
  {
    var sa, sb := NatToString(a), NatToString(b);
    if a < 10 && b < 10 {
      assert sa[0] == Digit(a) && sb[0] == Digit(b);
    } else if a >= 10 && b >= 10 {
      assert sa[|sa| - 1] == Digit(a % 10) && sb[|sb| - 1] == Digit(b % 10);
      assert NatToString(a / 10) == sa[..|sa| - 1] == sb[..|sb| - 1] == NatToString(b / 10);
      NatToStringInjective(a / 10, b / 10);
    }
  }

  /** The id of the record for chunk `i` of `filename`. */
  function PartId(filename: string, i: nat): string
  {
    filename + "_part_" + NatToString(i)
  }

  /** Chunks with different indices get different ids. */
  lemma PartIdInjective(filename: string, i: nat, j: nat)
    requires PartId(filename, i) == PartId(filename, j)
    ensures i == j
  {
    var prefix := filename + "_part_";
    assert NatToString(i) == PartId(filename, i)[|prefix|..];
    assert NatToString(j) == PartId(filename, j)[|prefix|..];
    NatToStringInjective(i, j);
  }

  // ---------------------------------------------------------------------------------------
  // The upsert list built by `store`

  /** The upsert records for the first `n` chunks: one per chunk whose embedding is not
      `null`, in chunk order. */
  function UpsertEntries(filename: string, chunks: seq<string>, embed: string -> Option<Vector>, n: nat): seq<UpsertRecord>
    requires n <= |chunks|
  {
    if n == 0 then []
    else
      var rest := UpsertEntries(filename, chunks, embed, n - 1);
      match embed(chunks[n - 1])
      case Some(v) => rest + [UpsertRecord(PartId(filename, n - 1), v, chunks[n - 1], filename)]
      case None => rest
  }

  /** The indices below `n` of the chunks whose embedding succeeded, in increasing order. */
  function EmbeddedParts(chunks: seq<string>, embed: string -> Option<Vector>, n: nat): seq<nat>
    requires n <= |chunks|
  {
    if n == 0 then []
    else if embed(chunks[n - 1]).Some? then EmbeddedParts(chunks, embed, n - 1) + [n - 1]
    else EmbeddedParts(chunks, embed, n - 1)
  }

  /** `EmbeddedParts` lists exactly the chunks whose embedding succeeded, without repeats
      and in increasing order. */
  lemma {:induction false} EmbeddedPartsExact(chunks: seq<string>, embed: string -> Option<Vector>, n: nat)
    requires n <= |chunks|
    ensures var parts := EmbeddedParts(chunks, embed, n);
      && (forall p :: 0 <= p < |parts| ==> parts[p] < n && embed(chunks[parts[p]]).Some?)
      && (forall i :: 0 <= i < n && embed(chunks[i]).Some? ==> i in parts)
      && (forall p, q :: 0 <= p < q < |parts| ==> parts[p] < parts[q])
  {
    if n > 0 {
      EmbeddedPartsExact(chunks, embed, n - 1);
    }
  }

  /** Entry p of the upsert list is the record of the p-th chunk whose embedding succeeded:
      its id is `filename_part_i` with i that chunk's index, its values the embedding, its
      metadata the chunk text and the file name. */
  lemma {:induction false} UpsertEntriesAt(filename: string, chunks: seq<string>, embed: string -> Option<Vector>, n: nat)
    requires n <= |chunks|
    ensures var entries, parts := UpsertEntries(filename, chunks, embed, n), EmbeddedParts(chunks, embed, n);
      && |entries| == |parts|
      && forall p :: 0 <= p < |parts| ==>
           && parts[p] < |chunks| && embed(chunks[parts[p]]).Some?
           && entries[p] == UpsertRecord(PartId(filename, parts[p]), embed(chunks[parts[p]]).value, chunks[parts[p]], filename)
  {
    EmbeddedPartsExact(chunks, embed, n);
    if n > 0 {
      UpsertEntriesAt(filename, chunks, embed, n - 1);
    }
  }

  /** No two records of an upload share an id, since they come from different chunks. */
  lemma UpsertIdsDistinct(filename: string, chunks: seq<string>, embed: string -> Option<Vector>)
    ensures DistinctIds(UpsertEntries(filename, chunks, embed, |chunks|))
  {
    var entries := UpsertEntries(filename, chunks, embed, |chunks|);
    var parts := EmbeddedParts(chunks, embed, |chunks|);
    UpsertEntriesAt(filename, chunks, embed, |chunks|);
    EmbeddedPartsExact(chunks, embed, |chunks|);
    forall p, q | 0 <= p < q < |entries|
      ensures entries[p].id != entries[q].id
    {
      if entries[p].id == entries[q].id {
        PartIdInjective(filename, parts[p], parts[q]);
      }
    }
  }

  /** Ids are distinct within a batch. */
  ghost predicate DistinctIds(batch: seq<UpsertRecord>)
  {
    forall p, q :: 0 <= p < q < |batch| ==> batch[p].id != batch[q].id
  }

  // ---------------------------------------------------------------------------------------
  // Lists and the index

  /** A Java `ArrayList<VectorWithUnsignedIndices>`: a mutable list that several holders
      may share. */
  class VectorList {
    var items: seq<UpsertRecord>

    constructor ()
      ensures items == []
    {
      items := [];
    }

    method Add(r: UpsertRecord)
      modifies this
      ensures items == old(items) + [r]
    {
      items := items + [r];
    }
  }

  /** The records one upsert call writes: by id, the last record with that id wins. */
  function BatchMap(batch: seq<UpsertRecord>): map<string, UpsertRecord>
  {
    if batch == [] then map[]
    else BatchMap(batch[..|batch| - 1])[batch[|batch| - 1].id := batch[|batch| - 1]]
  }

  /** A batch with distinct ids writes exactly its records, under their ids. */
  lemma {:induction false} BatchMapContents(batch: seq<UpsertRecord>)
    requires DistinctIds(batch)
    ensures BatchMap(batch).Keys == set r | r in batch :: r.id
    ensures forall r :: r in batch ==> BatchMap(batch)[r.id] == r
  {
    if batch != [] {
      var init := batch[..|batch| - 1];
      assert DistinctIds(init);
      BatchMapContents(init);
      var last := batch[|batch| - 1];
      assert batch == init + [last];
      assert BatchMap(batch) == BatchMap(init)[last.id := last];
      forall r | r in batch
        ensures BatchMap(batch)[r.id] == r
      {
        if r != last {
          var p :| 0 <= p < |init| && init[p] == r;
          assert r.id != last.id;
        }
      }
    }
  }

  /** Upserting two lists one after the other writes what upserting their concatenation
      does. */
  lemma {:induction false} BatchMapAppend(x: seq<UpsertRecord>, y: seq<UpsertRecord>)
    ensures BatchMap(x + y) == BatchMap(x) + BatchMap(y)
  {
    if y != [] {
      var y' := y[..|y| - 1];
      assert (x + y)[..|x + y| - 1] == x + y';
      BatchMapAppend(x, y');
    } else {
      assert x + y == x;
    }
  }

  /** The Pinecone index namespace `zuel-finmind`: records by id. */
  class PineconeIndex {
    var records: map<string, UpsertRecord>

    constructor ()
      ensures records == map[]
    {
      records := map[];
    }

    /** `index.upsert(batch, NAMESPACE)`: insert or overwrite each record by id. */
    method Upsert(batch: seq<UpsertRecord>)
      modifies this
      ensures records == old(records) + BatchMap(batch)
    {
      records := records + BatchMap(batch);
    }
  }

  // ---------------------------------------------------------------------------------------
  // Batching, as written and as intended

  /** What the lists returned by `batches` hold once it returns: the input itself when it
      has at most 96 records; otherwise floor((n-1)/96) entries that all alias one list
      holding all n records. */
  function BatchPayloads(entries: seq<UpsertRecord>): (r: seq<seq<UpsertRecord>>)
  {
    if |entries| <= BATCH_SIZE then [entries]
    else seq((|entries| - 1) / BATCH_SIZE, _ => entries)
  }

  /** `batches` as written: the list itself for at most 96 records; otherwise one fresh list
      that receives every record and is added once per multiple of 96 below n, so the
      returned entries are floor((n-1)/96) references to that same list and the trailing
      records are never a batch of their own. */
  method Batches(vectors: VectorList) returns (batches: seq<VectorList>)
    ensures vectors.items == old(vectors.items)
    ensures |vectors.items| <= BATCH_SIZE ==> batches == [vectors]
    ensures |vectors.items| > BATCH_SIZE ==>
              && |batches| == (|vectors.items| - 1) / BATCH_SIZE
              && (forall k :: 0 <= k < |batches| ==> fresh(batches[k]) && batches[k] == batches[0])
    ensures |batches| == |BatchPayloads(vectors.items)|
    ensures forall k :: 0 <= k < |batches| ==> batches[k].items == BatchPayloads(vectors.items)[k]
  {
    batches := [];
    if |vectors.items| <= BATCH_SIZE {
      batches := batches + [vectors];
      return;
    }
    var batch := new VectorList();
    var i := 0;
    while i < |vectors.items|
      invariant 0 <= i <= |vectors.items|
      invariant batch.items == vectors.items[..i]
      invariant |batches| == if i == 0 then 0 else (i - 1) / BATCH_SIZE
      invariant forall k :: 0 <= k < |batches| ==> batches[k] == batch
      modifies batch
    {
      if i % BATCH_SIZE == 0 && i != 0 {
        batches := batches + [batch];
      }
      batch.Add(vectors.items[i]);
      i := i + 1;
    }
    assert vectors.items[..i] == vectors.items;
  }

  /** The batching as written never drops a record: each one is in the first batch, and
      there is always at least one batch. */
  lemma NoRecordLost(entries: seq<UpsertRecord>)
    ensures |BatchPayloads(entries)| >= 1
    ensures forall r :: r in entries ==> r in BatchPayloads(entries)[0]
  {
  }

  /** The batching as written breaks the batch-size limit and repeats records: 97 records
      go out as one batch of 97, and 193 records as two batches that each hold all 193. */
  lemma BatchesOversizeExample(entries: seq<UpsertRecord>)
    ensures |entries| == 97 ==> BatchPayloads(entries) == [entries] && |BatchPayloads(entries)[0]| > BATCH_SIZE
    ensures |entries| == 193 ==> BatchPayloads(entries) == [entries, entries]
  {
    if |entries| == 193 {
      assert (193 - 1) / BATCH_SIZE == 2;
    }
  }

  /** The evident intent of `batches`: consecutive slices of at most 96 records; a list of
      at most 96 records (even an empty one) is one batch. */
  function SplitIntoBatches(entries: seq<UpsertRecord>): (r: seq<seq<UpsertRecord>>)
    ensures |r| >= 1
    decreases |entries|
  {
    if |entries| <= BATCH_SIZE then [entries]
    else [entries[..BATCH_SIZE]] + SplitIntoBatches(entries[BATCH_SIZE..])
  }

  function Flatten(batches: seq<seq<UpsertRecord>>): seq<UpsertRecord>
  {
    if batches == [] then [] else batches[0] + Flatten(batches[1..])
  }

  /** The intended batching sends every record exactly once, in order, in batches of at most
      96, none empty unless the whole input is. */
  lemma {:induction false} SplitIntoBatchesSound(entries: seq<UpsertRecord>)
    ensures Flatten(SplitIntoBatches(entries)) == entries
    ensures forall k :: 0 <= k < |SplitIntoBatches(entries)| ==> |SplitIntoBatches(entries)[k]| <= BATCH_SIZE
    ensures entries != [] ==> forall k :: 0 <= k < |SplitIntoBatches(entries)| ==> SplitIntoBatches(entries)[k] != []
    decreases |entries|
  {
    var r := SplitIntoBatches(entries);
    if |entries| > BATCH_SIZE {
      var rest := entries[BATCH_SIZE..];
      SplitIntoBatchesSound(rest);
      assert r[1..] == SplitIntoBatches(rest);
      assert entries == entries[..BATCH_SIZE] + rest;
    } else {
      assert r[1..] == [];
    }
  }

  /** Upserting a list of batches in order. */
  function ApplyAll(records: map<string, UpsertRecord>, batches: seq<seq<UpsertRecord>>): map<string, UpsertRecord>
    decreases |batches|
  {
    if batches == [] then records else ApplyAll(records + BatchMap(batches[0]), batches[1..])
  }

  /** Upserting batches one by one writes what upserting their concatenation does. */
  lemma {:induction false} ApplyAllFlatten(records: map<string, UpsertRecord>, batches: seq<seq<UpsertRecord>>)
    ensures ApplyAll(records, batches) == records + BatchMap(Flatten(batches))
    decreases |batches|
  {
    if batches != [] {
      ApplyAllFlatten(records + BatchMap(batches[0]), batches[1..]);
      BatchMapAppend(batches[0], Flatten(batches[1..]));
    }
  }

  /** Once all upserts succeed, the index holds the same records whichever batching is
      used: the repeated lists of the code as written rewrite the same records. */
  lemma {:induction false} BatchingsAgreeOnSuccess(records: map<string, UpsertRecord>, entries: seq<UpsertRecord>)
    ensures ApplyAll(records, BatchPayloads(entries)) == records + BatchMap(entries)
    ensures ApplyAll(records, SplitIntoBatches(entries)) == records + BatchMap(entries)
  {
    SplitIntoBatchesSound(entries);
    ApplyAllFlatten(records, SplitIntoBatches(entries));
    RepeatedUpsert(records, entries, BatchPayloads(entries));
  }

  lemma {:induction false} RepeatedUpsert(records: map<string, UpsertRecord>, entries: seq<UpsertRecord>, batches: seq<seq<UpsertRecord>>)
    requires |batches| >= 1 && forall k :: 0 <= k < |batches| ==> batches[k] == entries
    ensures ApplyAll(records, batches) == records + BatchMap(entries)
    decreases |batches|
  {
    if |batches| > 1 {
      RepeatedUpsert(records + BatchMap(entries), entries, batches[1..]);
      assert records + BatchMap(entries) + BatchMap(entries) == records + BatchMap(entries);
    } else {
      assert batches[1..] == [];
    }
  }

  // ---------------------------------------------------------------------------------------
  // Search

  /** The matches that score strictly above 0.4, in their order. */
  function Kept(matches: seq<Match>): seq<Match>
  {
    if matches == [] then []
    else if matches[0].score > SCORE_THRESHOLD then [matches[0]] + Kept(matches[1..])
    else Kept(matches[1..])
  }

  /** The filter keeps exactly the matches above the threshold. */
  lemma {:induction false} KeptExactly(matches: seq<Match>)
    ensures forall m :: m in Kept(matches) <==> m in matches && m.score > SCORE_THRESHOLD
    ensures |Kept(matches)| <= |matches|
  {
    if matches != [] {
      KeptExactly(matches[1..]);
      assert forall m :: m in matches <==> m == matches[0] || m in matches[1..];
    }
  }

  /** The filter keeps the order of the matches: filtering a concatenation filters each
      part. */
  lemma {:induction false} KeptAppend(matches: seq<Match>, more: seq<Match>)
    ensures Kept(matches + more) == Kept(matches) + Kept(more)
  {
    var both := matches + more;
    if matches == [] {
      assert both == more;
    } else {
      assert both != [] && both[0] == matches[0] && both[1..] == matches[1..] + more;
      KeptAppend(matches[1..], more);
      if matches[0].score > SCORE_THRESHOLD {
        calc {
          Kept(both);
          [matches[0]] + Kept(matches[1..] + more);
          [matches[0]] + (Kept(matches[1..]) + Kept(more));
          ([matches[0]] + Kept(matches[1..])) + Kept(more);
        }
      }
    }
  }

  /** The mapping step: the `material` and `source` metadata fields and the score; a missing
      field makes `getStringValue` fail on `null`. */
  function ToResult(m: Match): Option<VectorSearchResult>
  {
    if "material" in m.metadata && "source" in m.metadata
    then Some(VectorSearchResult(m.metadata["material"], m.score, m.metadata["source"]))
    else None
  }

  function MapResults(matches: seq<Match>): Option<seq<VectorSearchResult>>
  {
    if matches == [] then Some([])
    else match (ToResult(matches[0]), MapResults(matches[1..]))
      case (Some(r), Some(rs)) => Some([r] + rs)
      case _ => None
  }

  /** The filter/map pipeline over the matches a query returned. */
  function SearchMatches(matches: seq<Match>): Option<seq<VectorSearchResult>>
  {
    MapResults(Kept(matches))
  }

  /** The pipeline succeeds exactly when every kept match has both metadata fields; its
      results are then the kept matches, one for one and in order, as (material, score,
      source), all scoring above 0.4. */
  lemma {:induction false} MapResultsExact(matches: seq<Match>)
    ensures MapResults(matches).Some? <==> forall i :: 0 <= i < |matches| ==> ToResult(matches[i]).Some?
    ensures MapResults(matches).Some? ==>
              && |MapResults(matches).value| == |matches|
              && forall i :: 0 <= i < |matches| ==> MapResults(matches).value[i] == ToResult(matches[i]).value
  {
    if matches != [] {
      MapResultsExact(matches[1..]);
      if !ToResult(matches[0]).Some? {
        assert !ToResult(matches[0]).Some?;
      } else if MapResults(matches[1..]).Some? {
        forall i | 0 <= i < |matches|
          ensures MapResults(matches).value[i] == ToResult(matches[i]).value
        {
          if i > 0 {
            assert matches[i] == matches[1..][i - 1];
          }
        }
      } else {
        var j :| 0 <= j < |matches[1..]| && !ToResult(matches[1..][j]).Some?;
        assert matches[j + 1] == matches[1..][j];
      }
    }
  }

  /** The pipeline answers exactly when every kept match has both metadata fields, and then
      one result per kept match, each scoring above 0.4. */
  lemma SearchMatchesScores(matches: seq<Match>)
    ensures var kept := Kept(matches);
      SearchMatches(matches).Some? <==> forall i :: 0 <= i < |kept| ==> ToResult(kept[i]).Some?
    ensures SearchMatches(matches).Some? ==>
              && |SearchMatches(matches).value| == |Kept(matches)| <= |matches|
              && forall r :: r in SearchMatches(matches).value ==> r.score > SCORE_THRESHOLD
  {
    var kept := Kept(matches);
    KeptExactly(matches);
    MapResultsExact(kept);
    if SearchMatches(matches).Some? {
      forall r | r in SearchMatches(matches).value
        ensures r.score > SCORE_THRESHOLD
      {
        var i :| 0 <= i < |kept| && SearchMatches(matches).value[i] == r;
        assert kept[i] in kept;
      }
    }
  }

  /** `search`: embed the question, ask the index for its 20 nearest records, keep those
      scoring above 0.4 and map them to results. `query` gives `None` when the index call
      throws (a network or API error, or a query without a vector); that exception is not
      caught. A kept match without both metadata fields fails the mapping. */
  function Search(question: string, embed: string -> Option<Vector>, query: (Vector, nat) -> Option<seq<Match>>): (r: Option<seq<VectorSearchResult>>)
    ensures embed(question).None? ==> r.None?
    ensures embed(question).Some? && query(embed(question).value, TOP_K).None? ==> r.None?
    ensures embed(question).Some? && query(embed(question).value, TOP_K).Some? ==>
      var kept := Kept(query(embed(question).value, TOP_K).value);
      && (r.Some? <==> forall i :: 0 <= i < |kept| ==> ToResult(kept[i]).Some?)
      && (r.Some? ==> |r.value| == |kept| && forall i :: 0 <= i < |kept| ==> r.value[i] == ToResult(kept[i]).value)
      && (r.Some? ==> forall x :: x in r.value ==> x.score > SCORE_THRESHOLD)
  {
    match embed(question)
    case None => None
    case Some(v) =>
      match query(v, TOP_K)
      case None => None
      case Some(matches) =>
        SearchMatchesScores(matches);
        MapResultsExact(Kept(matches));
        SearchMatches(matches)
  }

  /** A search answers only when the index query answered; when the index honours topK, it
      returns at most 20 results. */
  lemma SearchAtMostTopK(question: string, embed: string -> Option<Vector>, query: (Vector, nat) -> Option<seq<Match>>)
    requires Search(question, embed, query).Some?
    ensures embed(question).Some? && query(embed(question).value, TOP_K).Some?
    ensures |query(embed(question).value, TOP_K).value| <= TOP_K ==> |Search(question, embed, query).value| <= TOP_K
  {
    SearchMatchesScores(query(embed(question).value, TOP_K).value);
  }

  // ---------------------------------------------------------------------------------------
  // store

  /** Which upsert call, if any, throws, with the exception message. */
  datatype UpsertFailure = UpsertFailure(call: nat, message: string)

  /** What `store` answers and what the index then holds. */
  datatype StoreOutcome = StoreOutcome(message: string, records: map<string, UpsertRecord>)

  /** The upload loop over `payloads`: the calls before the failing one take effect, and the
      exception message is returned; without a failure every call takes effect. */
  function UploadOutcome(records: map<string, UpsertRecord>, payloads: seq<seq<UpsertRecord>>, failure: Option<UpsertFailure>): StoreOutcome
  {
    if failure.Some? && failure.value.call < |payloads|
    then StoreOutcome(UPLOAD_FAILED + failure.value.message, ApplyAll(records, payloads[..failure.value.call]))
    else StoreOutcome(UPLOAD_OK, ApplyAll(records, payloads))
  }

  /** The chunks `store` cuts the parsed text into. */
  function StoreChunks(content: string): seq<string>
  {
    Chunker.Chunks(Chunker.Normalize(content), CHUNK_SIZE, CHUNK_OVERLAP)
  }

  /** The records `store` builds for a document. */
  function StoreEntries(filename: string, content: string, embed: string -> Option<Vector>): seq<UpsertRecord>
  {
    var chunks := StoreChunks(content);
    UpsertEntries(filename, chunks, embed, |chunks|)
  }

  /** The whole of `store`: empty parsed text is refused before anything is sent. */
  function StoreResult(records: map<string, UpsertRecord>, filename: string, content: string,
                       embed: string -> Option<Vector>, failure: Option<UpsertFailure>): StoreOutcome
  {
    if content == [] then StoreOutcome(PARSE_FAILED, records)
    else UploadOutcome(records, BatchPayloads(StoreEntries(filename, content, embed)), failure)
  }

  /** Step 3 of `store`: one record per chunk whose embedding is not `null`. */
  method BuildUpsertList(filename: string, chunks: seq<string>, embed: string -> Option<Vector>) returns (upsertList: VectorList)
    ensures fresh(upsertList)
    ensures upsertList.items == UpsertEntries(filename, chunks, embed, |chunks|)
  {
    upsertList := new VectorList();
    var i := 0;
    while i < |chunks|
      invariant 0 <= i <= |chunks|
      invariant upsertList.items == UpsertEntries(filename, chunks, embed, i)
    {
      var vector := embed(chunks[i]);
      if vector.Some? {
        upsertList.Add(UpsertRecord(PartId(filename, i), vector.value, chunks[i], filename));
      }
      i := i + 1;
    }
  }

  class PineconeVectorStore {
    const index: PineconeIndex

    constructor (index: PineconeIndex)
      ensures this.index == index
    {
      this.index := index;
    }

    /** `store`: cut the parsed text into chunks of 200 overlapping by 50, embed each, build
        one record per chunk whose embedding is not `null`, batch the list and upsert the
        batches in order. `content` is what the document parser returned and `failure` says
        which upsert call, if any, throws. */
    method Store(filename: string, content: string, embed: string -> Option<Vector>, failure: Option<UpsertFailure>)
      returns (message: string)
      modifies index
      ensures StoreOutcome(message, index.records) == StoreResult(old(index.records), filename, content, embed, failure)
    {
      if |content| == 0 {
        return PARSE_FAILED;
      }
      var chunks := Chunker.SplitText(content, CHUNK_SIZE, CHUNK_OVERLAP);
      var upsertList := BuildUpsertList(filename, chunks, embed);
      var batches := Batches(upsertList);
      message := Upload(batches, BatchPayloads(upsertList.items), failure);
    }

    /** Step 4 of `store`: upsert the batches in order; the first exception ends the loop. */
    method Upload(batches: seq<VectorList>, ghost payloads: seq<seq<UpsertRecord>>, failure: Option<UpsertFailure>)
      returns (message: string)
      requires |batches| == |payloads|
      requires forall k :: 0 <= k < |batches| ==> batches[k].items == payloads[k]
      modifies index
      ensures StoreOutcome(message, index.records) == UploadOutcome(old(index.records), payloads, failure)
    {
      var j := 0;
      while j < |batches|
        invariant 0 <= j <= |batches|
        invariant index.records == ApplyAll(old(index.records), payloads[..j])
        invariant !(failure.Some? && failure.value.call < j)
      {
        if failure.Some? && failure.value.call == j {
          return UPLOAD_FAILED + failure.value.message;
        }
        index.Upsert(batches[j].items);
        ApplyAllSnoc(old(index.records), payloads[..j], payloads[j]);
        assert payloads[..j + 1] == payloads[..j] + [payloads[j]];
        j := j + 1;
      }
      assert payloads[..j] == payloads;
      return UPLOAD_OK;
    }
  }

  lemma {:induction false} ApplyAllSnoc(records: map<string, UpsertRecord>, batches: seq<seq<UpsertRecord>>, last: seq<UpsertRecord>)
    ensures ApplyAll(records, batches + [last]) == ApplyAll(records, batches) + BatchMap(last)
    decreases |batches|
  {
    if batches != [] {
      ApplyAllSnoc(records + BatchMap(batches[0]), batches[1..], last);
      assert (batches + [last])[1..] == batches[1..] + [last];
    } else {
      assert [last][1..] == [];
    }
  }

  /** Empty parsed text: the refusal message, and nothing is written. */
  lemma StoreEmptyContent(records: map<string, UpsertRecord>, filename: string, embed: string -> Option<Vector>, failure: Option<UpsertFailure>)
    ensures StoreResult(records, filename, [], embed, failure) == StoreOutcome(PARSE_FAILED, records)
  {
  }

  /** A successful upload leaves every record of the document in the index under its id,
      and every other record as it was. */
  lemma StoreSuccess(records: map<string, UpsertRecord>, filename: string, content: string, embed: string -> Option<Vector>)
    requires content != []
    ensures var entries := StoreEntries(filename, content, embed);
      var outcome := StoreResult(records, filename, content, embed, None);
      && outcome.message == UPLOAD_OK
      && (forall r :: r in entries ==> r.id in outcome.records && outcome.records[r.id] == r)
      && (forall id :: id in records && id !in BatchMap(entries) ==> id in outcome.records && outcome.records[id] == records[id])
  {
    var chunks := StoreChunks(content);
    var entries := StoreEntries(filename, content, embed);
    UpsertIdsDistinct(filename, chunks, embed);
    BatchMapContents(entries);
    BatchingsAgreeOnSuccess(records, entries);
  }

  /** A failing upsert returns its message; because every batch of the code as written
      holds the whole list, a failure on the first call leaves the index as it was and a
      failure on any later call leaves every record written. */
  lemma StoreFailure(records: map<string, UpsertRecord>, filename: string, content: string, embed: string -> Option<Vector>, failure: UpsertFailure)
    requires content != []
    requires failure.call < |BatchPayloads(StoreEntries(filename, content, embed))|
    ensures var outcome := StoreResult(records, filename, content, embed, Some(failure));
      && outcome.message == UPLOAD_FAILED + failure.message
      && outcome.records == if failure.call == 0 then records else records + BatchMap(StoreEntries(filename, content, embed))
  {
    var entries := StoreEntries(filename, content, embed);
    var payloads := BatchPayloads(entries);
    if failure.call > 0 {
      RepeatedUpsert(records, entries, payloads[..failure.call]);
    }
  }
}
