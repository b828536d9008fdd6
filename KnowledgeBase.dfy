/** The in-memory knowledge map (`KnowledgeBaseService`): texts with their embeddings, and a
    search that returns the stored text most similar to a question when it is similar
    enough.

    The embedding service and the similarity score are parameters: `embed` gives a text's
    embedding (`None` for `null`), `similarity` the cosine score of two vectors of equal
    length. The map's iteration order is not fixed by the code; `search` receives it as
    `order`, a listing of the keys without repeats. */
module KnowledgeBase {
  import opened Wrappers

  type Vector = seq<real>

  const SCORE_THRESHOLD: real := 0.4
  const EMBED_FAILED: string := "检索失败"
  const NOT_FOUND: string := "未找到相关知识"
  /** The length of the key prefix `search` prints for every entry. */
  const PRINTED_PREFIX: nat := 5

  // ---------------------------------------------------------------------------------------
  // addDocument

  /** The store after `addDocument(text)`: unchanged when the text is already there or its
      embedding is `null`, otherwise extended by `text ↦ embedding`. */
  function Added(store: map<string, Vector>, text: string, embed: string -> Option<Vector>): map<string, Vector>
  {
    if text in store then store
    else match embed(text)
      case None => store
      case Some(v) => store[text := v]
  }

  /** Adding a text twice is adding it once. */
  lemma AddIdempotent(store: map<string, Vector>, text: string, embed: string -> Option<Vector>)
    ensures Added(Added(store, text, embed), text, embed) == Added(store, text, embed)
  {
  }

  /** Adding never removes or changes another entry; a new text with an embedding is added
      with exactly that embedding, and a present text keeps its vector. */
  lemma AddOnlyInserts(store: map<string, Vector>, text: string, embed: string -> Option<Vector>)
    ensures var after := Added(store, text, embed);
      && (forall k :: k in store ==> k in after && after[k] == store[k])
      && after.Keys <= store.Keys + {text}
      && (text !in store && embed(text).Some? ==> text in after && after[text] == embed(text).value)
      && (embed(text).None? ==> after == store)
  {
  }

  // ---------------------------------------------------------------------------------------
  // search

  /** The iteration order of the map: every key once. */
  ghost predicate IsOrder(order: seq<string>, store: map<string, Vector>)
  {
    && (forall i :: 0 <= i < |order| ==> order[i] in store)
    && (forall k :: k in store ==> k in order)
    && (forall i, j :: 0 <= i < j < |order| ==> order[i] != order[j])
  }

  /** An entry makes the scan throw: the score rejects vectors of different lengths, and the
      debug line takes the first `minKey` characters of the key (5 in the code). */
  predicate Rejects(store: map<string, Vector>, queryVector: Vector, key: string, minKey: nat)
    requires key in store
  {
    |store[key]| != |queryVector| || |key| < minKey
  }

  /** The first key in `order` whose entry makes `search` throw. */
  function FirstRejected(order: seq<string>, store: map<string, Vector>, queryVector: Vector, minKey: nat): Option<string>
    requires forall i :: 0 <= i < |order| ==> order[i] in store
  {
    if order == [] then None
    else
      var last := order[|order| - 1];
      match FirstRejected(order[..|order| - 1], store, queryVector, minKey)
      case Some(k) => Some(k)
      case None => if Rejects(store, queryVector, last, minKey) then Some(last) else None
  }

  /** The running maximum and the key that first reached it. */
  datatype Scan = Scan(maxScore: real, bestMatch: Option<string>)

  /** The scan of `order`, starting from -1 and keeping a key only when it scores strictly
      more than the maximum so far. */
  function ScanFrom(order: seq<string>, store: map<string, Vector>, queryVector: Vector, similarity: (Vector, Vector) -> real): (r: Scan)
    requires forall i :: 0 <= i < |order| ==> order[i] in store
    ensures r.bestMatch.Some? <==> r.maxScore > -1.0
    ensures r.bestMatch.None? ==> r.maxScore == -1.0
  {
    if order == [] then Scan(-1.0, None)
    else
      var previous := ScanFrom(order[..|order| - 1], store, queryVector, similarity);
      var last := order[|order| - 1];
      var score := similarity(queryVector, store[last]);
      if score > previous.maxScore then Scan(score, Some(last)) else previous
  }

  /** The search over a store, an embedding, a score and an iteration order, when keys
      shorter than `minKey` make the scan throw. */
  function SearchWith(store: map<string, Vector>, query: string, embed: string -> Option<Vector>,
                      similarity: (Vector, Vector) -> real, order: seq<string>, minKey: nat): Result<string, string>
    requires IsOrder(order, store)
  {
    match embed(query)
    case None => Success(EMBED_FAILED)
    case Some(q) =>
      match FirstRejected(order, store, q, minKey)
      case Some(k) => Failure(k)
      case None =>
        var scan := ScanFrom(order, store, q, similarity);
        Success(if scan.maxScore > SCORE_THRESHOLD then scan.bestMatch.value else NOT_FOUND)
  }

  /** `search` as written: a key shorter than 5 characters throws in the debug line. */
  function SearchResult(store: map<string, Vector>, query: string, embed: string -> Option<Vector>,
                        similarity: (Vector, Vector) -> real, order: seq<string>): Result<string, string>
    requires IsOrder(order, store)
  {
    SearchWith(store, query, embed, similarity, order, PRINTED_PREFIX)
  }

  /** `search` as evidently intended: the debug line never makes the search fail, so only a
      vector of another length does. */
  function IntendedSearch(store: map<string, Vector>, query: string, embed: string -> Option<Vector>,
                          similarity: (Vector, Vector) -> real, order: seq<string>): Result<string, string>
    requires IsOrder(order, store)
  {
    SearchWith(store, query, embed, similarity, order, 0)
  }

  class KnowledgeBaseService {
    var vectorStore: map<string, Vector>

    constructor ()
      ensures vectorStore == map[]
    {
      vectorStore := map[];
    }

    /** `addDocument`: skip a text already stored, else store it with its embedding when
        there is one. */
    method AddDocument(text: string, embed: string -> Option<Vector>)
      modifies this
      ensures vectorStore == Added(old(vectorStore), text, embed)
    {
      if text in vectorStore {
        return;
      }
      var vector := embed(text);
      if vector.Some? {
        vectorStore := vectorStore[text := vector.value];
      }
    }

    /** `search`: embed the question, score every entry in iteration order keeping the first
        maximum, and answer the best text when its score is above 0.4. A failure carries the
        key of the entry on which the scan threw. */
    method Search(query: string, embed: string -> Option<Vector>, similarity: (Vector, Vector) -> real, order: seq<string>)
      returns (result: Result<string, string>)
      requires IsOrder(order, vectorStore)
      ensures result == SearchResult(vectorStore, query, embed, similarity, order)
    {
      var queryVector := embed(query);
      if queryVector.None? {
        return Success(EMBED_FAILED);
      }
      var q := queryVector.value;
      var bestMatch: Option<string> := None;
      var maxScore: real := -1.0;
      var i := 0;
      while i < |order|
        invariant 0 <= i <= |order|
        invariant FirstRejected(order[..i], vectorStore, q, PRINTED_PREFIX) == None
        invariant Scan(maxScore, bestMatch) == ScanFrom(order[..i], vectorStore, q, similarity)
      {
        var key := order[i];
        assert order[..i + 1][..i] == order[..i] && order[..i + 1][i] == key;
        var value := vectorStore[key];
        if |value| != |q| {
          FirstRejectedPrefix(order, vectorStore, q, PRINTED_PREFIX, i + 1);
          return Failure(key);
        }
        var score := similarity(q, value);
        if |key| < PRINTED_PREFIX {
          FirstRejectedPrefix(order, vectorStore, q, PRINTED_PREFIX, i + 1);
          return Failure(key);
        }
        if score > maxScore {
          maxScore := score;
          bestMatch := Some(key);
        }
        i := i + 1;
      }
      assert order[..i] == order;
      result := Success(if maxScore > SCORE_THRESHOLD then bestMatch.value else NOT_FOUND);
    }
  }

  /** Once a prefix of the order has thrown, the whole scan throws at the same key. */
  lemma {:induction false} FirstRejectedPrefix(order: seq<string>, store: map<string, Vector>, queryVector: Vector, minKey: nat, n: nat)
    requires n <= |order| && forall i :: 0 <= i < |order| ==> order[i] in store
    requires FirstRejected(order[..n], store, queryVector, minKey).Some?
    ensures FirstRejected(order, store, queryVector, minKey) == FirstRejected(order[..n], store, queryVector, minKey)
    decreases |order| - n
  {
    if n < |order| {
      var init := order[..|order| - 1];
      assert init[..n] == order[..n];
      FirstRejectedPrefix(init, store, queryVector, minKey, n);
    } else {
      assert order[..n] == order;
    }
  }

  // ---------------------------------------------------------------------------------------
  // Properties of search

  /** The scan throws exactly when some stored entry is rejected, whatever the iteration
      order: for `search`, a vector of another length than the question's or a key shorter
      than 5 characters. */
  lemma {:induction false} RejectedExactly(order: seq<string>, store: map<string, Vector>, queryVector: Vector, minKey: nat)
    requires forall i :: 0 <= i < |order| ==> order[i] in store
    ensures FirstRejected(order, store, queryVector, minKey).Some? <==>
              exists i :: 0 <= i < |order| && Rejects(store, queryVector, order[i], minKey)
    ensures FirstRejected(order, store, queryVector, minKey).Some? ==>
              FirstRejected(order, store, queryVector, minKey).value in order
              && Rejects(store, queryVector, FirstRejected(order, store, queryVector, minKey).value, minKey)
  {
    if order != [] {
      var init := order[..|order| - 1];
      RejectedExactly(init, store, queryVector, minKey);
      if FirstRejected(init, store, queryVector, minKey).Some? {
        var i :| 0 <= i < |init| && Rejects(store, queryVector, init[i], minKey);
        assert order[i] == init[i];
      }
      if exists i :: 0 <= i < |order| && Rejects(store, queryVector, order[i], minKey) {
        var i :| 0 <= i < |order| && Rejects(store, queryVector, order[i], minKey);
        if i < |init| {
          assert init[i] == order[i];
        }
      }
    }
  }

  /** The scan keeps the maximum of -1 and all scores, and the first key in the order that
      reaches it. */
  lemma {:induction false} ScanFindsFirstMaximum(order: seq<string>, store: map<string, Vector>, queryVector: Vector, similarity: (Vector, Vector) -> real)
    requires forall i :: 0 <= i < |order| ==> order[i] in store
    ensures var scan := ScanFrom(order, store, queryVector, similarity);
      && (forall i :: 0 <= i < |order| ==> similarity(queryVector, store[order[i]]) <= scan.maxScore)
      && (scan.bestMatch.Some? ==>
            exists i :: 0 <= i < |order| && order[i] == scan.bestMatch.value
              && similarity(queryVector, store[order[i]]) == scan.maxScore
              && forall j :: 0 <= j < i ==> similarity(queryVector, store[order[j]]) < scan.maxScore)
  {
    if order != [] {
      var init := order[..|order| - 1];
      ScanFindsFirstMaximum(init, store, queryVector, similarity);
      var previous := ScanFrom(init, store, queryVector, similarity);
      var scan := ScanFrom(order, store, queryVector, similarity);
      forall i | 0 <= i < |init|
        ensures order[i] == init[i]
      {
      }
      if scan != previous {
        var n := |order| - 1;
        assert order[n] == scan.bestMatch.value;
        assert forall j :: 0 <= j < n ==> similarity(queryVector, store[order[j]]) < scan.maxScore;
      } else if scan.bestMatch.Some? {
        var i :| 0 <= i < |init| && init[i] == scan.bestMatch.value
          && similarity(queryVector, store[init[i]]) == scan.maxScore
          && forall j :: 0 <= j < i ==> similarity(queryVector, store[init[j]]) < scan.maxScore;
        assert order[i] == init[i];
      }
    }
  }

  /** Whether anything is found does not depend on the iteration order: every order reaches
      the same maximum. Only the choice among keys tied for the maximum does. */
  lemma MaximumOrderFree(o1: seq<string>, o2: seq<string>, store: map<string, Vector>, queryVector: Vector, similarity: (Vector, Vector) -> real)
    requires IsOrder(o1, store) && IsOrder(o2, store)
    ensures ScanFrom(o1, store, queryVector, similarity).maxScore == ScanFrom(o2, store, queryVector, similarity).maxScore
  {
    ScanFindsFirstMaximum(o1, store, queryVector, similarity);
    ScanFindsFirstMaximum(o2, store, queryVector, similarity);
    var s1, s2 := ScanFrom(o1, store, queryVector, similarity), ScanFrom(o2, store, queryVector, similarity);
    if s1.bestMatch.Some? {
      var i :| 0 <= i < |o1| && o1[i] == s1.bestMatch.value && similarity(queryVector, store[o1[i]]) == s1.maxScore;
      assert o1[i] in o2;
    }
    if s2.bestMatch.Some? {
      var i :| 0 <= i < |o2| && o2[i] == s2.bestMatch.value && similarity(queryVector, store[o2[i]]) == s2.maxScore;
      assert o2[i] in o1;
    }
  }

  /** The answers of the search: the failure text without a question embedding; a failure
      exactly when some entry is rejected, naming one; otherwise the stored text scoring
      highest, the first of equals in the order, when some score is above 0.4, and the
      not-found text when none is (always for an empty store). */
  lemma SearchAnswers(store: map<string, Vector>, query: string, embed: string -> Option<Vector>,
                      similarity: (Vector, Vector) -> real, order: seq<string>, minKey: nat)
    requires IsOrder(order, store)
    ensures embed(query).None? ==> SearchWith(store, query, embed, similarity, order, minKey) == Success(EMBED_FAILED)
    ensures embed(query).Some? ==>
      var q, r := embed(query).value, SearchWith(store, query, embed, similarity, order, minKey);
      && (r.Failure? <==> exists k :: k in store && Rejects(store, q, k, minKey))
      && (r.Failure? ==> r.error in store && Rejects(store, q, r.error, minKey))
      && (r.Success? && (forall k :: k in store ==> similarity(q, store[k]) <= SCORE_THRESHOLD) ==> r.value == NOT_FOUND)
      && (r.Success? && (exists k :: k in store && similarity(q, store[k]) > SCORE_THRESHOLD) ==>
            && r.value in store
            && similarity(q, store[r.value]) > SCORE_THRESHOLD
            && (forall k :: k in store ==> similarity(q, store[k]) <= similarity(q, store[r.value]))
            && exists i :: 0 <= i < |order| && order[i] == r.value
                 && forall j :: 0 <= j < i ==> similarity(q, store[order[j]]) < similarity(q, store[r.value]))
  {
    if embed(query).Some? {
      var q := embed(query).value;
      RejectedExactly(order, store, q, minKey);
      ScanFindsFirstMaximum(order, store, q, similarity);
      if exists k :: k in store && Rejects(store, q, k, minKey) {
        var k :| k in store && Rejects(store, q, k, minKey);
        assert k in order;
      }
      if exists k :: k in store && similarity(q, store[k]) > SCORE_THRESHOLD {
        var k :| k in store && similarity(q, store[k]) > SCORE_THRESHOLD;
        assert k in order;
      }
    }
  }

  /** A stored text shorter than 5 characters makes every search with a question embedding
      throw as written, though the evidently intended search answers it. */
  lemma ShortKeyBreaksSearch()
    ensures var store, embed, similarity := map["ZUEL" := [1.0]], (_: string) => Some([1.0]), (_: Vector, _: Vector) => 1.0;
      && SearchResult(store, "x", embed, similarity, ["ZUEL"]) == Failure("ZUEL")
      && IntendedSearch(store, "x", embed, similarity, ["ZUEL"]) == Success("ZUEL")
  {
    var store: map<string, Vector> := map["ZUEL" := [1.0]];
    var embed := (_: string) => Some([1.0]);
    var similarity := (_: Vector, _: Vector) => 1.0;
    var order := ["ZUEL"];
    assert order[..0] == [];
    assert FirstRejected(order, store, [1.0], PRINTED_PREFIX) == Some("ZUEL");
    assert FirstRejected(order, store, [1.0], 0) == None;
    assert ScanFrom(order, store, [1.0], similarity) == Scan(1.0, Some("ZUEL"));
  }
}
