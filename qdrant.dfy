/**
 The search-result and storage helpers of the vector store client (qdrant.go):
 merging keyword and semantic hits, re-ranking hits by a blended score,
 batching texts for the embeddings endpoint and placing the vectors it
 returns, the overlapping page windows and the filter applied before pages
 are stored.  The HTTP calls and the JSON coding are left out: the embeddings
 endpoint is a function passed in, and a blended score is an abstract integer
 key computed by the caller.
 */
module Qdrant {
  import opened Wrappers
  import opened Strings
  import opened Extract

  /** QdrantPage: the payload stored with every vector. */
  datatype QdrantPage = QdrantPage(username: string, text: string, pageNum: int, docName: string)

  /** SearchResult; `score` is an ordered key standing for the float32 score. */
  datatype SearchResult = SearchResult(id: string, score: int, payload: QdrantPage)

  /** The ids of `rs`. */
  function Ids(rs: seq<SearchResult>): set<string>
    decreases |rs|
  {
    if rs == [] then {} else Ids(rs[..|rs| - 1]) + {rs[|rs| - 1].id}
  }

  // ---------------------------------------------------------------------------
  // combineSearchResults
  // ---------------------------------------------------------------------------

  /** The combined list after offering each of `rs` in turn: a result is taken
      when its id is new and the list is still below the limit. */
  function Combine(rs: seq<SearchResult>, limit: int): seq<SearchResult>
    decreases |rs|
  {
    if rs == [] then []
    else
      var c := Combine(rs[..|rs| - 1], limit);
      var r := rs[|rs| - 1];
      if r.id !in Ids(c) && |c| < limit then c + [r] else c
  }

  /** One offered result: the body shared by both loops of combineSearchResults. */
  method Offer(r: SearchResult, limit: int, combined: seq<SearchResult>, seen: set<string>)
    returns (combined': seq<SearchResult>, seen': set<string>)
    requires seen == Ids(combined)
    ensures seen' == Ids(combined')
    ensures combined' == if r.id !in Ids(combined) && |combined| < limit then combined + [r] else combined
    ensures forall offered :: combined == Combine(offered, limit) ==> combined' == Combine(offered + [r], limit)
  {
    forall offered | combined == Combine(offered, limit)
      ensures Combine(offered + [r], limit) == if r.id !in Ids(combined) && |combined| < limit then combined + [r] else combined
    {
      CombineSnoc(offered, r, limit);
    }
    combined', seen' := combined, seen;
    if r.id !in seen && |combined| < limit {
      combined' := combined + [r];
      seen' := seen + {r.id};
      assert combined'[..|combined|] == combined;
    }
  }

  /** One loop of combineSearchResults, over the results `src` that follow `prior`. */
  method OfferAll(prior: seq<SearchResult>, src: seq<SearchResult>, limit: int, combined: seq<SearchResult>, seen: set<string>)
    returns (combined': seq<SearchResult>, seen': set<string>)
    requires seen == Ids(combined) && combined == Combine(prior, limit)
    ensures seen' == Ids(combined') && combined' == Combine(prior + src, limit)
  {
    combined', seen' := combined, seen;
    assert prior + src[..0] == prior;
    for i := 0 to |src|
      invariant seen' == Ids(combined')
      invariant combined' == Combine(prior + src[..i], limit)
    {
      SnocSlice(prior, src, i);
      combined', seen' := Offer(src[i], limit, combined', seen');
    }
    assert src[..|src|] == src;
  }

  lemma CombineSnoc(rs: seq<SearchResult>, r: SearchResult, limit: int)
    ensures Combine(rs + [r], limit) == if r.id !in Ids(Combine(rs, limit)) && |Combine(rs, limit)| < limit
                                        then Combine(rs, limit) + [r] else Combine(rs, limit)
  {
    assert (rs + [r])[..|rs|] == rs;
  }

  lemma SnocSlice<T>(prior: seq<T>, src: seq<T>, i: nat)
    requires i < |src|
    ensures prior + src[..i + 1] == (prior + src[..i]) + [src[i]]
  {
    assert src[..i + 1] == src[..i] + [src[i]];
  }

  /** combineSearchResults: keyword hits first, then semantic ones. */
  method CombineSearchResults(keywordResults: seq<SearchResult>, semanticResults: seq<SearchResult>, limit: int)
    returns (combined: seq<SearchResult>)
    ensures combined == Combine(keywordResults + semanticResults, limit)
  {
    var seen: set<string> := {};
    combined := [];
    combined, seen := OfferAll([], keywordResults, limit, combined, seen);
    assert [] + keywordResults == keywordResults;
    combined, seen := OfferAll(keywordResults, semanticResults, limit, combined, seen);
  }

  /** `r` is `s` with some elements left out, the rest in their order. */
  ghost predicate Subsequence<T>(r: seq<T>, s: seq<T>)
    decreases |s|
  {
    if r == [] then true
    else if s == [] then false
    else (r[|r| - 1] == s[|s| - 1] && Subsequence(r[..|r| - 1], s[..|s| - 1])) || Subsequence(r, s[..|s| - 1])
  }

  lemma IdsSpec(rs: seq<SearchResult>)
    ensures forall id :: id in Ids(rs) <==> exists k :: 0 <= k < |rs| && rs[k].id == id
    decreases |rs|
  {
    if rs != [] {
      IdsSpec(rs[..|rs| - 1]);
      assert forall k :: 0 <= k < |rs| - 1 ==> rs[..|rs| - 1][k] == rs[k];
    }
  }

  /** The ids of `rs` are pairwise distinct. */
  predicate DistinctIds(rs: seq<SearchResult>) {
    forall j, k :: 0 <= j < k < |rs| ==> rs[j].id != rs[k].id
  }

  /** combineSearchResults returns at most `limit` results. */
  lemma {:induction false} CombineBound(rs: seq<SearchResult>, limit: int)
    ensures |Combine(rs, limit)| <= if limit < 0 then 0 else limit
    decreases |rs|
  {
    if rs != [] {
      CombineBound(rs[..|rs| - 1], limit);
    }
  }

  /** Their ids are pairwise distinct. */
  lemma {:induction false} CombineDistinct(rs: seq<SearchResult>, limit: int)
    ensures DistinctIds(Combine(rs, limit))
    decreases |rs|
  {
    if rs != [] {
      var c := Combine(rs[..|rs| - 1], limit);
      var r := rs[|rs| - 1];
      CombineDistinct(rs[..|rs| - 1], limit);
      if r.id !in Ids(c) && |c| < limit {
        IdsSpec(c);
        var c' := c + [r];
        forall j, k | 0 <= j < k < |c'|
          ensures c'[j].id != c'[k].id
        {
          assert c'[j] == c[j];
          if k < |c| {
            assert c'[k] == c[k];
          }
        }
      }
    }
  }

  /** They keep the order they had in the input: keyword hits, then semantic hits. */
  lemma {:induction false} CombineInOrder(rs: seq<SearchResult>, limit: int)
    ensures Subsequence(Combine(rs, limit), rs)
    decreases |rs|
  {
    if rs != [] {
      var front := rs[..|rs| - 1];
      var c := Combine(front, limit);
      CombineInOrder(front, limit);
      if Combine(rs, limit) != c {
        assert Combine(rs, limit)[..|c|] == c;
      } else if c != [] {
        SubsequenceExtend(c, front, rs[|rs| - 1]);
      }
    }
  }

  lemma {:induction false} SubsequenceExtend<T>(r: seq<T>, s: seq<T>, x: T)
    requires Subsequence(r, s)
    ensures Subsequence(r, s + [x])
  {
    if r != [] {
      assert (s + [x])[..|s|] == s;
    }
  }

  /** An input result whose id is missing from the output was dropped only
      because the limit was reached. */
  lemma {:induction false} CombineMaximal(rs: seq<SearchResult>, limit: int)
    ensures forall k :: 0 <= k < |rs| ==> rs[k].id in Ids(Combine(rs, limit)) || |Combine(rs, limit)| >= limit
    decreases |rs|
  {
    if rs != [] {
      var front := rs[..|rs| - 1];
      var c := Combine(front, limit);
      CombineMaximal(front, limit);
      IdsSpec(c);
      IdsSpec(Combine(rs, limit));
      forall k | 0 <= k < |rs|
        ensures rs[k].id in Ids(Combine(rs, limit)) || |Combine(rs, limit)| >= limit
      {
        if k < |front| {
          assert rs[k] == front[k];
          if Combine(rs, limit) != c {
            assert Combine(rs, limit)[..|c|] == c;
            if rs[k].id in Ids(c) {
              var m :| 0 <= m < |c| && c[m].id == rs[k].id;
              assert Combine(rs, limit)[m] == c[m];
            }
          }
        } else if Combine(rs, limit) != c {
          assert Combine(rs, limit)[|c|] == rs[k];
        }
      }
    }
  }

  /** Every output result is one of the inputs. */
  lemma {:induction false} CombineFromInput(rs: seq<SearchResult>, limit: int)
    ensures forall k :: 0 <= k < |Combine(rs, limit)| ==> Combine(rs, limit)[k] in rs
    decreases |rs|
  {
    if rs != [] {
      var front := rs[..|rs| - 1];
      CombineFromInput(front, limit);
      assert forall x :: x in front ==> x in rs;
    }
  }

  /** Keyword hits whose ids are distinct and within the limit all come back,
      in their order, ahead of any semantic hit. */
  lemma {:induction false} CombineKeepsKeywordPrefix(keywordResults: seq<SearchResult>, semanticResults: seq<SearchResult>, limit: int)
    requires DistinctIds(keywordResults) && |keywordResults| <= limit
    ensures |Combine(keywordResults + semanticResults, limit)| >= |keywordResults|
    ensures Combine(keywordResults + semanticResults, limit)[..|keywordResults|] == keywordResults
    decreases |semanticResults|
  {
    var all := keywordResults + semanticResults;
    if semanticResults == [] {
      assert all == keywordResults;
      CombineAll(keywordResults, limit);
    } else {
      var front := semanticResults[..|semanticResults| - 1];
      assert all[..|all| - 1] == keywordResults + front;
      CombineKeepsKeywordPrefix(keywordResults, front, limit);
      CombineGrows(all, limit);
    }
  }

  /** Distinct results within the limit are all taken. */
  lemma {:induction false} CombineAll(rs: seq<SearchResult>, limit: int)
    requires DistinctIds(rs) && |rs| <= limit
    ensures Combine(rs, limit) == rs
    decreases |rs|
  {
    if rs != [] {
      var front := rs[..|rs| - 1];
      CombineAll(front, limit);
      IdsSpec(front);
      assert rs[|rs| - 1].id !in Ids(front);
    }
  }

  /** Offering one more result only appends. */
  lemma CombineGrows(rs: seq<SearchResult>, limit: int)
    requires rs != []
    ensures |Combine(rs[..|rs| - 1], limit)| <= |Combine(rs, limit)|
    ensures Combine(rs, limit)[..|Combine(rs[..|rs| - 1], limit)|] == Combine(rs[..|rs| - 1], limit)
  {
    var c := Combine(rs[..|rs| - 1], limit);
    assert (c + [rs[|rs| - 1]])[..|c|] == c;
  }

  // ---------------------------------------------------------------------------
  // filterByTextSimilarity: exchange sort and truncation
  // ---------------------------------------------------------------------------

  /** Scores never increase along `a`. */
  ghost predicate SortedDesc(a: seq<SearchResult>) {
    forall j, k :: 0 <= j < k < |a| ==> a[j].score >= a[k].score
  }

  /** The inner loop: swap a larger score into position i until a[i] holds the
      largest score of a[i..]. */
  method PullMax(a: array<SearchResult>, i: int)
    requires 0 <= i < a.Length
    modifies a
    ensures a[..i] == old(a[..i])
    ensures multiset(a[i..]) == multiset(old(a[i..]))
    ensures forall k :: i < k < a.Length ==> a[i].score >= a[k].score
  {
    for j := i + 1 to a.Length
      invariant a[..i] == old(a[..i])
      invariant multiset(a[i..]) == multiset(old(a[i..]))
      invariant forall k :: i < k < j ==> a[i].score >= a[k].score
    {
      if a[i].score < a[j].score {
        Swap(a, i, j);
      }
    }
  }

  /** One exchange of the inner loop: a[i] and a[j] trade places. */
  method Swap(a: array<SearchResult>, i: int, j: int)
    requires 0 <= i < j < a.Length
    modifies a
    ensures a[i] == old(a[j]) && a[j] == old(a[i])
    ensures forall k :: 0 <= k < a.Length && k != i && k != j ==> a[k] == old(a[k])
    ensures a[..i] == old(a[..i])
    ensures multiset(a[i..]) == multiset(old(a[i..]))
  {
    ghost var before := a[i..];
    a[i], a[j] := a[j], a[i];
    assert a[i..] == before[0 := before[j - i]][j - i := before[0]];
  }

  /** Elements of a suffix kept as a multiset are all below any bound that held for it. */
  lemma BoundKept(before: seq<SearchResult>, after: seq<SearchResult>, bound: int)
    requires multiset(after) == multiset(before)
    requires forall k :: 0 <= k < |before| ==> bound >= before[k].score
    ensures forall k :: 0 <= k < |after| ==> bound >= after[k].score
  {
    forall k | 0 <= k < |after|
      ensures bound >= after[k].score
    {
      assert after[k] in multiset(after);
      assert after[k] in multiset(before);
      var m :| 0 <= m < |before| && before[m] == after[k];
    }
  }

  /** The exchange sort of filterByTextSimilarity: descending by score, and a
      permutation of what was there. */
  method ExchangeSort(a: array<SearchResult>)
    modifies a
    ensures SortedDesc(a[..])
    ensures multiset(a[..]) == multiset(old(a[..]))
  {
    if a.Length == 0 {
      return;
    }
    for i := 0 to a.Length - 1
      invariant multiset(a[..]) == multiset(old(a[..]))
      invariant forall j, k :: 0 <= j < k < a.Length && j < i ==> a[j].score >= a[k].score
    {
      ghost var prefix := a[..i];
      ghost var suffix := a[i..];
      assert forall j, k :: 0 <= j < i && 0 <= k < |suffix| ==> prefix[j].score >= suffix[k].score by {
        forall j, k | 0 <= j < i && 0 <= k < |suffix|
          ensures prefix[j].score >= suffix[k].score
        {
          assert prefix[j] == a[j] && suffix[k] == a[i + k];
        }
      }
      assert a[..] == prefix + suffix;
      PullMax(a, i);
      assert a[..] == a[..i] + a[i..];
      forall j | 0 <= j < i
        ensures forall k :: 0 <= k < |a[i..]| ==> a[j].score >= a[i..][k].score
      {
        BoundKept(suffix, a[i..], prefix[j].score);
      }
    }
  }

  /** The hits with their score replaced by the blended score. */
  function Rescored(results: seq<SearchResult>, blend: SearchResult -> int): (r: seq<SearchResult>)
    ensures |r| == |results|
    ensures forall k :: 0 <= k < |r| ==> r[k] == results[k].(score := blend(results[k]))
  {
    seq(|results|, k requires 0 <= k < |results| => results[k].(score := blend(results[k])))
  }

  /** filterByTextSimilarity.  `blend` gives each hit's combined score
      (0.7 of the semantic score plus 0.3 of the text score in qdrant.go). */
  method FilterByTextSimilarity(results: seq<SearchResult>, blend: SearchResult -> int, limit: int)
    returns (finalResults: seq<SearchResult>)
    ensures results == [] ==> finalResults == []
    ensures results != [] ==>
              && |finalResults| == (if limit <= 0 then 0 else if limit < |results| then limit else |results|)
              && SortedDesc(finalResults)
              && exists all :: && multiset(all) == multiset(Rescored(results, blend))
                               && SortedDesc(all) && |finalResults| <= |all| && finalResults == all[..|finalResults|]
  {
    if |results| == 0 {
      return results;
    }
    var scored := Rescored(results, blend);
    var a := new SearchResult[|scored|](k requires 0 <= k < |scored| => scored[k]);
    assert a[..] == scored;
    ExchangeSort(a);
    finalResults := [];
    var i := 0;
    while i < a.Length && i < limit
      invariant 0 <= i <= a.Length
      invariant i <= limit || i == 0
      invariant finalResults == a[..i]
    {
      finalResults := finalResults + [a[i]];
      i := i + 1;
      assert a[..i] == a[..i - 1] + [a[i - 1]];
    }
    assert SortedDesc(a[..]) && finalResults == a[..][..i];
  }

  // ---------------------------------------------------------------------------
  // getOpenAIEmbeddings and getOpenAIEmbeddingsBatch
  // ---------------------------------------------------------------------------

  const MaxBatchSize: nat := 100

  /** An embedding vector; its float32 components stand as integers. */
  type Vector = seq<int>

  /** One element of the endpoint's `data` list: the input it belongs to and its vector. */
  datatype Datum = Datum(index: nat, embedding: Vector)

  /** The slots after placing each datum at its index; an index past the end
      is dropped, and a slot nothing was placed in stays empty. */
  function Place(n: nat, data: seq<Datum>): (slots: seq<Option<Vector>>)
    ensures |slots| == n
    decreases |data|
  {
    if data == [] then seq(n, _ => None)
    else
      var slots := Place(n, data[..|data| - 1]);
      var d := data[|data| - 1];
      if d.index < n then slots[d.index := Some(d.embedding)] else slots
  }

  /** The placement loop of getOpenAIEmbeddingsBatch, for `n` input texts. */
  method PlaceEmbeddings(n: nat, data: seq<Datum>) returns (embeddings: array<Option<Vector>>)
    ensures fresh(embeddings)
    ensures embeddings[..] == Place(n, data)
  {
    embeddings := new Option<Vector>[n](_ => None);
    assert embeddings[..] == Place(n, data[..0]);
    for i := 0 to |data|
      invariant embeddings[..] == Place(n, data[..i])
    {
      assert data[..i + 1][..i] == data[..i];
      if data[i].index < embeddings.Length {
        embeddings[data[i].index] := Some(data[i].embedding);
      }
    }
    assert data[..|data|] == data;
  }

  /** A slot holds the vector of the last datum with that index, and is empty
      exactly when no datum has that index. */
  lemma {:induction false} PlaceSpec(n: nat, data: seq<Datum>, k: nat)
    requires k < n
    ensures Place(n, data)[k].None? <==> forall j :: 0 <= j < |data| ==> data[j].index != k
    ensures forall j :: 0 <= j < |data| && data[j].index == k && (forall m :: j < m < |data| ==> data[m].index != k) ==>
              Place(n, data)[k] == Some(data[j].embedding)
    decreases |data|
  {
    if data != [] {
      var front := data[..|data| - 1];
      PlaceSpec(n, front, k);
      assert forall j :: 0 <= j < |front| ==> front[j] == data[j];
    }
  }

  /** What getOpenAIEmbeddingsBatch returns, given what the endpoint answered
      for the batch. */
  function EmbeddingsBatch(texts: seq<string>, respond: seq<string> -> Result<seq<Datum>>): (r: Result<seq<Option<Vector>>>)
    ensures r.Success? ==> |r.value| == |texts|
  {
    match respond(texts)
    case Failure(e) => Failure(e)
    case Success(data) => Success(Place(|texts|, data))
  }

  /** Where the batch starting at text `lo` ends: 100 texts later, or at the end. */
  function BatchEnd(n: nat, lo: nat): nat {
    if lo + MaxBatchSize > n then n else lo + MaxBatchSize
  }

  /** The batch error message. */
  function BatchError(lo: nat, hi: nat, e: string): string {
    "failed to get embeddings for batch " + Itoa(lo) + "-" + Itoa(hi - 1) + ": " + e
  }

  /** `v` in front of a successful outcome; a failure stays as it is. */
  function Prepend(v: seq<Option<Vector>>, r: Result<seq<Option<Vector>>>): Result<seq<Option<Vector>>> {
    match r
    case Failure(e) => Failure(e)
    case Success(w) => Success(v + w)
  }

  /** The outcome of the batches from text `lo` on: their vectors in order, or
      the error of the first batch that failed. */
  function EmbedFrom(texts: seq<string>, respond: seq<string> -> Result<seq<Datum>>, lo: nat): Result<seq<Option<Vector>>>
    decreases |texts| - lo
  {
    if lo >= |texts| then Success([])
    else
      var hi := BatchEnd(|texts|, lo);
      match EmbeddingsBatch(texts[lo..hi], respond)
      case Failure(e) => Failure(BatchError(lo, hi, e))
      case Success(w) => Prepend(w, EmbedFrom(texts, respond, lo + MaxBatchSize))
  }

  /** What getOpenAIEmbeddings returns. */
  function Embeddings(texts: seq<string>, apiKey: string, respond: seq<string> -> Result<seq<Datum>>): Result<seq<Option<Vector>>> {
    if apiKey == "" then Failure("OPENAI_API_KEY environment variable not set")
    else EmbedFrom(texts, respond, 0)
  }

  lemma PrependNothing(r: Result<seq<Option<Vector>>>)
    ensures Prepend([], r) == r
  {
    if r.Success? {
      assert [] + r.value == r.value;
    }
  }

  lemma PrependTwice(u: seq<Option<Vector>>, v: seq<Option<Vector>>, r: Result<seq<Option<Vector>>>)
    ensures Prepend(u, Prepend(v, r)) == Prepend(u + v, r)
  {
    if r.Success? {
      assert u + (v + r.value) == (u + v) + r.value;
    }
  }

  /** getOpenAIEmbeddings.  `apiKey` is the environment variable's value and
      `respond` what the endpoint answers for one batch. */
  method GetOpenAIEmbeddings(texts: seq<string>, apiKey: string, respond: seq<string> -> Result<seq<Datum>>)
    returns (r: Result<seq<Option<Vector>>>)
    ensures r == Embeddings(texts, apiKey, respond)
  {
    if apiKey == "" {
      return Failure("OPENAI_API_KEY environment variable not set");
    }
    var allEmbeddings: seq<Option<Vector>> := [];
    var i := 0;
    PrependNothing(EmbedFrom(texts, respond, 0));
    while i < |texts|
      invariant EmbedFrom(texts, respond, 0) == Prepend(allEmbeddings, EmbedFrom(texts, respond, i))
      decreases |texts| - i
    {
      var end := i + MaxBatchSize;
      if end > |texts| {
        end := |texts|;
      }
      var batch := texts[i..end];
      var batchEmbeddings := EmbeddingsBatch(batch, respond);
      if batchEmbeddings.Failure? {
        return Failure(BatchError(i, end, batchEmbeddings.error));
      }
      PrependTwice(allEmbeddings, batchEmbeddings.value, EmbedFrom(texts, respond, i + MaxBatchSize));
      allEmbeddings := allEmbeddings + batchEmbeddings.value;
      i := i + MaxBatchSize;
    }
    assert allEmbeddings + [] == allEmbeddings;
    return Success(allEmbeddings);
  }

  /** The k-th batch from `lo`: texts[lo + 100k .. at most 100 further]. */
  function BatchAt(texts: seq<string>, lo: nat, k: nat): seq<string>
    requires lo + k * MaxBatchSize < |texts|
  {
    texts[lo + k * MaxBatchSize..BatchEnd(|texts|, lo + k * MaxBatchSize)]
  }

  /** A successful call has one slot per text. */
  lemma {:induction false} EmbedFromLength(texts: seq<string>, respond: seq<string> -> Result<seq<Datum>>, lo: nat)
    ensures EmbedFrom(texts, respond, lo).Success? ==>
              |EmbedFrom(texts, respond, lo).value| == if lo >= |texts| then 0 else |texts| - lo
    decreases |texts| - lo
  {
    if lo < |texts| {
      EmbedFromLength(texts, respond, lo + MaxBatchSize);
    }
  }

  /** Batch k + 1 from `lo` is batch k from the next batch's start. */
  lemma BatchAtShift(texts: seq<string>, lo: nat, k: nat)
    requires lo + (k + 1) * MaxBatchSize < |texts|
    ensures lo + MaxBatchSize + k * MaxBatchSize < |texts|
    ensures BatchAt(texts, lo + MaxBatchSize, k) == BatchAt(texts, lo, k + 1)
  {
  }

  /** The call fails exactly when the endpoint fails for one of the contiguous
      batches of at most 100 texts. */
  lemma {:induction false} EmbedFromSucceeds(texts: seq<string>, respond: seq<string> -> Result<seq<Datum>>, lo: nat)
    ensures EmbedFrom(texts, respond, lo).Success? <==>
              forall k: nat :: lo + k * MaxBatchSize < |texts| ==> respond(BatchAt(texts, lo, k)).Success?
    decreases |texts| - lo
  {
    if lo < |texts| {
      var next := lo + MaxBatchSize;
      EmbedFromSucceeds(texts, respond, next);
      assert BatchAt(texts, lo, 0) == texts[lo..BatchEnd(|texts|, lo)];
      if forall k: nat :: lo + k * MaxBatchSize < |texts| ==> respond(BatchAt(texts, lo, k)).Success? {
        forall k: nat | next + k * MaxBatchSize < |texts|
          ensures respond(BatchAt(texts, next, k)).Success?
        {
          BatchAtShift(texts, lo, k);
        }
      }
      if EmbedFrom(texts, respond, lo).Success? {
        forall k: nat | lo + k * MaxBatchSize < |texts|
          ensures respond(BatchAt(texts, lo, k)).Success?
        {
          if k > 0 {
            BatchAtShift(texts, lo, k - 1);
          }
        }
      }
    }
  }

  /** With the key set, the embeddings cover every text, or the call fails
      because a batch failed. */
  lemma EmbeddingsSpec(texts: seq<string>, apiKey: string, respond: seq<string> -> Result<seq<Datum>>)
    ensures apiKey == "" ==> Embeddings(texts, apiKey, respond).Failure?
    ensures apiKey != "" ==>
              (Embeddings(texts, apiKey, respond).Success? <==>
                 forall k: nat :: k * MaxBatchSize < |texts| ==> respond(BatchAt(texts, 0, k)).Success?)
    ensures Embeddings(texts, apiKey, respond).Success? ==> |Embeddings(texts, apiKey, respond).value| == |texts|
  {
    if apiKey != "" {
      EmbedFromSucceeds(texts, respond, 0);
      EmbedFromLength(texts, respond, 0);
    }
  }

  // ---------------------------------------------------------------------------
  // createPagesWithOverlap
  // ---------------------------------------------------------------------------

  /** The window taken from the previous page: a fifth of its length (the
      Go code multiplies by the overlap fraction 0.2), at most 200, at least 50. */
  function OverlapSize(prevLen: nat): nat {
    var size := prevLen / 5;
    if size > 200 then 200 else if size < 50 then 50 else size
  }

  /** The text written before a page: the end of the previous page, from its
      first space when that lies within the window's first 50 bytes. */
  function PrefixOverlap(prev: string): string {
    var size := OverlapSize(|prev|);
    if |prev| >= size then
      var text := prev[|prev| - size..];
      var idx := Index(text, " ");
      IndexSpec(text, " ");
      var text' := if idx != -1 && idx < 50 then text[idx + 1..] else text;
      TrimSpace(text') + " "
    else ""
  }

  /** The text written after a page: the first 200 bytes of the next page, cut
      at its last space when that lies past byte 150; a next page of at most
      200 bytes is taken whole if it is longer than 20. */
  function SuffixOverlap(next: string): string {
    if |next| > 200 then
      var text := next[..200];
      var idx := LastIndex(text, " ");
      LastIndexSpec(text, " ");
      var text' := if idx > 150 then text[..idx] else text;
      " " + TrimSpace(text')
    else if |next| > 20 then " " + TrimSpace(next)
    else ""
  }

  /** Entry `i` of createPagesWithOverlap for the cleaned pages. */
  function OverlapPage(clean: seq<string>, i: nat): string
    requires i < |clean|
  {
    TrimSpace((if i > 0 then PrefixOverlap(clean[i - 1]) else "") + clean[i]
              + (if i < |clean| - 1 then SuffixOverlap(clean[i + 1]) else ""))
  }

  /** What createPagesWithOverlap returns. */
  function OverlapPages(pages: seq<string>): seq<string> {
    var clean := NonEmptyLines(pages);
    if |clean| <= 1 then clean else seq(|clean|, i requires 0 <= i < |clean| => OverlapPage(clean, i))
  }

  /** The prefix branch of createPagesWithOverlap's page builder. */
  method WritePrefix(prevPage: string) returns (prefix: string)
    ensures prefix == PrefixOverlap(prevPage)
  {
    prefix := "";
    var overlapSize := |prevPage| / 5;
    if overlapSize > 200 {
      overlapSize := 200;
    }
    if overlapSize < 50 {
      overlapSize := 50;
    }
    if |prevPage| >= overlapSize {
      var startPos := |prevPage| - overlapSize;
      var overlapText := prevPage[startPos..];
      var idx := Index(overlapText, " ");
      IndexSpec(overlapText, " ");
      if idx != -1 && idx < 50 {
        overlapText := overlapText[idx + 1..];
      }
      prefix := TrimSpace(overlapText) + " ";
    }
  }

  /** The suffix branch of createPagesWithOverlap's page builder. */
  method WriteSuffix(nextPage: string) returns (suffix: string)
    ensures suffix == SuffixOverlap(nextPage)
  {
    suffix := "";
    var overlapSize := 200;
    if |nextPage| > overlapSize {
      var overlapText := nextPage[..overlapSize];
      var idx := LastIndex(overlapText, " ");
      LastIndexSpec(overlapText, " ");
      if idx > 150 {
        overlapText := overlapText[..idx];
      }
      suffix := " " + TrimSpace(overlapText);
    } else if |nextPage| > 20 {
      suffix := " " + TrimSpace(nextPage);
    }
  }

  /** The page builder of createPagesWithOverlap for entry `i`. */
  method BuildOverlapPage(clean: seq<string>, i: nat) returns (page: string)
    requires i < |clean|
    ensures page == OverlapPage(clean, i)
  {
    var prefix := "";
    if i > 0 {
      prefix := WritePrefix(clean[i - 1]);
    }
    var suffix := "";
    if i < |clean| - 1 {
      suffix := WriteSuffix(clean[i + 1]);
    }
    var pageWithOverlap := prefix + clean[i] + suffix;
    page := TrimSpace(pageWithOverlap);
  }

  /** createPagesWithOverlap with the 20% overlap of qdrant.go. */
  method CreatePagesWithOverlap(pages: seq<string>) returns (result: seq<string>)
    ensures result == OverlapPages(pages)
  {
    var cleanPages := KeepNonEmptyLines(pages);
    if |cleanPages| <= 1 {
      return cleanPages;
    }
    result := [];
    ghost var target := OverlapPages(pages);
    for i := 0 to |cleanPages|
      invariant |target| == |cleanPages| && result == target[..i]
    {
      OverlapPagesAt(pages, i);
      var page := BuildOverlapPage(cleanPages, i);
      SliceSnoc(target, i);
      result := result + [page];
    }
    assert target[..|target|] == target;
  }

  /** Entry `k` of the overlapping pages. */
  lemma OverlapPagesAt(pages: seq<string>, k: nat)
    requires 1 < |NonEmptyLines(pages)| && k < |NonEmptyLines(pages)|
    ensures |OverlapPages(pages)| == |NonEmptyLines(pages)|
    ensures OverlapPages(pages)[k] == OverlapPage(NonEmptyLines(pages), k)
  {
  }

  lemma SliceSnoc<T>(s: seq<T>, i: nat)
    requires i < |s|
    ensures s[..i + 1] == s[..i] + [s[i]]
  {
  }


  /** The prefix overlap is the trimmed end of the previous page, at most 200
      bytes of it. */
  lemma PrefixOverlapFrom(prev: string) returns (j: nat)
    ensures j <= |prev| && |prev| - j <= 200
    ensures PrefixOverlap(prev) == "" <==> |prev| < OverlapSize(|prev|)
    ensures PrefixOverlap(prev) != "" ==> PrefixOverlap(prev) == TrimSpace(prev[j..]) + " "
  {
    var size := OverlapSize(|prev|);
    j := |prev|;
    if |prev| >= size {
      var text := prev[|prev| - size..];
      var idx := Index(text, " ");
      IndexSpec(text, " ");
      j := |prev| - size;
      if idx != -1 && idx < 50 {
        assert text[idx + 1..] == prev[j + idx + 1..];
        j := j + idx + 1;
      }
    }
  }

  /** The suffix overlap is the trimmed start of the next page, from at most its
      first 200 bytes; it is left out only for a next page of at most 20 bytes. */
  lemma SuffixOverlapFrom(next: string) returns (k: nat)
    ensures k <= |next| && k <= 200
    ensures SuffixOverlap(next) == "" <==> |next| <= 20
    ensures |next| > 20 ==> SuffixOverlap(next) == " " + TrimSpace(next[..k])
  {
    k := |next|;
    assert next[..k] == next;
    if |next| > 200 {
      var text := next[..200];
      var idx := LastIndex(text, " ");
      LastIndexSpec(text, " ");
      k := 200;
      if idx > 150 {
        assert text[..idx] == next[..idx];
        k := idx;
      }
    }
  }

  /** createPagesWithOverlap returns one entry per non-blank page, in order;
      with at most one such page the trimmed pages themselves; and otherwise
      every entry is trimmed and holds its trimmed page whole. */
  lemma OverlapPagesSpec(pages: seq<string>)
    ensures |OverlapPages(pages)| == |NonEmptyLines(pages)|
    ensures |NonEmptyLines(pages)| <= 1 ==> OverlapPages(pages) == NonEmptyLines(pages)
    ensures forall k :: 0 <= k < |OverlapPages(pages)| ==>
              Trimmed(OverlapPages(pages)[k]) && exists i :: At(OverlapPages(pages)[k], NonEmptyLines(pages)[k], i)
  {
    var clean := NonEmptyLines(pages);
    NonEmptyLinesTrimmed(pages);
    forall k | 0 <= k < |OverlapPages(pages)|
      ensures Trimmed(OverlapPages(pages)[k]) && exists i :: At(OverlapPages(pages)[k], clean[k], i)
    {
      if |clean| <= 1 {
        assert At(clean[k], clean[k], 0);
      } else {
        OverlapPagesAt(pages, k);
        OverlapPageCore(clean, k);
      }
    }
  }

  /** One overlapping entry is trimmed and holds its own page whole. */
  lemma OverlapPageCore(clean: seq<string>, k: nat)
    requires k < |clean| && clean[k] != [] && Trimmed(clean[k])
    ensures Trimmed(OverlapPage(clean, k))
    ensures exists i :: At(OverlapPage(clean, k), clean[k], i)
  {
    var pre := if k > 0 then PrefixOverlap(clean[k - 1]) else "";
    var suf := if k < |clean| - 1 then SuffixOverlap(clean[k + 1]) else "";
    TrimSpaceKeepsCore(pre, clean[k], suf);
    TrimSpaceTrimmed(pre + clean[k] + suf);
  }

  // ---------------------------------------------------------------------------
  // storePagesInQdrant: the page filter and the points it stores
  // ---------------------------------------------------------------------------

  /** A page storePagesInQdrant skips: blank, or shorter than 20 bytes. */
  predicate Skipped(page: string) {
    TrimSpace(page) == "" || |page| < 20
  }

  /** The payloads for the overlapping pages kept, numbered by their 1-based
      position in the overlap list. */
  function Payloads(username: string, pages: seq<string>, docName: string): seq<QdrantPage>
    decreases |pages|
  {
    if pages == [] then []
    else
      var page := pages[|pages| - 1];
      Payloads(username, pages[..|pages| - 1], docName)
      + (if Skipped(page) then [] else [QdrantPage(username, page, |pages|, docName)])
  }

  /** A point to upload: its vector and its payload (the point's random UUID is left out). */
  datatype Point = Point(vector: Option<Vector>, payload: QdrantPage)

  /** The texts of the payloads. */
  function Texts(payload: seq<QdrantPage>): (r: seq<string>)
    ensures |r| == |payload|
    ensures forall k :: 0 <= k < |r| ==> r[k] == payload[k].text
  {
    seq(|payload|, k requires 0 <= k < |payload| => payload[k].text)
  }

  /** The points for the vectors and payloads, pairwise. */
  function Points(embeddings: seq<Option<Vector>>, payload: seq<QdrantPage>): (r: seq<Point>)
    requires |embeddings| == |payload|
    ensures |r| == |payload|
    ensures forall k :: 0 <= k < |r| ==> r[k] == Point(embeddings[k], payload[k])
  {
    seq(|payload|, k requires 0 <= k < |payload| => Point(embeddings[k], payload[k]))
  }

  /** What storePagesInQdrant would upload for the overlapping pages, or the
      error it returns before uploading. */
  function StoreOutcome(username: string, overlapped: seq<string>, docName: string, apiKey: string,
                        respond: seq<string> -> Result<seq<Datum>>): Result<seq<Point>>
  {
    var payload := Payloads(username, overlapped, docName);
    if payload == [] then Failure("no pages found to store")
    else
      var all := Texts(payload);
      match Embeddings(all, apiKey, respond)
      case Failure(e) => Failure("failed to get OpenAI embeddings: " + e)
      case Success(embeddings) =>
        if |embeddings| != |all| then
          Failure("mismatch between pages (" + Itoa(|all|) + ") and embeddings (" + Itoa(|embeddings|) + ")")
        else Success(Points(embeddings, payload))
  }

  /** The collection loop of storePagesInQdrant. */
  method CollectPages(username: string, pagesWithOverlap: seq<string>, docName: string)
    returns (allPages: seq<string>, pagePayload: seq<QdrantPage>)
    ensures pagePayload == Payloads(username, pagesWithOverlap, docName)
    ensures allPages == Texts(pagePayload)
  {
    allPages, pagePayload := [], [];
    for pageNum := 0 to |pagesWithOverlap|
      invariant pagePayload == Payloads(username, pagesWithOverlap[..pageNum], docName)
      invariant allPages == Texts(pagePayload)
    {
      assert pagesWithOverlap[..pageNum + 1][..pageNum] == pagesWithOverlap[..pageNum];
      var page := pagesWithOverlap[pageNum];
      if TrimSpace(page) == "" || |page| < 20 {
        continue;
      }
      allPages := allPages + [page];
      pagePayload := pagePayload + [QdrantPage(username, page, pageNum + 1, docName)];
    }
    assert pagesWithOverlap[..|pagesWithOverlap|] == pagesWithOverlap;
  }

  /** storePagesInQdrant up to the upload: the points it would send, or its error. */
  method StorePagesInQdrant(username: string, pages: seq<string>, docName: string, apiKey: string,
                            respond: seq<string> -> Result<seq<Datum>>)
    returns (r: Result<seq<Point>>)
    ensures r == StoreOutcome(username, OverlapPages(pages), docName, apiKey, respond)
  {
    var pagesWithOverlap := CreatePagesWithOverlap(pages);
    r := StoreOverlapped(username, pagesWithOverlap, docName, apiKey, respond);
  }

  /** storePagesInQdrant after the overlapping pages are made. */
  method StoreOverlapped(username: string, pagesWithOverlap: seq<string>, docName: string, apiKey: string,
                         respond: seq<string> -> Result<seq<Datum>>)
    returns (r: Result<seq<Point>>)
    ensures r == StoreOutcome(username, pagesWithOverlap, docName, apiKey, respond)
  {
    var allPages, pagePayload := CollectPages(username, pagesWithOverlap, docName);
    if |allPages| == 0 {
      return Failure("no pages found to store");
    }
    var embeddings := GetOpenAIEmbeddings(allPages, apiKey, respond);
    if embeddings.Failure? {
      return Failure("failed to get OpenAI embeddings: " + embeddings.error);
    }
    if |embeddings.value| != |allPages| {
      return Failure("mismatch between pages (" + Itoa(|allPages|) + ") and embeddings (" + Itoa(|embeddings.value|) + ")");
    }
    var points: seq<Point> := [];
    for i := 0 to |embeddings.value|
      invariant points == Points(embeddings.value[..i], pagePayload[..i])
    {
      assert embeddings.value[..i + 1][..i] == embeddings.value[..i];
      assert pagePayload[..i + 1][..i] == pagePayload[..i];
      points := points + [Point(embeddings.value[i], pagePayload[i])];
    }
    assert embeddings.value[..|embeddings.value|] == embeddings.value;
    assert pagePayload[..|pagePayload|] == pagePayload;
    return Success(points);
  }

  /** Each kept payload names the 1-based position of a page that is not
      skipped and carries that page. */
  lemma {:induction false} PayloadsFromPages(username: string, pages: seq<string>, docName: string)
    ensures forall k :: 0 <= k < |Payloads(username, pages, docName)| ==>
              var p := Payloads(username, pages, docName)[k];
              && 1 <= p.pageNum <= |pages| && p.text == pages[p.pageNum - 1] && !Skipped(p.text)
              && p.username == username && p.docName == docName
    decreases |pages|
  {
    if pages != [] {
      var front := pages[..|pages| - 1];
      PayloadsFromPages(username, front, docName);
      assert forall i :: 0 <= i < |front| ==> front[i] == pages[i];
    }
  }

  /** The payloads are in page order. */
  lemma {:induction false} PayloadsOrdered(username: string, pages: seq<string>, docName: string)
    ensures forall j, k :: 0 <= j < k < |Payloads(username, pages, docName)| ==>
              Payloads(username, pages, docName)[j].pageNum < Payloads(username, pages, docName)[k].pageNum
    decreases |pages|
  {
    if pages != [] {
      var front := pages[..|pages| - 1];
      PayloadsOrdered(username, front, docName);
      PayloadsFromPages(username, front, docName);
    }
  }

  /** Every page that is not skipped has its payload. */
  lemma {:induction false} PayloadsComplete(username: string, pages: seq<string>, docName: string)
    ensures forall i :: 0 <= i < |pages| && !Skipped(pages[i]) ==>
              exists k :: 0 <= k < |Payloads(username, pages, docName)| && Payloads(username, pages, docName)[k].pageNum == i + 1
    decreases |pages|
  {
    if pages != [] {
      var front := pages[..|pages| - 1];
      PayloadsComplete(username, front, docName);
      var pf := Payloads(username, front, docName);
      var all := Payloads(username, pages, docName);
      assert all[..|pf|] == pf;
      forall i | 0 <= i < |pages| && !Skipped(pages[i])
        ensures exists k :: 0 <= k < |Payloads(username, pages, docName)| && Payloads(username, pages, docName)[k].pageNum == i + 1
      {
        if i < |front| {
          assert front[i] == pages[i];
          var k :| 0 <= k < |pf| && pf[k].pageNum == i + 1;
          assert all[k] == pf[k];
          assert Payloads(username, pages, docName)[k].pageNum == i + 1;
        } else {
          assert all == pf + [QdrantPage(username, pages[i], |pages|, docName)];
          assert all[|pf|].pageNum == i + 1;
          assert Payloads(username, pages, docName)[|pf|].pageNum == i + 1;
        }
      }
    }
  }

  /** No payload is kept exactly when every page is skipped. */
  lemma PayloadsEmpty(username: string, pages: seq<string>, docName: string)
    ensures Payloads(username, pages, docName) == [] <==> forall i :: 0 <= i < |pages| ==> Skipped(pages[i])
  {
    var payload := Payloads(username, pages, docName);
    PayloadsFromPages(username, pages, docName);
    PayloadsComplete(username, pages, docName);
    if payload != [] {
      assert !Skipped(pages[payload[0].pageNum - 1]);
    }
  }

  /** storePagesInQdrant fails for want of pages exactly when every
      overlapping page is skipped. */
  lemma StoreNeedsPages(username: string, overlapped: seq<string>, docName: string, apiKey: string,
                        respond: seq<string> -> Result<seq<Datum>>)
    ensures StoreOutcome(username, overlapped, docName, apiKey, respond) == Failure("no pages found to store") <==>
              forall i :: 0 <= i < |overlapped| ==> Skipped(overlapped[i])
  {
    PayloadsEmpty(username, overlapped, docName);
    var payload := Payloads(username, overlapped, docName);
    if payload != [] {
      var e := Embeddings(Texts(payload), apiKey, respond);
      if e.Failure? {
        var msg := "failed to get OpenAI embeddings: " + e.error;
        assert msg[0] == 'f';
        assert "no pages found to store"[0] == 'n';
      }
      EmbeddingsSpec(Texts(payload), apiKey, respond);
    }
  }

  /** With some page kept, the upload goes ahead exactly when the embeddings
      call succeeds (the length check after it never fires), and then with one
      point per kept payload, in order. */
  lemma StoreUploadsPayloads(username: string, overlapped: seq<string>, docName: string, apiKey: string,
                             respond: seq<string> -> Result<seq<Datum>>)
    requires Payloads(username, overlapped, docName) != []
    ensures var r := StoreOutcome(username, overlapped, docName, apiKey, respond);
            var payload := Payloads(username, overlapped, docName);
            && (r.Success? <==> Embeddings(Texts(payload), apiKey, respond).Success?)
            && (r.Success? ==> |r.value| == |payload| && forall k :: 0 <= k < |r.value| ==> r.value[k].payload == payload[k])
  {
    EmbeddingsSpec(Texts(Payloads(username, overlapped, docName)), apiKey, respond);
  }
}
