/**
 * The two-tier indexer: one batch add of the whole document list; if the
 * engine refuses it, one add per document, counting the accepted ones and
 * skipping the refused ones; then exactly one commit, whatever happened before.
 */
module Indexer {
  import opened Wrappers
  import opened JsonValues
  import opened Flattener

  /** A request sent to the search engine, as it appears in the client's call log. */
  datatype Call =
    | BatchRequest(collection: string, docs: seq<FlatDoc>)
    | AddRequest(collection: string, doc: FlatDoc)
    | CommitRequest(collection: string)

  /** The failures a caller of the indexer can see. */
  datatype IndexError =
    | InvalidJson(message: string)
    | CommitFailed(collection: string)

  /**
   * A search-engine client whose answers are fixed in advance: whether it takes
   * a batch, which single documents it takes, and whether it commits. Every
   * request is appended to `calls`.
   */
  class SolrClient {
    const acceptsBatch: seq<FlatDoc> -> bool
    const accepts: FlatDoc -> bool
    const commits: bool
    var calls: seq<Call>

    constructor (acceptsBatch: seq<FlatDoc> -> bool, accepts: FlatDoc -> bool, commits: bool)
      ensures this.acceptsBatch == acceptsBatch && this.accepts == accepts && this.commits == commits
      ensures calls == []
    {
      this.acceptsBatch := acceptsBatch;
      this.accepts := accepts;
      this.commits := commits;
      calls := [];
    }

    /** Submits the whole list in one request. */
    method AddAll(collection: string, docs: seq<FlatDoc>) returns (ok: bool)
      modifies this
      ensures ok == acceptsBatch(docs)
      ensures calls == old(calls) + [BatchRequest(collection, docs)]
    {
      ok := acceptsBatch(docs);
      calls := calls + [BatchRequest(collection, docs)];
    }

    /** Submits one document. */
    method Add(collection: string, doc: FlatDoc) returns (ok: bool)
      modifies this
      ensures ok == accepts(doc)
      ensures calls == old(calls) + [AddRequest(collection, doc)]
    {
      ok := accepts(doc);
      calls := calls + [AddRequest(collection, doc)];
    }

    /** Makes the pending writes of a collection durable. */
    method Commit(collection: string) returns (ok: bool)
      modifies this
      ensures ok == commits
      ensures calls == old(calls) + [CommitRequest(collection)]
    {
      ok := commits;
      calls := calls + [CommitRequest(collection)];
    }
  }

  /** The number of documents of `docs` that `accepts` takes, counted from the front. */
  function Accepted(accepts: FlatDoc -> bool, docs: seq<FlatDoc>): nat
    decreases |docs|
  {
    if docs == [] then 0
    else Accepted(accepts, docs[..|docs| - 1]) + (if accepts(docs[|docs| - 1]) then 1 else 0)
  }

  /** One single-document add per document, in list order. */
  function FallbackCalls(collection: string, docs: seq<FlatDoc>): seq<Call>
  {
    seq(|docs|, k requires 0 <= k < |docs| => AddRequest(collection, docs[k]))
  }

  /** The requests one indexing call sends, given whether the batch was taken. */
  function Protocol(collection: string, docs: seq<FlatDoc>, batchOk: bool): seq<Call>
  {
    [BatchRequest(collection, docs)] + (if batchOk then [] else FallbackCalls(collection, docs)) + [CommitRequest(collection)]
  }

  /** The success count: the whole list when the batch was taken, the accepted documents otherwise. */
  function SuccessCount(batchOk: bool, accepts: FlatDoc -> bool, docs: seq<FlatDoc>): nat
  {
    if batchOk then |docs| else Accepted(accepts, docs)
  }

  /** What one indexing call returns: the success count, or the failed commit. */
  function Outcome(collection: string, docs: seq<FlatDoc>, batchOk: bool, accepts: FlatDoc -> bool, commits: bool)
    : Result<nat, IndexError>
  {
    if commits then Success(SuccessCount(batchOk, accepts, docs)) else Failure(CommitFailed(collection))
  }

  /**
   * Indexes `docs` into `collection`: one batch add; on refusal one add per
   * document, counting those taken; then one commit.
   */
  method IndexDocuments(client: SolrClient, collection: string, docs: seq<FlatDoc>) returns (r: Result<nat, IndexError>)
    modifies client
    ensures client.calls == old(client.calls) + Protocol(collection, docs, client.acceptsBatch(docs))
    ensures r == Outcome(collection, docs, client.acceptsBatch(docs), client.accepts, client.commits)
  {
    var count := 0;
    var batchOk := client.AddAll(collection, docs);
    if batchOk {
      count := |docs|;
    } else {
      var i := 0;
      while i < |docs|
        invariant 0 <= i <= |docs|
        invariant client.calls == old(client.calls) + [BatchRequest(collection, docs)] + FallbackCalls(collection, docs[..i])
        invariant count == Accepted(client.accepts, docs[..i])
      {
        var added := client.Add(collection, docs[i]);
        if added {
          count := count + 1;
        }
        FallbackStep(collection, client.accepts, docs, i);
        i := i + 1;
      }
      assert docs[..i] == docs;
    }
    var committed := client.Commit(collection);
    if !committed {
      return Failure(CommitFailed(collection));
    }
    return Success(count);
  }

  /** Going one document further adds its single add to the requests and, if taken, one to the count. */
  lemma FallbackStep(collection: string, accepts: FlatDoc -> bool, docs: seq<FlatDoc>, i: nat)
    requires i < |docs|
    ensures FallbackCalls(collection, docs[..i + 1]) == FallbackCalls(collection, docs[..i]) + [AddRequest(collection, docs[i])]
    ensures Accepted(accepts, docs[..i + 1]) == Accepted(accepts, docs[..i]) + (if accepts(docs[i]) then 1 else 0)
  {
    assert docs[..i + 1][..i] == docs[..i];
  }

  /** Indexes the records of a JSON text: a text that does not parse is reported and nothing is sent. */
  method IndexJson(client: SolrClient, collection: string, text: string, parse: string -> Result<Json, string>)
    returns (r: Result<nat, IndexError>)
    modifies client
    ensures CreateSchemalessDocuments(text, parse).Failure? ==>
      r == Failure(InvalidJson(CreateSchemalessDocuments(text, parse).error)) && client.calls == old(client.calls)
    ensures CreateSchemalessDocuments(text, parse).Success? ==>
      var docs := CreateSchemalessDocuments(text, parse).value;
      client.calls == old(client.calls) + Protocol(collection, docs, client.acceptsBatch(docs))
      && r == Outcome(collection, docs, client.acceptsBatch(docs), client.accepts, client.commits)
  {
    var created := CreateSchemalessDocuments(text, parse);
    if created.Failure? {
      return Failure(InvalidJson(created.error));
    }
    r := IndexDocuments(client, collection, created.value);
  }

  // Counting the requests of a call log.

  function Batches(calls: seq<Call>, collection: string): nat
    decreases |calls|
  {
    if calls == [] then 0
    else (if calls[0].BatchRequest? && calls[0].collection == collection then 1 else 0) + Batches(calls[1..], collection)
  }

  function Adds(calls: seq<Call>, collection: string): nat
    decreases |calls|
  {
    if calls == [] then 0
    else (if calls[0].AddRequest? && calls[0].collection == collection then 1 else 0) + Adds(calls[1..], collection)
  }

  function Commits(calls: seq<Call>, collection: string): nat
    decreases |calls|
  {
    if calls == [] then 0
    else (if calls[0] == CommitRequest(collection) then 1 else 0) + Commits(calls[1..], collection)
  }

  lemma {:induction false} CountsConcat(a: seq<Call>, b: seq<Call>, collection: string)
    ensures Batches(a + b, collection) == Batches(a, collection) + Batches(b, collection)
    ensures Adds(a + b, collection) == Adds(a, collection) + Adds(b, collection)
    ensures Commits(a + b, collection) == Commits(a, collection) + Commits(b, collection)
    decreases |a|
  {
    if a == [] {
      assert a + b == b;
    } else {
      assert (a + b)[0] == a[0];
      assert (a + b)[1..] == a[1..] + b;
      CountsConcat(a[1..], b, collection);
    }
  }

  lemma {:induction false} FallbackCounts(collection: string, docs: seq<FlatDoc>)
    ensures Batches(FallbackCalls(collection, docs), collection) == 0
    ensures Adds(FallbackCalls(collection, docs), collection) == |docs|
    ensures Commits(FallbackCalls(collection, docs), collection) == 0
    decreases |docs|
  {
    if docs != [] {
      assert FallbackCalls(collection, docs)[0] == AddRequest(collection, docs[0]);
      assert FallbackCalls(collection, docs)[1..] == FallbackCalls(collection, docs[1..]);
      FallbackCounts(collection, docs[1..]);
    }
  }

  /**
   * One indexing call sends exactly one batch add and exactly one commit, and
   * one single add per document exactly when the batch was refused.
   */
  lemma ProtocolCounts(collection: string, docs: seq<FlatDoc>, batchOk: bool)
    ensures Batches(Protocol(collection, docs, batchOk), collection) == 1
    ensures Adds(Protocol(collection, docs, batchOk), collection) == if batchOk then 0 else |docs|
    ensures Commits(Protocol(collection, docs, batchOk), collection) == 1
  {
    var fallback := if batchOk then [] else FallbackCalls(collection, docs);
    FallbackCounts(collection, docs);
    assert Batches([BatchRequest(collection, docs)], collection) == 1;
    assert Commits([CommitRequest(collection)], collection) == 1;
    CountsConcat([BatchRequest(collection, docs)], fallback, collection);
    CountsConcat([BatchRequest(collection, docs)] + fallback, [CommitRequest(collection)], collection);
  }

  /**
   * The requests come in order: the batch first, the commit last, and in
   * between the single adds of the documents in list order.
   */
  lemma ProtocolOrder(collection: string, docs: seq<FlatDoc>, batchOk: bool)
    ensures var calls := Protocol(collection, docs, batchOk);
      && |calls| == 2 + (if batchOk then 0 else |docs|)
      && calls[0] == BatchRequest(collection, docs)
      && calls[|calls| - 1] == CommitRequest(collection)
      && (!batchOk ==> forall k :: 0 <= k < |docs| ==> calls[1 + k] == AddRequest(collection, docs[k]))
  {
  }

  /** The accepted count is the number of positions whose document is accepted. */
  lemma {:induction false} AcceptedPositions(accepts: FlatDoc -> bool, docs: seq<FlatDoc>)
    ensures Accepted(accepts, docs) == |set k | 0 <= k < |docs| && accepts(docs[k])|
    decreases |docs|
  {
    if docs != [] {
      var n := |docs| - 1;
      var init := docs[..n];
      AcceptedPositions(accepts, init);
      var before := set k | 0 <= k < n && accepts(init[k]);
      var all := set k | 0 <= k < |docs| && accepts(docs[k]);
      assert before == set k | 0 <= k < n && accepts(docs[k]);
      if accepts(docs[n]) {
        assert all == before + {n};
        assert n !in before;
      } else {
        assert all == before;
      }
    }
  }

  /** The success count never exceeds the number of submitted documents. */
  lemma {:induction false} AcceptedBound(accepts: FlatDoc -> bool, docs: seq<FlatDoc>)
    ensures Accepted(accepts, docs) <= |docs|
    ensures Accepted(accepts, docs) == |docs| <==> forall k :: 0 <= k < |docs| ==> accepts(docs[k])
    decreases |docs|
  {
    if docs != [] {
      var n := |docs| - 1;
      AcceptedBound(accepts, docs[..n]);
      assert forall k :: 0 <= k < n ==> docs[..n][k] == docs[k];
    }
  }

  lemma SuccessCountBound(batchOk: bool, accepts: FlatDoc -> bool, docs: seq<FlatDoc>)
    ensures SuccessCount(batchOk, accepts, docs) <= |docs|
    ensures SuccessCount(batchOk, accepts, docs) == |docs| <==> batchOk || forall k :: 0 <= k < |docs| ==> accepts(docs[k])
  {
    AcceptedBound(accepts, docs);
  }

  /**
   * The refused batch of ten documents of which every add succeeds: ten
   * documents are counted, after one batch, ten adds and one commit.
   */
  lemma BatchRefusedAllAccepted(collection: string, docs: seq<FlatDoc>, accepts: FlatDoc -> bool)
    requires |docs| == 10 && forall k :: 0 <= k < |docs| ==> accepts(docs[k])
    ensures Outcome(collection, docs, false, accepts, true) == Success(10)
    ensures Batches(Protocol(collection, docs, false), collection) == 1
    ensures Adds(Protocol(collection, docs, false), collection) == 10
    ensures Commits(Protocol(collection, docs, false), collection) == 1
  {
    AcceptedBound(accepts, docs);
    ProtocolCounts(collection, docs, false);
  }

  /**
   * The refused batch of ten documents of which only the even-numbered adds
   * succeed: five documents are counted, after one batch, ten adds and one commit.
   */
  lemma BatchRefusedEvenAccepted(collection: string, docs: seq<FlatDoc>, accepts: FlatDoc -> bool)
    requires |docs| == 10 && forall k :: 0 <= k < |docs| ==> (accepts(docs[k]) <==> k % 2 == 0)
    ensures Outcome(collection, docs, false, accepts, true) == Success(5)
    ensures Batches(Protocol(collection, docs, false), collection) == 1
    ensures Adds(Protocol(collection, docs, false), collection) == 10
    ensures Commits(Protocol(collection, docs, false), collection) == 1
  {
    AcceptedPositions(accepts, docs);
    var taken := set k | 0 <= k < |docs| && accepts(docs[k]);
    assert taken == {0, 2, 4, 6, 8} by {
      forall k | k in taken ensures k in {0, 2, 4, 6, 8} {
        assert k % 2 == 0;
      }
      assert accepts(docs[0]) && accepts(docs[2]) && accepts(docs[4]) && accepts(docs[6]) && accepts(docs[8]);
    }
    ProtocolCounts(collection, docs, false);
  }

  /** A batch that is taken counts every document and sends no single add. */
  lemma BatchTaken(collection: string, docs: seq<FlatDoc>, accepts: FlatDoc -> bool)
    ensures Outcome(collection, docs, true, accepts, true) == Success(|docs|)
    ensures Adds(Protocol(collection, docs, true), collection) == 0
  {
    ProtocolCounts(collection, docs, true);
  }

  /** A failed commit is reported even when every document was taken. */
  lemma CommitFailureReported(collection: string, docs: seq<FlatDoc>, batchOk: bool, accepts: FlatDoc -> bool)
    ensures Outcome(collection, docs, batchOk, accepts, false) == Failure(CommitFailed(collection))
    ensures Commits(Protocol(collection, docs, batchOk), collection) == 1
  {
    ProtocolCounts(collection, docs, batchOk);
  }
}
