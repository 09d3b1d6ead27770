/** The batch indexer of the simple ingestion script: the chunk lists of all
    files are concatenated, the result is cut into batches of ten, chunk `p`
    gets the id `chunk_p`, and every batch is submitted to the store on its
    own, a failing batch being logged and skipped. The store is an oracle
    `accepts` saying whether one `collection.add` call succeeds; its state is
    the set of ids it holds. */
module Batcher {
  import opened Text
  import opened Chunker

  const BatchSize: nat := 10

  /** `f"chunk_{p}"`, the id of the chunk at global position `p`. */
  function ChunkId(p: nat): string
  {
    "chunk_" + NatToString(p)
  }

  /** Positional ids are pairwise distinct. */
  lemma ChunkIdInjective(p: nat, q: nat)
    ensures ChunkId(p) == ChunkId(q) <==> p == q
  {
    if ChunkId(p) == ChunkId(q) {
      assert ChunkId(p)[6..] == NatToString(p);
      assert ChunkId(q)[6..] == NatToString(q);
      NatToStringInjective(p, q);
    }
  }

  // ---------------------------------------------------------------------
  // Chunks of all files

  /** The chunks of one file, with the defaults of `load_and_chunk_pdf`. */
  function FileChunks(pages: seq<string>): seq<string>
  {
    Chunks(Flatten(pages), DefaultChunkSize, DefaultChunkSize - DefaultChunkOverlap)
  }

  /** The chunk list of every file, in file order. */
  function ChunkLists(files: seq<seq<string>>): (ls: seq<seq<string>>)
    ensures |ls| == |files|
    ensures forall f :: 0 <= f < |files| ==> ls[f] == FileChunks(files[f])
  {
    seq(|files|, f requires 0 <= f < |files| => FileChunks(files[f]))
  }

  /** `all_chunks`: the chunks of every file, extended file after file. The
      chunks of file `f` follow those of all earlier files. */
  method CollectChunks(files: seq<seq<string>>) returns (all: seq<string>)
    ensures all == Flatten(ChunkLists(files))
    ensures forall f :: 0 <= f < |files| ==>
      Flatten(ChunkLists(files[..f])) + FileChunks(files[f]) <= all
  {
    all := [];
    var i := 0;
    while i < |files|
      invariant i <= |files|
      invariant all == Flatten(ChunkLists(files[..i]))
    {
      var r := LoadAndChunkPdf(files[i], DefaultChunkSize, DefaultChunkOverlap);
      ExtendByFile(files, i);
      all := all + r.value;
      i := i + 1;
    }
    assert files[..|files|] == files;
    forall f | 0 <= f < |files| {
      EarlierFilesFirst(files, f);
    }
  }

  /** The chunks of file `f` come right after those of the files before it. */
  lemma EarlierFilesFirst(files: seq<seq<string>>, f: nat)
    requires f < |files|
    ensures Flatten(ChunkLists(files[..f])) + FileChunks(files[f]) <= Flatten(ChunkLists(files))
  {
    ExtendByFile(files, f);
    FlattenAppend(ChunkLists(files[..f + 1]), ChunkLists(files[f + 1..]));
    assert ChunkLists(files[..f + 1]) + ChunkLists(files[f + 1..]) == ChunkLists(files);
  }

  /** Taking one more file appends its chunks. */
  lemma ExtendByFile(files: seq<seq<string>>, i: nat)
    requires i < |files|
    ensures Flatten(ChunkLists(files[..i + 1]))
         == Flatten(ChunkLists(files[..i])) + FileChunks(files[i])
  {
    assert ChunkLists(files[..i + 1]) == ChunkLists(files[..i]) + [FileChunks(files[i])];
    FlattenAppend(ChunkLists(files[..i]), [FileChunks(files[i])]);
    assert [FileChunks(files[i])][1..] == [];
  }

  // ---------------------------------------------------------------------
  // Batches

  /** The arguments of one `collection.add(documents=batch, ids=batch_ids)`. */
  datatype Batch = Batch(start: nat, docs: seq<string>, ids: seq<string>)

  /** `[f"chunk_{start + j}" for j in range(n)]`. */
  function BatchIds(start: nat, n: nat): (ids: seq<string>)
    ensures |ids| == n
    ensures forall j :: 0 <= j < n ==> ids[j] == ChunkId(start + j)
  {
    seq(n, j requires 0 <= j < n => ChunkId(start + j))
  }

  /** The batch starting at position `i` of `all_chunks`. */
  function BatchAt(all: seq<string>, i: nat): Batch
    requires i <= |all|
  {
    var docs := Window(all, i, BatchSize);
    Batch(i, docs, BatchIds(i, |docs|))
  }

  /** The batches at `i`, `i + 10`, ... while inside `all_chunks`. */
  function BatchesFrom(all: seq<string>, i: nat): (bs: seq<Batch>)
    ensures i >= |all| <==> bs == []
    decreases |all| - i
  {
    if i >= |all| then [] else [BatchAt(all, i)] + BatchesFrom(all, i + BatchSize)
  }

  /** The batches of the whole run: `range(0, nb_chunks, BATCH_SIZE)`. */
  function Batches(all: seq<string>): seq<Batch>
  {
    BatchesFrom(all, 0)
  }

  function DocsOf(bs: seq<Batch>): (d: seq<seq<string>>)
    ensures |d| == |bs|
  {
    if |bs| == 0 then [] else [bs[0].docs] + DocsOf(bs[1..])
  }

  function IdsOf(bs: seq<Batch>): (d: seq<seq<string>>)
    ensures |d| == |bs|
  {
    if |bs| == 0 then [] else [bs[0].ids] + IdsOf(bs[1..])
  }

  /** Batch `b` starts at `i + 10 * b`, holds 1 to 10 chunks taken in order
      from that position, and names chunk `j` of itself `chunk_{start + j}`. */
  lemma {:induction false} BatchShape(all: seq<string>, i: nat, b: nat)
    requires b < |BatchesFrom(all, i)|
    ensures BatchesFrom(all, i)[b].start == i + Offset(b, BatchSize) < |all|
    ensures 1 <= |BatchesFrom(all, i)[b].docs| <= BatchSize
    ensures BatchesFrom(all, i)[b].docs == Window(all, i + Offset(b, BatchSize), BatchSize)
    ensures BatchesFrom(all, i)[b].ids == BatchIds(i + Offset(b, BatchSize), |BatchesFrom(all, i)[b].docs|)
    decreases b
  {
    if b > 0 {
      BatchShape(all, i + BatchSize, b - 1);
    }
  }

  /** The batches partition `all_chunks` in order. */
  lemma {:induction false} BatchesPartition(all: seq<string>, i: nat)
    requires i <= |all|
    ensures Flatten(DocsOf(BatchesFrom(all, i))) == all[i..]
    decreases |all| - i
  {
    var bs := BatchesFrom(all, i);
    if i < |all| {
      var next := Min(i + BatchSize, |all|);
      assert bs[1..] == BatchesFrom(all, i + BatchSize);
      BatchesPartition(all, next);
      if next == |all| {
        assert BatchesFrom(all, i + BatchSize) == [];
      }
      assert all[i..] == all[i..next] + all[next..];
    }
  }

  /** Read batch after batch, the ids are `chunk_0`, `chunk_1`, ... in order. */
  lemma {:induction false} BatchIdsInOrder(all: seq<string>, i: nat)
    requires i <= |all|
    ensures Flatten(IdsOf(BatchesFrom(all, i))) == BatchIds(i, |all| - i)
    decreases |all| - i
  {
    var bs := BatchesFrom(all, i);
    if i < |all| {
      var next := Min(i + BatchSize, |all|);
      assert bs[1..] == BatchesFrom(all, i + BatchSize);
      BatchIdsInOrder(all, next);
      if next == |all| {
        assert BatchesFrom(all, i + BatchSize) == [];
      }
      assert BatchIds(i, |all| - i) == BatchIds(i, next - i) + BatchIds(next, |all| - next);
    }
  }

  /** No two chunks of a run share an id. */
  lemma RunIdsDistinct(all: seq<string>)
    ensures var ids := Flatten(IdsOf(Batches(all)));
      |ids| == |all| &&
      forall p, q :: 0 <= p < q < |ids| ==> ids[p] != ids[q]
  {
    BatchIdsInOrder(all, 0);
    forall p, q | 0 <= p < q < |all|
      ensures ChunkId(p) != ChunkId(q)
    {
      ChunkIdInjective(p, q);
    }
  }

  // ---------------------------------------------------------------------
  // Submitting the batches

  /** The ids of a batch, as a set. */
  function IdSet(ids: seq<string>): (s: set<string>)
    ensures forall id :: id in s <==> id in ids
  {
    set id | id in ids
  }

  /** Ids the store gains from the batches `bs` when `accepts` says which
      `collection.add` calls succeed. */
  function Inserted(bs: seq<Batch>, accepts: Batch -> bool): set<string>
  {
    if |bs| == 0 then {}
    else (if accepts(bs[0]) then IdSet(bs[0].ids) else {}) + Inserted(bs[1..], accepts)
  }

  /** Start positions of the failing batches, in order (the `Erreur batch {i}`
      log lines). */
  function Failed(bs: seq<Batch>, accepts: Batch -> bool): seq<nat>
  {
    if |bs| == 0 then []
    else (if accepts(bs[0]) then [] else [bs[0].start]) + Failed(bs[1..], accepts)
  }

  /** The batch loop: every batch is submitted whatever happened to the
      previous ones; the ids of an accepted batch join the store, a rejected
      batch is logged and skipped. */
  method IndexChunks(all: seq<string>, before: set<string>, accepts: Batch -> bool)
    returns (stored: set<string>, failed: seq<nat>)
    ensures stored == before + Inserted(Batches(all), accepts)
    ensures failed == Failed(Batches(all), accepts)
  {
    stored := before;
    failed := [];
    var i: nat := 0;
    while i < |all|
      invariant stored + Inserted(BatchesFrom(all, i), accepts) == before + Inserted(Batches(all), accepts)
      invariant failed + Failed(BatchesFrom(all, i), accepts) == Failed(Batches(all), accepts)
      decreases |all| - i
    {
      var b := BatchAt(all, i);
      SubmitStep(all, i, accepts, stored, failed);
      if accepts(b) {
        stored := stored + IdSet(b.ids);
      } else {
        failed := failed + [i];
      }
      i := i + BatchSize;
    }
  }

  /** One turn of the batch loop keeps its two invariants. */
  lemma SubmitStep(all: seq<string>, i: nat, accepts: Batch -> bool, stored: set<string>, failed: seq<nat>)
    requires i < |all|
    ensures var b := BatchAt(all, i);
      var rest := BatchesFrom(all, i + BatchSize);
      && stored + Inserted(BatchesFrom(all, i), accepts)
         == (if accepts(b) then stored + IdSet(b.ids) else stored) + Inserted(rest, accepts)
      && failed + Failed(BatchesFrom(all, i), accepts)
         == (if accepts(b) then failed else failed + [i]) + Failed(rest, accepts)
  {
    SubmitOne(all, i, accepts);
    var rest := Failed(BatchesFrom(all, i + BatchSize), accepts);
    assert failed + ([i] + rest) == (failed + [i]) + rest;
  }

  /** Submitting the batch at `i` accounts for exactly its own share of the
      ids and of the log. */
  lemma SubmitOne(all: seq<string>, i: nat, accepts: Batch -> bool)
    requires i < |all|
    ensures var b := BatchAt(all, i);
      var rest := BatchesFrom(all, i + BatchSize);
      && Inserted(BatchesFrom(all, i), accepts)
         == (if accepts(b) then IdSet(b.ids) else {}) + Inserted(rest, accepts)
      && Failed(BatchesFrom(all, i), accepts)
         == (if accepts(b) then [] else [i]) + Failed(rest, accepts)
  {
    var rest := BatchesFrom(all, i + BatchSize);
    assert BatchesFrom(all, i)[1..] == rest;
  }

  /** The start of the batch holding position `p`. */
  function BatchStartOf(p: nat): nat
  {
    p - p % BatchSize
  }

  /** The batch at `i` names exactly the positions it covers. */
  lemma InBatchIds(all: seq<string>, i: nat, p: nat)
    requires i <= |all|
    ensures ChunkId(p) in BatchAt(all, i).ids <==> i <= p < i + |BatchAt(all, i).docs|
  {
    var b := BatchAt(all, i);
    if ChunkId(p) in b.ids {
      var j :| 0 <= j < |b.ids| && b.ids[j] == ChunkId(p);
      ChunkIdInjective(i + j, p);
    }
    if i <= p < i + |b.docs| {
      assert b.ids[p - i] == ChunkId(p);
    }
  }

  lemma {:induction false} InsertedAt(all: seq<string>, i: nat, accepts: Batch -> bool, p: nat)
    requires i % BatchSize == 0
    ensures ChunkId(p) in Inserted(BatchesFrom(all, i), accepts) <==>
      i <= p < |all| && accepts(BatchAt(all, BatchStartOf(p)))
    decreases |all| - i
  {
    if i < |all| {
      SubmitOne(all, i, accepts);
      InsertedAt(all, i + BatchSize, accepts, p);
      InBatchIds(all, i, p);
      if i <= p < i + BatchSize {
        assert BatchStartOf(p) == i;
      }
    }
  }

  lemma {:induction false} InsertedAreChunkIds(all: seq<string>, i: nat, accepts: Batch -> bool, id: string)
    requires id in Inserted(BatchesFrom(all, i), accepts)
    ensures exists p :: i <= p < |all| && id == ChunkId(p)
    decreases |all| - i
  {
    SubmitOne(all, i, accepts);
    var b := BatchAt(all, i);
    if accepts(b) && id in b.ids {
      var j :| 0 <= j < |b.ids| && b.ids[j] == id;
      assert i <= i + j < |all| && id == ChunkId(i + j);
    } else {
      InsertedAreChunkIds(all, i + BatchSize, accepts, id);
    }
  }

  /** After the run, `chunk_p` is in the store exactly when it was there
      before or the batch holding position `p` was accepted; the run adds no
      other id. */
  lemma InsertedIff(all: seq<string>, before: set<string>, accepts: Batch -> bool)
    ensures forall p :: 0 <= p < |all| ==>
      (ChunkId(p) in before + Inserted(Batches(all), accepts) <==>
        ChunkId(p) in before || accepts(BatchAt(all, BatchStartOf(p))))
    ensures forall id :: id in Inserted(Batches(all), accepts) ==>
      exists p :: 0 <= p < |all| && id == ChunkId(p)
  {
    forall p | 0 <= p < |all|
      ensures ChunkId(p) in Inserted(Batches(all), accepts) <==> accepts(BatchAt(all, BatchStartOf(p)))
    {
      InsertedAt(all, 0, accepts, p);
    }
    forall id | id in Inserted(Batches(all), accepts)
      ensures exists p :: 0 <= p < |all| && id == ChunkId(p)
    {
      InsertedAreChunkIds(all, 0, accepts, id);
    }
  }

  /** Partial-failure isolation: two runs whose store answers differ only on
      the batch starting at `s` end with the same ids outside that batch. */
  lemma Isolation(all: seq<string>, before: set<string>, a1: Batch -> bool, a2: Batch -> bool, s: nat)
    requires forall i :: 0 <= i < |all| && i % BatchSize == 0 && i != s ==> a1(BatchAt(all, i)) == a2(BatchAt(all, i))
    ensures forall p :: 0 <= p < |all| && BatchStartOf(p) != s ==>
      (ChunkId(p) in before + Inserted(Batches(all), a1) <==> ChunkId(p) in before + Inserted(Batches(all), a2))
  {
    InsertedIff(all, before, a1);
    InsertedIff(all, before, a2);
    forall p | 0 <= p < |all|
      ensures BatchStartOf(p) % BatchSize == 0 && BatchStartOf(p) <= p
    {
      BatchStartAligned(p);
    }
  }

  /** The batch holding position `p` is one the loop submits. */
  lemma BatchStartAligned(p: nat)
    ensures BatchStartOf(p) % BatchSize == 0 && BatchStartOf(p) <= p
  {
  }

  /** Three batches of which the middle one fails: the first and the third
      are still stored, the second is not. */
  lemma MiddleBatchFails(all: seq<string>, accepts: Batch -> bool)
    requires 20 < |all| <= 30
    requires accepts(BatchAt(all, 0)) && !accepts(BatchAt(all, 10)) && accepts(BatchAt(all, 20))
    ensures forall p :: 0 <= p < |all| ==>
      (ChunkId(p) in Inserted(Batches(all), accepts) <==> p < 10 || 20 <= p)
    ensures Failed(Batches(all), accepts) == [10]
  {
    forall p | 0 <= p < |all|
      ensures ChunkId(p) in Inserted(Batches(all), accepts) <==> p < 10 || 20 <= p
    {
      InsertedAt(all, 0, accepts, p);
      if p < 10 {
        assert BatchStartOf(p) == 0;
      } else if p < 20 {
        assert BatchStartOf(p) == 10;
      } else {
        assert BatchStartOf(p) == 20;
      }
    }
    SubmitOne(all, 0, accepts);
    SubmitOne(all, 10, accepts);
    SubmitOne(all, 20, accepts);
    assert BatchesFrom(all, 30) == [];
  }

  /** `collection.count()` after a run on an empty store where every batch
      succeeded: one document per chunk. */
  lemma {:induction false} IdRangeSize(n: nat)
    ensures |set p | 0 <= p < n :: ChunkId(p)| == n
  {
    if n > 0 {
      IdRangeSize(n - 1);
      var s := set p | 0 <= p < n - 1 :: ChunkId(p);
      assert (set p | 0 <= p < n :: ChunkId(p)) == s + {ChunkId(n - 1)};
      if ChunkId(n - 1) in s {
        var q :| 0 <= q < n - 1 && ChunkId(q) == ChunkId(n - 1);
        ChunkIdInjective(q, n - 1);
      }
    }
  }

  lemma CountWhenAllAccepted(all: seq<string>, accepts: Batch -> bool)
    requires forall i :: 0 <= i < |all| && i % BatchSize == 0 ==> accepts(BatchAt(all, i))
    ensures |Inserted(Batches(all), accepts)| == |all|
  {
    InsertedIff(all, {}, accepts);
    forall p | 0 <= p < |all|
      ensures BatchStartOf(p) % BatchSize == 0 && BatchStartOf(p) <= p
    {
      BatchStartAligned(p);
    }
    var ids := set p | 0 <= p < |all| :: ChunkId(p);
    assert Inserted(Batches(all), accepts) == ids;
    IdRangeSize(|all|);
  }
}
