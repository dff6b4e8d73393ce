/** The worker that drains the embedding queue: one batch, and the loop of the indexing script. */
module EmbeddingWorker {
  import opened Collections
  import opened Embeddings
  import opened EmbeddingIndexer
  import opened Hashing
  import opened Orders

  /** No row of the model is held by a worker whose lease is still running. */
  predicate NoLiveLease(rows: map<Key, Row>, model: string, now: int, reclaim: int) {
    forall k | k in rows && k.model == model && !Terminal(rows[k]) :: Claimable(rows[k], now, reclaim)
  }

  /** Every document has a row of the model, and the row is current. */
  ghost predicate AllCurrent(rows: map<Key, Row>, docs: map<VersionId, string>, model: string) {
    forall v | v in docs :: Key(v, model) in rows && Current(rows[Key(v, model)], docs[v])
  }

  lemma BatchDoneStep(before: map<Key, Row>, middle: map<Key, Row>, docs: map<VersionId, string>, done: set<Key>,
      embed: Provider, key: Key, row: Row)
    requires BatchDone(before, middle, docs, done, embed) && key in before && key !in done
    requires key.version in docs && ItemDone(row, docs[key.version], embed)
    ensures BatchDone(before, middle[key := row], docs, done + {key}, embed)
  {
  }

  lemma ClaimedThenDone(rows: map<Key, Row>, docs: map<VersionId, string>, chosen: set<Key>, now: int,
      after: map<Key, Row>, embed: Provider)
    requires forall k | k in chosen :: k in rows && k.version in docs
    requires BatchDone(ClaimedRows(rows, docs, chosen, now), after, docs, chosen, embed)
    ensures BatchDone(rows, after, docs, chosen, embed)
  {
  }

  ghost function Succeeding(keys: set<Key>, docs: map<VersionId, string>, embed: Provider): set<Key> {
    set k | k in keys && k.version in docs && Attempt(embed, docs[k.version]).Some?
  }

  ghost function KeySet(keys: seq<Key>): set<Key> {
    set k | k in keys
  }

  /** The items are those of `ordered`, each with the present text of its document. */
  ghost predicate ItemsFor(items: seq<WorkItem>, ordered: seq<Key>, rows: map<Key, Row>, docs: map<VersionId, string>) {
    && |items| == |ordered| && Distinct(ordered)
    && forall i | 0 <= i < |ordered| ::
         && ordered[i] in rows && ordered[i].version in docs && Current(rows[ordered[i]], docs[ordered[i].version])
         && items[i] == WorkItem(ordered[i], Sha256(docs[ordered[i].version]), docs[ordered[i].version])
  }

  lemma OneMoreDone(ordered: seq<Key>, i: nat)
    requires i < |ordered| && Distinct(ordered)
    ensures KeySet(ordered[..i + 1]) == KeySet(ordered[..i]) + {ordered[i]}
    ensures ordered[i] !in KeySet(ordered[..i])
  {
    assert ordered[..i + 1] == ordered[..i] + [ordered[i]];
  }

  /** A batch brings exactly its rows out of the outstanding set. */
  lemma BatchShrinksOutstanding(before: map<Key, Row>, after: map<Key, Row>, docs: map<VersionId, string>,
      model: string, chosen: set<Key>, embed: Provider)
    requires BatchDone(before, after, docs, chosen, embed) && chosen <= Outstanding(before, model)
    ensures Outstanding(after, model) == Outstanding(before, model) - chosen
    ensures |Outstanding(after, model)| == |Outstanding(before, model)| - |chosen|
  {
    forall k ensures k in Outstanding(after, model) <==> k in Outstanding(before, model) - chosen {
      if k in chosen { assert ItemDone(after[k], docs[k.version], embed); }
    }
    assert Outstanding(before, model) == Outstanding(after, model) + chosen;
  }

  lemma BatchKeepsCurrent(before: map<Key, Row>, after: map<Key, Row>, docs: map<VersionId, string>, model: string,
      chosen: set<Key>, embed: Provider)
    requires BatchDone(before, after, docs, chosen, embed) && AllCurrent(before, docs, model)
    ensures AllCurrent(after, docs, model)
  {
  }

  lemma NothingDone(items: seq<WorkItem>, ordered: seq<Key>, rows: map<Key, Row>, docs: map<VersionId, string>,
      embed: Provider)
    requires ItemsFor(items, ordered, rows, docs)
    ensures |items| == |ordered|
    ensures BatchDone(rows, rows, docs, KeySet(ordered[..0]), embed)
    ensures |Succeeding(KeySet(ordered[..0]), docs, embed)| == 0
  {
    assert KeySet(ordered[..0]) == {};
    assert Succeeding({}, docs, embed) == {};
  }

  lemma NextItem(before: map<Key, Row>, middle: map<Key, Row>, docs: map<VersionId, string>, items: seq<WorkItem>,
      ordered: seq<Key>, i: nat, embed: Provider)
    requires i < |items| && ItemsFor(items, ordered, before, docs)
    requires BatchDone(before, middle, docs, KeySet(ordered[..i]), embed)
    ensures i < |ordered| && ordered[i] in before && ordered[i] in middle && ordered[i].version in docs
    ensures items[i] == WorkItem(ordered[i], Sha256(docs[ordered[i].version]), docs[ordered[i].version])
    ensures middle[ordered[i]].digest == items[i].digest
    ensures KeySet(ordered[..i + 1]) == KeySet(ordered[..i]) + {ordered[i]}
    ensures ordered[i] !in KeySet(ordered[..i])
  {
    OneMoreDone(ordered, i);
  }

  /** What a completed batch reports and leaves behind. */
  ghost predicate BatchFacts(
    before: map<Key, Row>, after: map<Key, Row>, docs: map<VersionId, string>, model: string,
    now: int, reclaim: int, batchSize: nat, embed: Provider, chosen: set<Key>, r: BatchResult)
  {
    var started := Backfilled(before, docs, model, now);
    && chosen == Selection(started, docs, model, now, reclaim, batchSize)
    && BatchDone(started, after, docs, chosen, embed)
    && r.backfilled == |KeysOf(docs, model) - before.Keys|
    && r.claimed == |chosen| == r.indexed + r.failed
    && r.indexed == |Succeeding(chosen, docs, embed)|
  }

  lemma BatchFactsFrom(
    before: map<Key, Row>, started: map<Key, Row>, after: map<Key, Row>, docs: map<VersionId, string>, model: string,
    now: int, reclaim: int, batchSize: nat, embed: Provider, chosen: set<Key>, r: BatchResult)
    requires started == Backfilled(before, docs, model, now)
    requires chosen == Selection(started, docs, model, now, reclaim, batchSize)
      && BatchDone(started, after, docs, chosen, embed)
    requires r.backfilled == |KeysOf(docs, model) - before.Keys|
    requires r.claimed == |chosen| == r.indexed + r.failed && r.indexed == |Succeeding(chosen, docs, embed)|
    ensures BatchFacts(before, after, docs, model, now, reclaim, batchSize, embed, chosen, r)
  {
    hide Backfilled, Selection, BatchDone, KeysOf, Succeeding;
  }

  // --- Draining ------------------------------------------------------------------------------------

  function Smaller(a: nat, b: nat): nat { if a <= b then a else b }

  /** Progress from `start` to `rows`: finished and still outstanding rows are untouched, every
      other row has been brought to an end by its own attempt. */
  ghost predicate Settled(start: map<Key, Row>, rows: map<Key, Row>, docs: map<VersionId, string>, model: string,
      embed: Provider) {
    && rows.Keys == start.Keys
    && Outstanding(rows, model) <= Outstanding(start, model)
    && (forall k | k in start && (k !in Outstanding(start, model) || k in Outstanding(rows, model)) ::
          rows[k] == start[k])
    && (forall k | k in Outstanding(start, model) && k !in Outstanding(rows, model) ::
          k.version in docs && ItemDone(rows[k], docs[k.version], embed))
  }

  lemma SettledAtStart(start: map<Key, Row>, docs: map<VersionId, string>, model: string, embed: Provider)
    ensures Settled(start, start, docs, model, embed)
  {
  }

  lemma SettledStep(start: map<Key, Row>, before: map<Key, Row>, after: map<Key, Row>, docs: map<VersionId, string>,
      model: string, chosen: set<Key>, embed: Provider)
    requires Settled(start, before, docs, model, embed)
    requires BatchDone(before, after, docs, chosen, embed) && chosen <= Outstanding(before, model)
    ensures Settled(start, after, docs, model, embed)
  {
    BatchShrinksOutstanding(before, after, docs, model, chosen, embed);
  }

  /** Every row that was claimable at the start has been brought to an end. */
  ghost predicate Reached(start: map<Key, Row>, rows: map<Key, Row>, docs: map<VersionId, string>, model: string,
      startTime: int, reclaim: int) {
    forall k | k in Candidates(start, docs, model, startTime, reclaim) :: k !in Outstanding(rows, model)
  }

  /** A batch that had room to spare leaves nothing that was claimable at the start. */
  lemma SpareRoomReaches(
    start: map<Key, Row>, started: map<Key, Row>, after: map<Key, Row>, docs: map<VersionId, string>, model: string,
    startTime: int, now: int, reclaim: int, batchSize: nat, embed: Provider, chosen: set<Key>)
    requires Settled(start, started, docs, model, embed) && startTime <= now
    requires chosen == Selection(started, docs, model, now, reclaim, batchSize)
      && BatchDone(started, after, docs, chosen, embed)
    ensures |chosen| < batchSize || Reached(start, started, docs, model, startTime, reclaim) ==>
      Reached(start, after, docs, model, startTime, reclaim)
  {
    hide Selection;
    SelectionIsOldestFirst(started, docs, model, now, reclaim, batchSize);
    BatchShrinksOutstanding(started, after, docs, model, chosen, embed);
    var candidates := Candidates(started, docs, model, now, reclaim);
    if |chosen| < batchSize {
      assert candidates <= chosen by {
        SubsetSize(chosen, candidates);
        if k :| k in candidates && k !in chosen {
          SubsetSize(chosen + {k}, candidates);
        }
      }
      forall k | k in Candidates(start, docs, model, startTime, reclaim) ensures k !in Outstanding(after, model) {
        if k in Outstanding(started, model) {
          assert started[k] == start[k] && k in candidates;
        }
      }
    }
  }

  lemma CurrentNeedsNoBackfill(rows: map<Key, Row>, docs: map<VersionId, string>, model: string, now: int)
    requires AllCurrent(rows, docs, model)
    ensures Backfilled(rows, docs, model, now) == rows
    ensures KeysOf(docs, model) - rows.Keys == {}
  {
    forall k | k in KeysOf(docs, model) ensures k in rows {
      KeysOfMembers(docs, model, k);
      assert Key(k.version, model) == k;
    }
    forall k | k in rows && k.model == model && k.version in docs
      ensures BackfilledRow(rows, k, docs[k.version], now) == rows[k]
    {
      assert Key(k.version, model) == k;
    }
  }

  /** When nobody else holds a lease, a batch takes as much as its size and the queue allow. */
  lemma BatchTakesWhatItCan(started: map<Key, Row>, docs: map<VersionId, string>, model: string, now: int, reclaim: int,
      batchSize: nat)
    requires NoLiveLease(started, model, now, reclaim) && forall k | k in started :: k.version in docs
    ensures var chosen := Selection(started, docs, model, now, reclaim, batchSize);
      chosen <= Outstanding(started, model) && |chosen| == Smaller(|Outstanding(started, model)|, batchSize)
  {
    hide Selection;
    SelectionIsOldestFirst(started, docs, model, now, reclaim, batchSize);
    assert Candidates(started, docs, model, now, reclaim) == Outstanding(started, model);
  }

  lemma BackfillIsCurrent(rows: map<Key, Row>, docs: map<VersionId, string>, model: string, now: int)
    ensures AllCurrent(Backfilled(rows, docs, model, now), docs, model)
  {
    BackfillMakesCurrent(rows, docs, model, now);
  }

  /** One batch of a drain, whoever else holds leases. */
  lemma OneBatch(
    start: map<Key, Row>, before: map<Key, Row>, after: map<Key, Row>, docs: map<VersionId, string>, model: string,
    startTime: int, now: int, reclaim: int, batchSize: nat, embed: Provider, chosen: set<Key>, r: BatchResult)
    requires BatchFacts(before, after, docs, model, now, reclaim, batchSize, embed, chosen, r) && startTime <= now
    requires Settled(start, Backfilled(before, docs, model, now), docs, model, embed)
    ensures Settled(start, after, docs, model, embed) && AllCurrent(after, docs, model)
    ensures |Outstanding(after, model)| == |Outstanding(Backfilled(before, docs, model, now), model)| - r.claimed
    ensures r.claimed == r.indexed + r.failed <= batchSize
    ensures r.claimed < batchSize
      || Reached(start, Backfilled(before, docs, model, now), docs, model, startTime, reclaim)
      ==> Reached(start, after, docs, model, startTime, reclaim)
  {
    hide Backfilled, Selection, Settled, BatchDone, AllCurrent, Reached;
    var started := Backfilled(before, docs, model, now);
    SelectionIsOldestFirst(started, docs, model, now, reclaim, batchSize);
    BackfillIsCurrent(before, docs, model, now);
    SettledStep(start, started, after, docs, model, chosen, embed);
    BatchShrinksOutstanding(started, after, docs, model, chosen, embed);
    BatchKeepsCurrent(started, after, docs, model, chosen, embed);
    SpareRoomReaches(start, started, after, docs, model, startTime, now, reclaim, batchSize, embed, chosen);
  }

  /** What a drain achieves, whoever else holds leases: every row it claims is finished once, by its
      own attempt, and every other row is left alone. Unless the batches were all full, each row that
      was claimable at the start is finished, so what is left was held under a running lease. */
  ghost predicate DrainFacts(
    start: map<Key, Row>, rows: map<Key, Row>, docs: map<VersionId, string>, model: string, embed: Provider,
    startTime: int, reclaim: int, maxBatches: nat, batchSize: nat, total: BatchResult, productive: nat)
  {
    && Settled(start, rows, docs, model, embed)
    && total.claimed == total.indexed + total.failed
    && |Outstanding(rows, model)| == |Outstanding(start, model)| - total.claimed
    && total.claimed <= batchSize * productive && productive <= maxBatches
    && (total.claimed < batchSize * maxBatches ==> Reached(start, rows, docs, model, startTime, reclaim))
  }

  /** Without foreign leases the count is exact, and the number of batches that claimed something
      is the least that can hold that many rows. */
  ghost predicate ExactDrain(start: map<Key, Row>, model: string, maxBatches: nat, batchSize: nat, total: BatchResult,
      productive: nat) {
    && total.claimed == Smaller(|Outstanding(start, model)|, batchSize * maxBatches)
    && (productive > 0 ==> batchSize * (productive - 1) < total.claimed)
  }

  /** While something is outstanding and nobody else holds a lease, not everything is reached. */
  lemma OutstandingIsNotReached(
    start: map<Key, Row>, work: map<Key, Row>, docs: map<VersionId, string>, model: string, embed: Provider,
    startTime: int, reclaim: int)
    requires NoLiveLease(start, model, startTime, reclaim) && forall k | k in start :: k.version in docs
    requires Settled(start, work, docs, model, embed) && Reached(start, work, docs, model, startTime, reclaim)
    ensures Outstanding(work, model) == {}
  {
    forall k | k in Outstanding(start, model) ensures k in Candidates(start, docs, model, startTime, reclaim) {
    }
  }

  lemma WorkHasDocuments(rows: map<Key, Row>, docs: map<VersionId, string>, model: string, now: int)
    requires forall k | k in rows :: k.version in docs
    ensures forall k | k in Backfilled(rows, docs, model, now) :: k.version in docs
  {
    forall k | k in KeysOf(docs, model) ensures k.version in docs { KeysOfMembers(docs, model, k); }
  }

  lemma BackfillKeepsLeases(rows: map<Key, Row>, docs: map<VersionId, string>, model: string, now: int, reclaim: int)
    ensures NoLiveLease(rows, model, now, reclaim) ==>
      NoLiveLease(Backfilled(rows, docs, model, now), model, now, reclaim)
    ensures (forall k | k in rows :: k.version in docs) ==>
      forall k | k in Backfilled(rows, docs, model, now) :: k.version in docs
  {
    if forall k | k in rows :: k.version in docs {
      WorkHasDocuments(rows, docs, model, now);
    }
  }

  lemma SortedKeysDistinct(ordered: seq<Key>)
    requires Sorted(ByVersion, ordered)
    ensures Distinct(ordered)
  {
    forall i, j | 0 <= i < j < |ordered| ensures ordered[i] != ordered[j] {
      assert ByVersion(ordered[i], ordered[j]);
    }
  }

  lemma ItemsAreFor(started: map<Key, Row>, docs: map<VersionId, string>, chosen: set<Key>, ordered: seq<Key>, now: int)
    requires forall k | k in chosen :: k in started && k.version in docs && Current(started[k], docs[k.version])
    requires Sorted(ByVersion, ordered) && forall k :: k in ordered <==> k in chosen
    ensures ItemsFor(HandedOut(started, docs, ordered), ordered, ClaimedRows(started, docs, chosen, now), docs)
    ensures KeySet(ordered) == chosen
  {
    HandedOutWhenCurrent(started, docs, ordered);
    SortedKeysDistinct(ordered);
    assert forall i | 0 <= i < |ordered| :: ordered[i] in ordered;
  }

  /** One more batch, in numbers: it claims at most its size; less only when nothing that was
      claimable at the start is left; and with nobody else about, nothing at all only then. */
  lemma DrainArithmetic(
    start: map<Key, Row>, work: map<Key, Row>, after: map<Key, Row>, docs: map<VersionId, string>, model: string,
    embed: Provider,
    startTime: int, reclaim: int, batchSize: nat, batches: nat, claimed: nat, more: nat)
    requires Settled(start, work, docs, model, embed) && forall k | k in start :: k.version in docs
    requires claimed <= batchSize * batches && more <= batchSize && more <= |Outstanding(work, model)|
    requires claimed < batchSize * batches ==> Reached(start, work, docs, model, startTime, reclaim)
    requires more < batchSize || Reached(start, work, docs, model, startTime, reclaim) ==>
      Reached(start, after, docs, model, startTime, reclaim)
    ensures batchSize * (batches + 1) == batchSize * batches + batchSize
    ensures claimed + more < batchSize * (batches + 1) ==> Reached(start, after, docs, model, startTime, reclaim)
    ensures NoLiveLease(start, model, startTime, reclaim) && more > 0 ==> batchSize * batches < claimed + more
  {
    hide Reached, NoLiveLease, Settled, Outstanding;
    assert batchSize * (batches + 1) == batchSize * batches + batchSize;
    if NoLiveLease(start, model, startTime, reclaim) && claimed < batchSize * batches {
      OutstandingIsNotReached(start, work, docs, model, embed, startTime, reclaim);
    }
  }

  lemma DrainEnds(
    start: map<Key, Row>, rows: map<Key, Row>, docs: map<VersionId, string>, model: string, embed: Provider,
    startTime: int, reclaim: int, maxBatches: nat, batchSize: nat, total: BatchResult, productive: nat)
    requires Settled(start, rows, docs, model, embed) && forall k | k in start :: k.version in docs
    requires |Outstanding(rows, model)| == |Outstanding(start, model)| - total.claimed
    requires total.claimed <= batchSize * productive && productive <= maxBatches
    requires total.claimed < batchSize * maxBatches ==> Reached(start, rows, docs, model, startTime, reclaim)
    requires NoLiveLease(start, model, startTime, reclaim) && productive > 0 ==>
      batchSize * (productive - 1) < total.claimed
    ensures NoLiveLease(start, model, startTime, reclaim) ==>
      ExactDrain(start, model, maxBatches, batchSize, total, productive)
  {
    hide Reached, NoLiveLease, Settled, Outstanding;
    assert batchSize * maxBatches == batchSize * productive + batchSize * (maxBatches - productive);
    if NoLiveLease(start, model, startTime, reclaim) && total.claimed < batchSize * maxBatches {
      OutstandingIsNotReached(start, rows, docs, model, embed, startTime, reclaim);
    }
  }

  lemma SucceedingStep(done: set<Key>, docs: map<VersionId, string>, embed: Provider, key: Key)
    requires key !in done && key.version in docs
    ensures |Succeeding(done + {key}, docs, embed)|
      == |Succeeding(done, docs, embed)| + if Attempt(embed, docs[key.version]).Some? then 1 else 0
  {
    if Attempt(embed, docs[key.version]).Some? {
      assert Succeeding(done + {key}, docs, embed) == Succeeding(done, docs, embed) + {key};
    } else {
      assert Succeeding(done + {key}, docs, embed) == Succeeding(done, docs, embed);
    }
  }

  /** Right after a backfill no taken row can have a changed text. */
  lemma StartedAreCurrent(rows: map<Key, Row>, started: map<Key, Row>, docs: map<VersionId, string>, model: string,
      now: int, reclaim: int, limit: nat)
    requires started == Backfilled(rows, docs, model, now)
    ensures AllCurrent(started, docs, model)
    ensures forall k | k in Selection(started, docs, model, now, reclaim, limit) ::
      k in started && k.model == model && k.version in docs && Current(started[k], docs[k.version])
  {
    BackfillMakesCurrent(rows, docs, model, now);
    SelectionIsOldestFirst(started, docs, model, now, reclaim, limit);
    forall k | k in Selection(started, docs, model, now, reclaim, limit)
      ensures k in started && k.model == model && k.version in docs && Current(started[k], docs[k.version])
    {
      assert k in Candidates(started, docs, model, now, reclaim);
      assert Key(k.version, k.model) == k;
    }
  }

  class SemanticEmbeddingIndexer {
    const index: EmbeddingIndex
    const embed: Provider
    const model: string
    const dimensions: nat

    constructor (index: EmbeddingIndex, embed: Provider, model: string, dimensions: nat)
      ensures this.index == index && this.embed == embed && this.model == model && this.dimensions == dimensions
    {
      this.index, this.embed, this.model, this.dimensions := index, embed, model, dimensions;
    }

    /** One pass of the item loop; any provider error marks the row failed. */
    method ProcessItem(item: WorkItem) returns (indexed: bool)
      requires index.Valid() && item.key in index.rows
      requires item.digest == Sha256(item.text) && index.rows[item.key].digest == item.digest
      modifies index`rows, index`now
      ensures index.Valid() && index.now >= old(index.now)
      ensures indexed <==> Attempt(embed, item.text).Some?
      ensures item.key in index.rows && ItemDone(index.rows[item.key], item.text, embed)
      ensures index.rows == old(index.rows)[item.key := index.rows[item.key]]
    {
      index.Advance();
      if item.text == "" {
        index.MarkFailed(item.key, "empty semantic source");
        return false;
      }
      var answer := embed(item.text);
      if answer.None? || |answer.value| != DIMENSIONS {
        index.MarkFailed(item.key, "provider error");
        return false;
      }
      index.Index(item, answer.value);
      return true;
    }

    /** The item loop. */
    method ProcessItems(items: seq<WorkItem>, ghost ordered: seq<Key>) returns (indexed: nat, failed: nat)
      requires index.Valid() && ItemsFor(items, ordered, index.rows, index.docs)
      modifies index`rows, index`now
      ensures index.Valid() && index.now >= old(index.now)
      ensures BatchDone(old(index.rows), index.rows, index.docs, KeySet(ordered), embed)
      ensures indexed + failed == |items|
      ensures indexed == |Succeeding(KeySet(ordered), index.docs, embed)|
    {
      hide ItemDone, Attempt, Succeeding, KeySet, BatchDone, ItemsFor;
      indexed, failed := 0, 0;
      ghost var start, docs := index.rows, index.docs;
      NothingDone(items, ordered, start, docs, embed);
      var i := 0;
      while i < |items|
        invariant 0 <= i <= |items| && index.Valid() && index.now >= old(index.now)
        invariant indexed + failed == i
        invariant indexed == |Succeeding(KeySet(ordered[..i]), docs, embed)|
        invariant BatchDone(start, index.rows, docs, KeySet(ordered[..i]), embed)
      {
        ghost var key, middle := ordered[i], index.rows;
        NextItem(start, middle, docs, items, ordered, i, embed);
        var ok := ProcessItem(items[i]);
        BatchDoneStep(start, middle, docs, KeySet(ordered[..i]), embed, key, index.rows[key]);
        SucceedingStep(KeySet(ordered[..i]), docs, embed, key);
        if ok {
          indexed := indexed + 1;
        } else {
          failed := failed + 1;
        }
        i := i + 1;
      }
      assert ordered[..i] == ordered;
    }

    /** `run_batch`: backfill, claim, then one attempt per claimed item. `None` is the dimension
        error of the index port, raised before anything is written. */
    method RunBatch(batchSize: nat, reclaim: int) returns (result: Option<BatchResult>, ghost chosen: set<Key>)
      requires index.Valid()
      modifies index`rows, index`now
      ensures index.Valid() && index.now >= old(index.now)
      ensures result.None? <==> dimensions != DIMENSIONS
      ensures result.None? ==> index.rows == old(index.rows)
      ensures result.Some? ==>
        BatchFacts(old(index.rows), index.rows, index.docs, model, old(index.now), reclaim, batchSize, embed, chosen,
          result.value)
    {
      hide BatchFacts, Selection, Backfilled, HandedOut, ClaimedRows, BatchDone, Succeeding, Candidates, KeysOf,
        Current, Sorted;
      chosen := {};
      var backfilled := index.Backfill(model, dimensions);
      if backfilled.None? {
        return None, {};
      }
      ghost var started, docs := index.rows, index.docs;
      chosen := Selection(started, docs, model, index.now, reclaim, batchSize);
      var items, ordered := index.Claim(model, batchSize, reclaim);
      ghost var claimed, claimTime := index.rows, index.now;
      StartedAreCurrent(old(index.rows), started, docs, model, claimTime, reclaim, batchSize);
      ItemsAreFor(started, docs, chosen, ordered, claimTime);
      var indexed, failed := ProcessItems(items, ordered);
      ClaimedThenDone(started, docs, chosen, claimTime, index.rows, embed);
      result := Some(BatchResult(backfilled.value, |items|, indexed, failed));
      BatchFactsFrom(old(index.rows), started, index.rows, docs, model, claimTime, reclaim, batchSize, embed, chosen,
        result.value);
    }

    /** The loop of the indexing script: batches until one claims nothing or the limit is reached.
        `productive` counts the batches that claimed something. */
    method Drain(maxBatches: nat, batchSize: nat, reclaim: int) returns (total: BatchResult, ghost productive: nat)
      requires index.Valid() && dimensions == DIMENSIONS && maxBatches > 0
      modifies index`rows, index`now
      ensures index.Valid()
      ensures DrainFacts(Backfilled(old(index.rows), index.docs, model, old(index.now)), index.rows, index.docs, model,
        embed,
                         old(index.now), reclaim, maxBatches, batchSize, total, productive)
      ensures NoLiveLease(old(index.rows), model, old(index.now), reclaim) ==>
        ExactDrain(Backfilled(old(index.rows), index.docs, model, old(index.now)), model, maxBatches, batchSize, total,
          productive)
    {
      hide Backfilled, BatchFacts, NoLiveLease, Outstanding, AllCurrent, Settled, Reached;
      ghost var docs, startTime, start := index.docs, index.now, Backfilled(index.rows, index.docs, model, index.now);
      ghost var n, alone := |Outstanding(start, model)|, NoLiveLease(start, model, startTime, reclaim);
      SettledAtStart(start, docs, model, embed);
      BackfillKeepsLeases(index.rows, docs, model, startTime, reclaim);
      total, productive := BatchResult(0, 0, 0, 0), 0;
      ghost var work := start;
      var batches := 0;
      while batches < maxBatches
        invariant batches <= maxBatches && productive == batches
        invariant index.Valid() && index.docs == docs && index.now >= startTime
        invariant work == Backfilled(index.rows, docs, model, index.now)
        invariant batches > 0 ==> work == index.rows
        invariant Settled(start, work, docs, model, embed)
        invariant total.claimed == total.indexed + total.failed == n - |Outstanding(work, model)|
        invariant total.claimed <= batchSize * batches
        invariant total.claimed < batchSize * batches ==> Reached(start, work, docs, model, startTime, reclaim)
        invariant alone && batches > 0 ==> batchSize * (batches - 1) < total.claimed
      {
        ghost var before, beforeTime := index.rows, index.now;
        var result, chosen := RunBatch(batchSize, reclaim);
        OneBatch(start, before, index.rows, docs, model, startTime, beforeTime, reclaim, batchSize, embed, chosen,
          result.value);
        CurrentNeedsNoBackfill(index.rows, docs, model, index.now);
        DrainArithmetic(start, work, index.rows, docs, model, embed, startTime, reclaim, batchSize, batches,
          total.claimed, result.value.claimed);
        work := index.rows;
        total := BatchResult(total.backfilled + result.value.backfilled, total.claimed + result.value.claimed,
                             total.indexed + result.value.indexed, total.failed + result.value.failed);
        if result.value.claimed == 0 {
          break;
        }
        batches, productive := batches + 1, productive + 1;
      }
      DrainEnds(start, index.rows, docs, model, embed, startTime, reclaim, maxBatches, batchSize, total, productive);
    }
  }
}
