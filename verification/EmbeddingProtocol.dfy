/** The embedding work queue as a protocol: publishers, backfills, claims, workers that crash or
    write late, in any interleaving. Each event is one committed transaction. */
module EmbeddingProtocol {
  import opened Collections
  import opened Embeddings
  import opened Hashing

  /** What the provider may answer: `embeds(text, vector)`. */
  type Provider = (string, Vector) -> bool

  /** `handed` holds every work item ever handed to a worker, `marks` every stale mark a claim
      still owes: a worker may act on either at any later time, repeatedly or never. */
  datatype State = State(
    docs: map<VersionId, string>,
    rows: map<Key, Row>,
    now: int,
    handed: set<WorkItem>,
    marks: set<(Key, Digest)>)

  datatype Event =
    | Tick(micros: nat)
    | Publish(version: VersionId, model: string, text: string)
    | Backfill(model: string)
    | Claim(model: string, chosen: set<Key>, reclaimAfterSeconds: int)
    | Index(item: WorkItem, vector: Vector)
    | Fail(item: WorkItem, error: string)
    | MarkStale(key: Key, digest: Digest)

  ghost predicate Enabled(s: State, e: Event, embeds: Provider) {
    match e
    case Claim(model, chosen, reclaim) =>
      forall k | k in chosen ::
        k in s.rows && k.model == model && k.version in s.docs && Claimable(s.rows[k], s.now, reclaim)
    case Index(item, vector) => item in s.handed && embeds(item.text, vector) && |vector| == DIMENSIONS
    case Fail(item, error) => item in s.handed
    case MarkStale(key, digest) => (key, digest) in s.marks
    case _ => true
  }

  function AfterClaim(s: State, chosen: set<Key>): map<Key, Row> {
    map k | k in s.rows :: if k in chosen then Claimed(s.rows[k], s.now) else s.rows[k]
  }

  function Items(s: State, chosen: set<Key>): set<WorkItem> {
    set k | k in chosen && k in s.rows && k.version in s.docs && Current(s.rows[k], s.docs[k.version]) ::
      WorkItem(k, Sha256(s.docs[k.version]), s.docs[k.version])
  }

  function Mismatches(s: State, chosen: set<Key>): set<(Key, Digest)> {
    set k | k in chosen && k in s.rows && k.version in s.docs && !Current(s.rows[k], s.docs[k.version]) ::
      (k, Sha256(s.docs[k.version]))
  }

  function Apply(s: State, e: Event): State {
    match e
    case Tick(micros) => s.(now := s.now + micros)
    case Publish(version, model, text) =>
      var k, d := Key(version, model), Sha256(text);
      s.(docs := s.docs[version := text],
         rows := s.rows[k := if k in s.rows then Republished(s.rows[k], d, s.now) else Inserted(d, s.now)])
    case Backfill(model) => s.(rows := Backfilled(s.rows, s.docs, model, s.now))
    case Claim(model, chosen, reclaim) =>
      s.(rows := AfterClaim(s, chosen), handed := s.handed + Items(s, chosen), marks := s.marks + Mismatches(s, chosen))
    case Index(item, vector) =>
      if item.key in s.rows then s.(rows := s.rows[item.key := IndexedRow(item.digest, vector, s.now)]) else s
    case Fail(item, error) =>
      if item.key in s.rows then s.(rows := s.rows[item.key := FailedRow(s.rows[item.key], error, s.now)]) else s
    case MarkStale(key, digest) =>
      if key in s.rows then s.(rows := s.rows[key := MarkedStale(digest, s.now)]) else s
  }

  const INITIAL: State := State(map[], map[], 0, {}, {})

  /** A run: the states between the events. */
  ghost predicate IsRun(states: seq<State>, events: seq<Event>, embeds: Provider) {
    && |states| == |events| + 1
    && states[0] == INITIAL
    && forall i | 0 <= i < |events| ::
       Enabled(states[i], events[i], embeds) && states[i + 1] == Apply(states[i], events[i])
  }

  // --- Safety of what search reads ------------------------------------------------------------------

  ghost predicate RowSound(row: Row, now: int, embeds: Provider) {
    && row.updatedAt <= now
    && (row.status == Indexed ==>
          && row.vector.Some? && row.indexedAt.Some?
          && |row.vector.value| == DIMENSIONS
          && embeds(row.digest.text, row.vector.value))
    && (row.status == Failed ==> row.vector.None? && row.indexedAt.None? && row.lastError.Some?)
    && (row.status == Pending ==> row.vector.None?)
  }

  ghost predicate Safe(s: State, embeds: Provider) {
    && (forall k | k in s.rows :: RowSound(s.rows[k], s.now, embeds) && k.version in s.docs)
    && (forall i | i in s.handed :: i.digest == Sha256(i.text) && i.key in s.rows)
  }

  lemma EventKeepsSafe(s: State, e: Event, embeds: Provider)
    requires Safe(s, embeds) && Enabled(s, e, embeds)
    ensures Safe(Apply(s, e), embeds)
  {
    var t := Apply(s, e);
    match e
    case Backfill(model) =>
      forall k | k in t.rows ensures RowSound(t.rows[k], t.now, embeds) && k.version in t.docs {
        if k !in s.rows { assert k in KeysOf(s.docs, model); }
      }
    case _ =>
  }

  /** In every interleaving, a row that search can see holds a vector of the right length, an
      indexing time, and that vector embeds a text whose digest is the row's own checksum. */
  lemma {:induction false} EveryIndexedRowIsSound(states: seq<State>, events: seq<Event>, embeds: Provider, n: nat)
    requires IsRun(states, events, embeds) && n < |states|
    ensures Safe(states[n], embeds)
  {
    if n > 0 {
      EveryIndexedRowIsSound(states, events, embeds, n - 1);
      EventKeepsSafe(states[n - 1], events[n - 1], embeds);
    }
  }

  // --- Leases ------------------------------------------------------------------------------------------

  ghost predicate Claims(e: Event, key: Key) {
    e.Claim? && key in e.chosen
  }

  /** `key` is in status `processing` in every state from `from` to `to`. */
  ghost predicate StaysProcessing(states: seq<State>, key: Key, from: nat, to: nat)
    requires to < |states|
  {
    forall m | from <= m <= to :: key in states[m].rows && states[m].rows[key].status == Processing
  }

  lemma TimeIsMonotone(s: State, e: Event)
    ensures s.now <= Apply(s, e).now
  {
  }

  lemma TouchStampsNow(s: State, e: Event, key: Key)
    requires key in s.rows && key in Apply(s, e).rows
    ensures Apply(s, e).rows[key] == s.rows[key] || Apply(s, e).rows[key].updatedAt == s.now
  {
  }

  lemma {:induction false} LeaseStampIsKept(states: seq<State>, events: seq<Event>, embeds: Provider, key: Key, i: nat,
      m: nat)
    requires IsRun(states, events, embeds) && i < m < |states|
    requires Claims(events[i], key) && StaysProcessing(states, key, i + 1, m)
    ensures states[i].now <= states[m].rows[key].updatedAt <= states[m].now
    decreases m
  {
    if m == i + 1 {
      assert key in states[i].rows;
      TimeIsMonotone(states[i], events[i]);
    } else {
      LeaseStampIsKept(states, events, embeds, key, i, m - 1);
      TouchStampsNow(states[m - 1], events[m - 1], key);
      TimeIsMonotone(states[m - 1], events[m - 1]);
    }
  }

  /** Two claims of one row, the row never leaving `processing` in between, are at least the later
      claim's reclaim interval apart. */
  lemma ClaimsAreSpaced(states: seq<State>, events: seq<Event>, embeds: Provider, key: Key, i: nat, j: nat)
    requires IsRun(states, events, embeds) && i < j < |events|
    requires Claims(events[i], key) && Claims(events[j], key)
    requires StaysProcessing(states, key, i + 1, j)
    ensures states[j].now - states[i].now >= events[j].reclaimAfterSeconds * MICROS_PER_SECOND
  {
    LeaseStampIsKept(states, events, embeds, key, i, j);
  }

  /** A claim is possible exactly when each row it takes is a row of the model with a document and is
      pending, stale, or has been in processing for at least the worker's reclaim interval. */
  lemma ClaimIsEnabledIff(s: State, embeds: Provider, model: string, chosen: set<Key>, reclaim: int)
    ensures Enabled(s, Claim(model, chosen, reclaim), embeds) <==>
      forall key | key in chosen ::
        && key in s.rows && key.model == model && key.version in s.docs
        && var row := s.rows[key];
           || row.status == Pending || row.status == Stale
           || (row.status == Processing && s.now - row.updatedAt >= reclaim * 1_000_000)
  {
  }

  lemma HeldRowIsUntouched(s: State, e: Event, key: Key)
    requires key in s.rows && s.rows[key].status == Processing && !Claims(e, key)
    requires key in Apply(s, e).rows && Apply(s, e).rows[key].status == Processing
    ensures Apply(s, e).rows[key] == s.rows[key]
  {
  }

  lemma {:induction false} LeaseStampIsTheClaim(states: seq<State>, events: seq<Event>, embeds: Provider, key: Key,
      i: nat,
      m: nat)
    requires IsRun(states, events, embeds) && i < m < |states|
    requires Claims(events[i], key) && StaysProcessing(states, key, i + 1, m)
    requires forall n | i < n < m :: !Claims(events[n], key)
    ensures states[m].rows[key].updatedAt == states[i].now
    decreases m
  {
    if m == i + 1 {
      assert key in states[i].rows;
    } else {
      LeaseStampIsTheClaim(states, events, embeds, key, i, m - 1);
      assert states[m] == Apply(states[m - 1], events[m - 1]) && key in states[m].rows && key in states[m - 1].rows;
      assert states[m].rows[key].status == Processing && states[m - 1].rows[key].status == Processing;
      HeldRowIsUntouched(states[m - 1], events[m - 1], key);
    }
  }

  /** In every run: a row that was claimed, and then neither finished nor claimed again, can be taken
      back by a worker exactly when that worker's reclaim interval has passed since the claim. The lease
      of a crashed worker ends, and it does not end early. */
  lemma AbandonedRowIsReclaimableIff(states: seq<State>, events: seq<Event>, embeds: Provider, key: Key, i: nat, j: nat,
      reclaim: int)
    requires IsRun(states, events, embeds) && i < j < |states|
    requires Claims(events[i], key) && StaysProcessing(states, key, i + 1, j)
    requires forall n | i < n < j :: !Claims(events[n], key)
    ensures Enabled(states[j], Claim(key.model, {key}, reclaim), embeds)
      <==> states[j].now - states[i].now >= reclaim * 1_000_000
  {
    LeaseStampIsTheClaim(states, events, embeds, key, i, j);
    EveryIndexedRowIsSound(states, events, embeds, j);
    ClaimIsEnabledIff(states[j], embeds, key.model, {key}, reclaim);
    assert key in {key};
  }

  lemma LeavingTerminal(s: State, e: Event, embeds: Provider, key: Key)
    requires Enabled(s, e, embeds) && key in s.rows && Terminal(s.rows[key])
    ensures key in Apply(s, e).rows
    ensures Terminal(Apply(s, e).rows[key]) || Apply(s, e).rows[key].status == Stale
  {
  }

  /** Finished rows are not picked up again by themselves: between an indexed or failed state and a
      later claim the row was stale at some point. */
  lemma {:induction false} FinishedRowsAreRetriedOnlyWhenStale(states: seq<State>, events: seq<Event>, embeds: Provider,
      key: Key, i: nat, j: nat)
    requires IsRun(states, events, embeds) && i <= j < |events|
    requires key in states[i].rows && Terminal(states[i].rows[key])
    requires Claims(events[j], key)
    ensures exists m | i < m <= j :: key in states[m].rows && states[m].rows[key].status == Stale
  {
    var m := i;
    while m < j && Terminal(states[m].rows[key])
      invariant i <= m <= j && key in states[m].rows
      invariant Terminal(states[m].rows[key]) || (i < m && states[m].rows[key].status == Stale)
    {
      LeavingTerminal(states[m], events[m], embeds, key);
      m := m + 1;
    }
    assert key in states[m].rows && states[m].rows[key].status == Stale;
  }

  // --- Column by column -------------------------------------------------------------------------------------

  /** A claim moves exactly the chosen rows to processing, stamps them and clears their error; their
      digest, vector and indexing time stay. For each it hands out the present text, or owes a stale mark
      with the present digest when the stored one differs. */
  lemma WhatAClaimDoes(s: State, e: Event, embeds: Provider, key: Key)
    requires e.Claim? && Enabled(s, e, embeds) && key in s.rows
    ensures Apply(s, e).rows.Keys == s.rows.Keys
    ensures var row, after := s.rows[key], Apply(s, e).rows[key];
      if key !in e.chosen then after == row
      else
        && after.status == Processing && after.updatedAt == s.now && after.lastError.None?
        && after.digest == row.digest && after.vector == row.vector && after.indexedAt == row.indexedAt
    ensures key in e.chosen ==>
      var text := s.docs[key.version];
      if s.rows[key].digest == Sha256(text) then WorkItem(key, Sha256(text), text) in Apply(s, e).handed
      else (key, Sha256(text)) in Apply(s, e).marks
  {
  }

  /** A claim in state `s` hands this item to its worker: the present text of a chosen row that has its digest. */
  ghost predicate HandsOut(s: State, e: Event, item: WorkItem) {
    && e.Claim? && item.key in e.chosen && item.key in s.rows && item.key.version in s.docs
    && item.text == s.docs[item.key.version] && item.digest == Sha256(item.text)
       && s.rows[item.key].digest == item.digest
  }

  /** A claim in state `s` owes this stale mark: the present digest of a chosen row that has another. */
  ghost predicate Owes(s: State, e: Event, mark: (Key, Digest)) {
    && e.Claim? && mark.0 in e.chosen && mark.0 in s.rows && mark.0.version in s.docs
    && mark.1 == Sha256(s.docs[mark.0.version]) && s.rows[mark.0].digest != mark.1
  }

  lemma NothingElseIsHandedOut(s: State, e: Event, item: WorkItem, mark: (Key, Digest))
    ensures item in Apply(s, e).handed <==> item in s.handed || HandsOut(s, e, item)
    ensures mark in Apply(s, e).marks <==> mark in s.marks || Owes(s, e, mark)
  {
  }

  /** In every run a worker may report on an item exactly when some earlier claim handed it out, however long
      ago and however often it has reported before; an embedding must come from the provider and have 1,536
      dimensions. */
  lemma {:induction false} ReportsAreEnabledIff(states: seq<State>, events: seq<Event>, embeds: Provider, n: nat,
      item: WorkItem, vector: Vector, error: string)
    requires IsRun(states, events, embeds) && n < |states|
    ensures Enabled(states[n], Fail(item, error), embeds)
      <==> exists i | 0 <= i < n :: HandsOut(states[i], events[i], item)
    ensures Enabled(states[n], Index(item, vector), embeds) <==>
      && (exists i | 0 <= i < n :: HandsOut(states[i], events[i], item))
      && embeds(item.text, vector) && |vector| == 1536
  {
    hide Apply, HandsOut;
    if n > 0 {
      ReportsAreEnabledIff(states, events, embeds, n - 1, item, vector, error);
      NothingElseIsHandedOut(states[n - 1], events[n - 1], item, (item.key, item.digest));
    }
  }

  /** And it may put a row back to stale exactly when some earlier claim found another digest in it. */
  lemma {:induction false} MarksAreEnabledIff(states: seq<State>, events: seq<Event>, embeds: Provider, n: nat,
      mark: (Key, Digest))
    requires IsRun(states, events, embeds) && n < |states|
    ensures Enabled(states[n], MarkStale(mark.0, mark.1), embeds) <==>
      exists i | 0 <= i < n :: Owes(states[i], events[i], mark)
  {
    hide Apply, Owes;
    if n > 0 {
      MarksAreEnabledIff(states, events, embeds, n - 1, mark);
      NothingElseIsHandedOut(states[n - 1], events[n - 1], WorkItem(mark.0, mark.1, ""), mark);
    }
  }

  /** Time, publishes and backfills wait for nobody. */
  lemma OthersAreAlwaysEnabled(s: State, e: Event, embeds: Provider)
    requires e.Tick? || e.Publish? || e.Backfill?
    ensures Enabled(s, e, embeds)
  {
  }

  /** Publishing a known version puts its row back to stale under the new digest and leaves the vector in
      place until somebody claims the row; a new version starts pending without a vector. */
  lemma WhatAPublishDoes(s: State, e: Event)
    requires e.Publish?
    ensures var key, t := Key(e.version, e.model), Apply(s, e);
      && t.docs == s.docs[e.version := e.text]
      && key in t.rows && t.rows[key].digest == Sha256(e.text) && t.rows[key].updatedAt == s.now
      && t.rows[key].status == (if key in s.rows then Stale else Pending)
      && t.rows[key].vector == (if key in s.rows then s.rows[key].vector else None)
      && forall k | k != key :: (k in t.rows <==> k in s.rows) && (k in s.rows ==> t.rows[k] == s.rows[k])
  {
  }

  ghost predicate TouchesOnly(before: map<Key, Row>, after: map<Key, Row>, key: Key) {
    after.Keys == before.Keys && forall k | k in before && k != key :: after[k] == before[k]
  }

  /** An index write, whatever state the row is in. */
  lemma WhatAnIndexWriteDoes(s: State, item: WorkItem, vector: Vector)
    ensures var t := Apply(s, Index(item, vector));
      && TouchesOnly(s.rows, t.rows, item.key)
      && (item.key in s.rows ==> t.rows[item.key] == Row(item.digest, Some(vector), Indexed, Some(s.now), s.now, None))
  {
  }

  lemma WhatAFailureWriteDoes(s: State, item: WorkItem, error: string)
    ensures var t := Apply(s, Fail(item, error));
      && TouchesOnly(s.rows, t.rows, item.key)
      && (item.key in s.rows ==>
            var kept := if |error| <= 500 then error else error[..500];
            t.rows[item.key] == Row(s.rows[item.key].digest, None, Failed, None, s.now, Some(kept)))
  {
  }

  lemma WhatAStaleMarkDoes(s: State, key: Key, digest: Digest)
    ensures var t := Apply(s, MarkStale(key, digest));
      && TouchesOnly(s.rows, t.rows, key)
      && (key in s.rows ==> t.rows[key] == Row(digest, None, Stale, None, s.now, None))
  {
  }

  // --- Freshness -----------------------------------------------------------------------------------------

  /** Every row matches the present text of its document, and so does every item a worker holds. */
  ghost predicate Fresh(s: State) {
    && (forall k | k in s.rows :: k.version in s.docs && Current(s.rows[k], s.docs[k.version]))
    && (forall i | i in s.handed :: i.key in s.rows && i.digest == Sha256(i.text) && i.text == s.docs[i.key.version])
    && s.marks == {}
  }

  /** Versions are immutable: a publish never meets an existing version. */
  ghost predicate PublishesNew(s: State, e: Event) {
    e.Publish? ==> e.version !in s.docs
  }

  lemma EventKeepsFresh(s: State, e: Event, embeds: Provider)
    requires Fresh(s) && Enabled(s, e, embeds) && PublishesNew(s, e)
    ensures Fresh(Apply(s, e))
  {
    var t := Apply(s, e);
    match e
    case Backfill(model) =>
      BackfillMakesCurrent(s.rows, s.docs, model, s.now);
      forall k | k in t.rows ensures k.version in t.docs && Current(t.rows[k], t.docs[k.version]) {
        if k !in s.rows { assert k in KeysOf(s.docs, model); }
      }
    case _ =>
  }

  /** As long as every publish creates a new version, an indexed row always embeds the present text
      of its document, late writes included. */
  lemma {:induction false} IndexedRowsAreFresh(states: seq<State>, events: seq<Event>, embeds: Provider, n: nat)
    requires IsRun(states, events, embeds) && n < |states|
    requires forall i | 0 <= i < |events| :: PublishesNew(states[i], events[i])
    ensures Fresh(states[n])
    ensures forall k | k in states[n].rows && states[n].rows[k].status == Indexed ::
      states[n].rows[k].vector.Some? && embeds(states[n].docs[k.version], states[n].rows[k].vector.value)
  {
    EveryIndexedRowIsSound(states, events, embeds, n);
    if n > 0 {
      IndexedRowsAreFresh(states, events, embeds, n - 1);
      EventKeepsFresh(states[n - 1], events[n - 1], embeds);
    }
  }

  /** In general a late write leaves the row current exactly when the worker's text is still the
      document's text; otherwise the next backfill marks the row stale again. */
  lemma LateWriteIsCurrentIff(s: State, item: WorkItem, vector: Vector, embeds: Provider)
    requires Safe(s, embeds) && Enabled(s, Index(item, vector), embeds)
    ensures var t := Apply(s, Index(item, vector));
      && item.key in t.rows && item.key.version in t.docs
      && (Current(t.rows[item.key], t.docs[item.key.version]) <==> item.text == s.docs[item.key.version])
      && (item.text != s.docs[item.key.version] ==>
            Apply(t, Backfill(item.key.model)).rows[item.key] == MarkedStale(Sha256(s.docs[item.key.version]), s.now))
  {
    var t := Apply(s, Index(item, vector));
    BackfillMakesCurrent(t.rows, t.docs, item.key.model, t.now);
    assert item.key in KeysOf(t.docs, item.key.model) || item.key in t.rows;
  }

  /** Whatever happened before, right after a backfill every indexed row of the model embeds the
      present text of its document. */
  lemma BackfillRestoresFreshness(states: seq<State>, events: seq<Event>, embeds: Provider, n: nat, key: Key)
    requires IsRun(states, events, embeds) && n < |events| && events[n] == Backfill(key.model)
    requires key in states[n + 1].rows && states[n + 1].rows[key].status == Indexed
    ensures key.version in states[n + 1].docs
    ensures states[n + 1].rows[key].vector.Some?
    ensures embeds(states[n + 1].docs[key.version], states[n + 1].rows[key].vector.value)
  {
    EveryIndexedRowIsSound(states, events, embeds, n + 1);
    var s := states[n];
    BackfillMakesCurrent(s.rows, s.docs, key.model, s.now);
    assert Key(key.version, key.model) == key;
  }
}
