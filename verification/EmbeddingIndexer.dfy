/** One worker: the index port as a table, and the batch loop that drains it. */
module EmbeddingIndexer {
  import opened Collections
  import opened Embeddings
  import opened GroupRanking
  import opened Hashing
  import opened Orders

  /** The embedding provider; `None` stands for any exception it raises. */
  type Provider = string -> Option<Vector>

  /** What one work item ends as. */
  function Attempt(embed: Provider, text: string): Option<Vector> {
    if text == "" then None
    else
      var answer := embed(text);
      if answer.Some? && |answer.value| == DIMENSIONS then answer else None
  }

  datatype BatchResult = BatchResult(backfilled: nat, claimed: nat, indexed: nat, failed: nat)

  /** ORDER BY updated_at, skill_version_fk. */
  function OlderFirst(rows: map<Key, Row>): (Key, Key) -> bool {
    (a, b) =>
      var s, t := if a in rows then rows[a].updatedAt else 0, if b in rows then rows[b].updatedAt else 0;
      s < t || (s == t && a.version < b.version)
  }

  predicate ByVersion(a: Key, b: Key) {
    a.version < b.version
  }

  function Candidates(rows: map<Key, Row>, docs: map<VersionId, string>, model: string, now: int,
      reclaim: int): set<Key> {
    set k | k in rows && k.model == model && k.version in docs && Claimable(rows[k], now, reclaim)
  }

  lemma OlderFirstIsOrder(rows: map<Key, Row>, keys: set<Key>, model: string)
    requires forall k | k in keys :: k.model == model
    ensures StrictOrder(OlderFirst(rows)) && SeparatesSet(OlderFirst(rows), keys)
    ensures StrictOrder(ByVersion) && SeparatesSet(ByVersion, keys)
  {
  }

  /** The keys one claim takes: the first `limit` candidates, oldest first. */
  function Selection(rows: map<Key, Row>, docs: map<VersionId, string>, model: string, now: int, reclaim: int,
      limit: nat): set<Key> {
    var candidates := Candidates(rows, docs, model, now, reclaim);
    OlderFirstIsOrder(rows, candidates, model);
    var oldest := Take(SortSet(OlderFirst(rows), candidates), limit);
    set k | k in oldest
  }

  lemma PrefixComesFirst<T(!new)>(before: (T, T) -> bool, sorted: seq<T>, limit: nat, c: T, d: T)
    requires StrictOrder(before) && Sorted(before, sorted)
    requires c in Take(sorted, limit) && d in sorted && d !in Take(sorted, limit)
    ensures before(c, d)
  {
    var taken := Take(sorted, limit);
    var i :| 0 <= i < |taken| && taken[i] == c;
    var j :| 0 <= j < |sorted| && sorted[j] == d;
    assert forall x | 0 <= x < |taken| :: sorted[x] == taken[x] && taken[x] in taken;
  }

  lemma {:induction false} DistinctTake<T(!new)>(before: (T, T) -> bool, s: seq<T>)
    requires StrictOrder(before) && Sorted(before, s)
    ensures |set x | x in s| == |s|
  {
    if s != [] {
      var n := |s| - 1;
      DistinctTake(before, s[..n]);
      assert s == s[..n] + [s[n]];
      assert s[n] !in s[..n];
      assert (set x | x in s) == (set x | x in s[..n]) + {s[n]};
    } else {
      assert (set x | x in s) == {};
    }
  }

  /** A claim takes as many candidates as the limit allows, and never a younger one in place of an
      older one. */
  lemma SelectionIsOldestFirst(rows: map<Key, Row>, docs: map<VersionId, string>, model: string, now: int, reclaim: int,
      limit: nat)
    ensures var candidates, chosen := Candidates(rows, docs, model, now, reclaim),
      Selection(rows, docs, model, now, reclaim, limit);
      && chosen <= candidates
      && |chosen| == (if |candidates| <= limit then |candidates| else limit)
      && forall c, d | c in chosen && d in candidates && d !in chosen :: OlderFirst(rows)(c, d)
  {
    var candidates := Candidates(rows, docs, model, now, reclaim);
    OlderFirstIsOrder(rows, candidates, model);
    hide Candidates, OlderFirst;
    var sorted := SortSet(OlderFirst(rows), candidates);
    var chosen := Selection(rows, docs, model, now, reclaim, limit);
    DistinctTake(OlderFirst(rows), Take(sorted, limit));
    assert forall c :: c in chosen <==> c in Take(sorted, limit);
    forall c, d | c in chosen && d in candidates && d !in chosen ensures OlderFirst(rows)(c, d) {
      PrefixComesFirst(OlderFirst(rows), sorted, limit, c, d);
    }
  }

  /** What a claim takes, in columns: rows of the model with a document that are pending, stale, or in
      processing for at least the reclaim interval; and of two such rows, one taken and one left, the
      taken one was updated earlier or, at the same time, has the smaller version. */
  lemma SelectionInColumns(rows: map<Key, Row>, docs: map<VersionId, string>, model: string, now: int, reclaim: int,
      limit: nat, c: Key, d: Key)
    ensures c in Candidates(rows, docs, model, now, reclaim) <==>
      && c in rows && c.model == model && c.version in docs
      && (|| rows[c].status == Pending || rows[c].status == Stale
          || (rows[c].status == Processing && now - rows[c].updatedAt >= reclaim * 1_000_000))
    ensures var chosen := Selection(rows, docs, model, now, reclaim, limit);
      c in chosen && d in Candidates(rows, docs, model, now, reclaim) && d !in chosen ==>
        && c in rows && d in rows
        && (rows[c].updatedAt < rows[d].updatedAt || (rows[c].updatedAt == rows[d].updatedAt && c.version < d.version))
  {
    SelectionIsOldestFirst(rows, docs, model, now, reclaim, limit);
  }

  // --- The two loops of the index port -----------------------------------------------------------

  function BackfillOne(rows: map<Key, Row>, docs: map<VersionId, string>, model: string, now: int,
      v: VersionId): map<Key, Row>
    requires v in docs
  {
    rows[Key(v, model) := BackfilledRow(rows, Key(v, model), docs[v], now)]
  }

  /** Rows after the loop has visited `versions`. */
  function BackfillLoop(rows: map<Key, Row>, docs: map<VersionId, string>, model: string, now: int,
      versions: seq<VersionId>): map<Key, Row>
    requires forall v | v in versions :: v in docs
  {
    if versions == [] then rows
    else
      var n := |versions| - 1;
      BackfillOne(BackfillLoop(rows, docs, model, now, versions[..n]), docs, model, now, versions[n])
  }

  lemma {:induction false} BackfillLoopRows(rows: map<Key, Row>, docs: map<VersionId, string>, model: string, now: int,
      versions: seq<VersionId>)
    requires forall v | v in versions :: v in docs
    requires Distinct(versions)
    ensures var after := BackfillLoop(rows, docs, model, now, versions);
      && (forall k :: k in after <==> k in rows || (k.model == model && k.version in versions))
      && (forall k | k in after :: after[k] ==
            (if k.model == model && k.version in versions
              then BackfilledRow(rows, k, docs[k.version], now) else rows[k]))
  {
    if versions != [] {
      var n := |versions| - 1;
      BackfillLoopRows(rows, docs, model, now, versions[..n]);
      assert versions == versions[..n] + [versions[n]];
      assert versions[n] !in versions[..n];
    }
  }

  /** How many of the visited versions had no row. */
  function Missing(rows: map<Key, Row>, model: string, versions: seq<VersionId>): nat {
    if versions == [] then 0
    else Missing(rows, model, versions[..|versions| - 1]) + if Key(versions[|versions| - 1], model) in rows
      then 0 else 1
  }

  function VersionKeys(model: string, versions: seq<VersionId>): set<Key> {
    set v | v in versions :: Key(v, model)
  }

  lemma OneMoreKey(rows: map<Key, Row>, model: string, versions: seq<VersionId>, n: nat)
    requires n < |versions| && Distinct(versions)
    ensures VersionKeys(model, versions[..n + 1]) == VersionKeys(model, versions[..n]) + {Key(versions[n], model)}
    ensures Key(versions[n], model) !in VersionKeys(model, versions[..n])
  {
    assert versions[..n + 1] == versions[..n] + [versions[n]];
    assert forall v | v in versions[..n] :: v != versions[n];
  }

  lemma CountOneMore<T>(s: set<T>, x: T, present: set<T>)
    requires x !in s
    ensures |(s + {x}) - present| == |s - present| + if x in present then 0 else 1
  {
    if x in present {
      assert (s + {x}) - present == s - present;
    } else {
      assert (s + {x}) - present == (s - present) + {x};
    }
  }

  lemma {:induction false} MissingCounts(rows: map<Key, Row>, model: string, versions: seq<VersionId>)
    requires Distinct(versions)
    ensures Missing(rows, model, versions) == |VersionKeys(model, versions) - rows.Keys|
  {
    if versions == [] {
      assert VersionKeys(model, versions) == {};
    } else {
      var n := |versions| - 1;
      MissingCounts(rows, model, versions[..n]);
      OneMoreKey(rows, model, versions, n);
      assert versions[..n + 1] == versions;
      CountOneMore(VersionKeys(model, versions[..n]), Key(versions[n], model), rows.Keys);
    }
  }

  /** One iteration, branch by branch. */
  lemma BackfillStep(rows: map<Key, Row>, docs: map<VersionId, string>, model: string, now: int,
      versions: seq<VersionId>, i: nat)
    requires i < |versions| && Distinct(versions) && forall v | v in versions :: v in docs
    ensures var before, key, digest := BackfillLoop(rows, docs, model, now, versions[..i]), Key(versions[i], model),
      Sha256(docs[versions[i]]);
      && BackfillLoop(rows, docs, model, now, versions[..i + 1])
           == (if key !in before then before[key := Inserted(digest, now)]
               else if before[key].digest != digest then before[key := MarkedStale(digest, now)]
               else before)
      && Missing(rows, model, versions[..i + 1]) == Missing(rows, model, versions[..i]) + if key in before then 0 else 1
  {
    BackfillLoopRows(rows, docs, model, now, versions[..i]);
    assert versions[..i + 1][..i] == versions[..i] && versions[i] !in versions[..i];
    var before, key := BackfillLoop(rows, docs, model, now, versions[..i]), Key(versions[i], model);
    if key in before { assert before[key := before[key]] == before; }
  }

  lemma KeysOfMembers(docs: map<VersionId, string>, model: string, k: Key)
    ensures k in KeysOf(docs, model) <==> k.model == model && k.version in docs
  {
    if k.model == model { assert Key(k.version, model) == k; }
  }

  lemma BackfilledMembers(rows: map<Key, Row>, docs: map<VersionId, string>, model: string, now: int)
    ensures var after := Backfilled(rows, docs, model, now);
      && (forall k :: k in after <==> k in rows || (k.model == model && k.version in docs))
      && (forall k | k in after :: after[k] ==
            (if k.model == model && k.version in docs then BackfilledRow(rows, k, docs[k.version], now) else rows[k]))
  {
    hide BackfilledRow;
    forall k ensures k in KeysOf(docs, model) <==> k.model == model && k.version in docs {
      KeysOfMembers(docs, model, k);
    }
  }

  lemma LoopedIsStated(rows: map<Key, Row>, docs: map<VersionId, string>, model: string, now: int,
      versions: seq<VersionId>)
    requires Distinct(versions) && forall v :: v in versions <==> v in docs
    ensures BackfillLoop(rows, docs, model, now, versions) == Backfilled(rows, docs, model, now)
  {
    hide BackfillLoop, BackfilledRow, Backfilled, Distinct;
    BackfillLoopRows(rows, docs, model, now, versions);
    BackfilledMembers(rows, docs, model, now);
    var looped, stated := BackfillLoop(rows, docs, model, now, versions), Backfilled(rows, docs, model, now);
    assert looped.Keys == stated.Keys;
    assert forall k | k in stated :: looped[k] == stated[k];
  }

  lemma BackfillLoopIsBackfilled(rows: map<Key, Row>, docs: map<VersionId, string>, model: string, now: int,
      versions: seq<VersionId>)
    requires Distinct(versions) && forall v :: v in versions <==> v in docs
    ensures BackfillLoop(rows, docs, model, now, versions) == Backfilled(rows, docs, model, now)
    ensures Missing(rows, model, versions) == |KeysOf(docs, model) - rows.Keys|
  {
    MissingCounts(rows, model, versions);
    assert VersionKeys(model, versions) == KeysOf(docs, model);
    hide Missing, BackfillLoop, Backfilled, KeysOf, VersionKeys;
    LoopedIsStated(rows, docs, model, now, versions);
  }

  /** Rows after a claim: taken rows are in processing, except those whose text has changed. */
  function ClaimedRows(rows: map<Key, Row>, docs: map<VersionId, string>, chosen: set<Key>, now: int): map<Key, Row>
    requires forall k | k in chosen :: k.version in docs
  {
    map k | k in rows ::
      if k !in chosen then rows[k]
      else if Current(rows[k], docs[k.version]) then Claimed(rows[k], now)
      else MarkedStale(Sha256(docs[k.version]), now)
  }

  function Taken(rows: map<Key, Row>, chosen: set<Key>, now: int): map<Key, Row> {
    map k | k in rows :: if k in chosen then Claimed(rows[k], now) else rows[k]
  }

  /** Rows after the item loop has visited `keys`. */
  function ItemLoop(rows: map<Key, Row>, docs: map<VersionId, string>, keys: seq<Key>, now: int): map<Key, Row>
    requires forall k | k in keys :: k in rows && k.version in docs
  {
    if keys == [] then rows
    else
      var n := |keys| - 1;
      var before := ItemLoop(rows, docs, keys[..n], now);
      if Current(rows[keys[n]], docs[keys[n].version]) then before
      else before[keys[n] := MarkedStale(Sha256(docs[keys[n].version]), now)]
  }

  lemma {:induction false} ItemLoopRows(rows: map<Key, Row>, docs: map<VersionId, string>, keys: seq<Key>, now: int)
    requires Distinct(keys) && forall k | k in keys :: k in rows && k.version in docs
    ensures ItemLoop(rows, docs, keys, now).Keys == rows.Keys
    ensures forall k | k in rows ::
      ItemLoop(rows, docs, keys, now)[k]
      == (if k in keys && !Current(rows[k], docs[k.version])
        then MarkedStale(Sha256(docs[k.version]), now) else rows[k])
  {
    if keys != [] {
      var n := |keys| - 1;
      assert keys == keys[..n] + [keys[n]] && keys[n] !in keys[..n];
      ItemLoopRows(rows, docs, keys[..n], now);
    }
  }

  /** The items handed out for `keys`, in order. */
  function HandedOut(rows: map<Key, Row>, docs: map<VersionId, string>, keys: seq<Key>): seq<WorkItem>
    requires forall k | k in keys :: k in rows && k.version in docs
  {
    if keys == [] then []
    else
      var n := |keys| - 1;
      var k := keys[n];
      HandedOut(rows, docs, keys[..n])
        + if Current(rows[k], docs[k.version]) then [WorkItem(k, Sha256(docs[k.version]), docs[k.version])] else []
  }

  lemma ItemStep(rows: map<Key, Row>, docs: map<VersionId, string>, keys: seq<Key>, now: int, i: nat)
    requires i < |keys| && Distinct(keys) && forall k | k in keys :: k in rows && k.version in docs
    ensures var before, key := ItemLoop(rows, docs, keys[..i], now), keys[i];
      && key in before && before[key] == rows[key]
      && ItemLoop(rows, docs, keys[..i + 1], now)
           == (if Current(rows[key], docs[key.version])
             then before else before[key := MarkedStale(Sha256(docs[key.version]), now)])
      && HandedOut(rows, docs, keys[..i + 1])
           == HandedOut(rows, docs, keys[..i])
            + (if Current(rows[key], docs[key.version])
              then [WorkItem(key, Sha256(docs[key.version]), docs[key.version])] else [])
  {
    assert keys[..i + 1][..i] == keys[..i] && keys[i] !in keys[..i];
    ItemLoopRows(rows, docs, keys[..i], now);
  }

  lemma {:induction false} ClaimingKeepsDigests(rows: map<Key, Row>, docs: map<VersionId, string>, chosen: set<Key>,
      now: int, keys: seq<Key>)
    requires forall k | k in keys :: k in rows && k.version in docs
    ensures HandedOut(Taken(rows, chosen, now), docs, keys) == HandedOut(rows, docs, keys)
  {
    if keys != [] {
      ClaimingKeepsDigests(rows, docs, chosen, now, keys[..|keys| - 1]);
      assert keys[|keys| - 1] in keys;
    }
  }

  lemma ItemLoopIsClaimed(rows: map<Key, Row>, docs: map<VersionId, string>, chosen: set<Key>, keys: seq<Key>, now: int)
    requires Distinct(keys) && (forall k :: k in keys <==> k in chosen) && forall k | k in chosen ::
      k in rows && k.version in docs
    ensures ItemLoop(Taken(rows, chosen, now), docs, keys, now) == ClaimedRows(rows, docs, chosen, now)
  {
    ItemLoopRows(Taken(rows, chosen, now), docs, keys, now);
  }

  lemma {:induction false} HandedOutWhenCurrent(rows: map<Key, Row>, docs: map<VersionId, string>, keys: seq<Key>)
    requires forall k | k in keys :: k in rows && k.version in docs && Current(rows[k], docs[k.version])
    ensures |HandedOut(rows, docs, keys)| == |keys|
    ensures forall i | 0 <= i < |keys| ::
      HandedOut(rows, docs, keys)[i] == WorkItem(keys[i], Sha256(docs[keys[i].version]), docs[keys[i].version])
  {
    if keys != [] {
      var n := |keys| - 1;
      HandedOutWhenCurrent(rows, docs, keys[..n]);
      assert keys[n] in keys;
    }
  }

  predicate Ascending(a: VersionId, b: VersionId) {
    a < b
  }

  lemma SortedIsDistinct<T(!new)>(before: (T, T) -> bool, s: seq<T>)
    requires StrictOrder(before) && Sorted(before, s)
    ensures Distinct(s)
  {
    forall i, j | 0 <= i < j < |s| ensures s[i] != s[j] {
      assert before(s[i], s[j]);
    }
  }

  lemma NothingVisited(rows: map<Key, Row>, docs: map<VersionId, string>, model: string, now: int)
    ensures BackfillLoop(rows, docs, model, now, []) == rows && Missing(rows, model, []) == 0
  {
  }

  /** The loop of a backfill. */
  method VisitVersions(rows: map<Key, Row>, docs: map<VersionId, string>, model: string, now: int,
      versions: seq<VersionId>)
    returns (view: map<Key, Row>, count: nat)
    requires Distinct(versions) && forall v | v in versions :: v in docs
    ensures view == BackfillLoop(rows, docs, model, now, versions) && count == Missing(rows, model, versions)
  {
    view, count := rows, 0;
    NothingVisited(rows, docs, model, now);
    assert versions[..0] == [];
    hide BackfillLoop, Missing, Distinct;
    var i := 0;
    while i < |versions|
      invariant 0 <= i <= |versions|
      invariant view == BackfillLoop(rows, docs, model, now, versions[..i])
      invariant count == Missing(rows, model, versions[..i])
    {
      BackfillStep(rows, docs, model, now, versions, i);
      var key, digest := Key(versions[i], model), Sha256(docs[versions[i]]);
      if key !in view {
        view := view[key := Inserted(digest, now)];
        count := count + 1;
      } else if view[key].digest != digest {
        view := view[key := MarkedStale(digest, now)];
      }
      i := i + 1;
    }
    assert versions[..i] == versions;
  }

  /** Over the documents in version order. */
  method VisitDocuments(rows: map<Key, Row>, docs: map<VersionId, string>, model: string, now: int)
    returns (view: map<Key, Row>, count: nat)
    ensures view == Backfilled(rows, docs, model, now)
    ensures count == |KeysOf(docs, model) - rows.Keys|
  {
    var versions := SortSet(Ascending, docs.Keys);
    SortedIsDistinct(Ascending, versions);
    hide BackfillLoop, Missing, Distinct, Backfilled, KeysOf;
    BackfillLoopIsBackfilled(rows, docs, model, now, versions);
    view, count := VisitVersions(rows, docs, model, now, versions);
  }

  lemma NothingHandled(taken: map<Key, Row>, docs: map<VersionId, string>, now: int)
    ensures ItemLoop(taken, docs, [], now) == taken && HandedOut(taken, docs, []) == []
  {
  }

  /** The item loop of a claim: a row whose text has changed goes back to stale. */
  method VisitItems(taken: map<Key, Row>, docs: map<VersionId, string>, ordered: seq<Key>, now: int)
    returns (items: seq<WorkItem>, view: map<Key, Row>)
    requires Distinct(ordered) && forall k | k in ordered :: k in taken && k.version in docs
    ensures view == ItemLoop(taken, docs, ordered, now) && items == HandedOut(taken, docs, ordered)
  {
    view, items := taken, [];
    NothingHandled(taken, docs, now);
    assert ordered[..0] == [];
    hide ItemLoop, HandedOut, Distinct;
    var i := 0;
    while i < |ordered|
      invariant 0 <= i <= |ordered|
      invariant view == ItemLoop(taken, docs, ordered[..i], now)
      invariant items == HandedOut(taken, docs, ordered[..i])
    {
      ItemStep(taken, docs, ordered, now, i);
      var key := ordered[i];
      if view[key].digest != Sha256(docs[key.version]) {
        view := view[key := MarkedStale(Sha256(docs[key.version]), now)];
      } else {
        items := items + [WorkItem(key, Sha256(docs[key.version]), docs[key.version])];
      }
      i := i + 1;
    }
    assert ordered[..i] == ordered;
  }

  /** The taken rows in version order, through the item loop. */
  method BuildItems(rows: map<Key, Row>, docs: map<VersionId, string>, model: string, chosen: set<Key>, now: int)
    returns (items: seq<WorkItem>, view: map<Key, Row>, ordered: seq<Key>)
    requires forall k | k in chosen :: k in rows && k.version in docs && k.model == model
    ensures Sorted(ByVersion, ordered) && (forall k :: k in ordered <==> k in chosen) && |ordered| == |chosen|
    ensures forall i, j | 0 <= i < j < |ordered| :: ordered[i].version < ordered[j].version
    ensures view == ClaimedRows(rows, docs, chosen, now)
    ensures items == HandedOut(rows, docs, ordered)
  {
    OlderFirstIsOrder(rows, chosen, model);
    ordered := SortSet(ByVersion, chosen);
    SortedIsDistinct(ByVersion, ordered);
    hide OlderFirst, Distinct, HandedOut, ItemLoop, ClaimedRows;
    ItemLoopIsClaimed(rows, docs, chosen, ordered, now);
    ClaimingKeepsDigests(rows, docs, chosen, now, ordered);
    items, view := VisitItems(Taken(rows, chosen, now), docs, ordered, now);
  }

  /** Rows of the model that still want work. */
  function Outstanding(rows: map<Key, Row>, model: string): set<Key> {
    set k | k in rows && k.model == model && !Terminal(rows[k])
  }

  ghost predicate ItemDone(row: Row, text: string, embed: Provider) {
    && Current(row, text)
    && match Attempt(embed, text)
       case None => row.status == Failed && row.vector.None? && row.lastError.Some?
       case Some(v) => row.status == Indexed && row.vector == Some(v) && row.indexedAt.Some?
  }

  /** An item that is done, in columns: indexed with the provider's vector exactly when its text is not
      empty and the provider answers with 1,536 dimensions; failed without a vector otherwise. */
  lemma DoneInColumns(row: Row, text: string, embed: Provider)
    requires ItemDone(row, text, embed)
    ensures row.digest == Sha256(text)
    ensures row.status == Indexed <==> text != "" && embed(text).Some? && |embed(text).value| == 1536
    ensures row.status == Indexed ==> row.vector == embed(text) && row.indexedAt.Some?
    ensures row.status != Indexed ==> row.status == Failed && row.vector.None? && row.lastError.Some?
  {
  }

  /** A claimed row, in columns. */
  lemma ClaimedInColumns(rows: map<Key, Row>, docs: map<VersionId, string>, chosen: set<Key>, now: int, k: Key)
    requires k in rows && forall c | c in chosen :: c.version in docs
    ensures ClaimedRows(rows, docs, chosen, now).Keys == rows.Keys
    ensures var after := ClaimedRows(rows, docs, chosen, now)[k];
      if k !in chosen then after == rows[k]
      else if rows[k].digest != Sha256(docs[k.version]) then
        after == Row(Sha256(docs[k.version]), None, Stale, None, now, None)
      else
        && after.status == Processing && after.updatedAt == now && after.lastError.None?
        && after.digest == rows[k].digest && after.vector == rows[k].vector && after.indexedAt == rows[k].indexedAt
  {
  }

  /** The items handed out are those of the rows whose text has not changed. */
  lemma {:induction false} HandedOutAre(rows: map<Key, Row>, docs: map<VersionId, string>, keys: seq<Key>,
      item: WorkItem)
    requires forall k | k in keys :: k in rows && k.version in docs
    ensures item in HandedOut(rows, docs, keys) <==>
      && item.key in keys && item.text == docs[item.key.version] && item.digest == Sha256(item.text)
      && rows[item.key].digest == item.digest
  {
    if keys != [] {
      var n := |keys| - 1;
      HandedOutAre(rows, docs, keys[..n], item);
      assert keys == keys[..n] + [keys[n]];
    }
  }

  /** Exactly the chosen rows have been brought to an end, each by its own attempt. */
  ghost predicate BatchDone(before: map<Key, Row>, after: map<Key, Row>, docs: map<VersionId, string>, chosen: set<Key>,
      embed: Provider) {
    && after.Keys == before.Keys
    && (forall k | k in before && k !in chosen :: after[k] == before[k])
    && (forall k | k in chosen :: k in after && k.version in docs && ItemDone(after[k], docs[k.version], embed))
  }

  class EmbeddingIndex {
    var docs: map<VersionId, string>
    var rows: map<Key, Row>
    var now: int

    ghost predicate Valid()
      reads this
    {
      forall k | k in rows :: k.version in docs
    }

    /** Time passes between statements. */
    method Advance()
      modifies `now
      ensures now >= old(now)
    {
      var later: int :| later >= now;
      now := later;
    }

    /** `backfill_pending_skill_embeddings`; `None` is the dimension error. */
    method Backfill(model: string, dimensions: nat) returns (inserted: Option<nat>)
      requires Valid()
      modifies `rows
      ensures Valid()
      ensures inserted.None? <==> dimensions != DIMENSIONS
      ensures rows == if inserted.Some? then Backfilled(old(rows), docs, model, now) else old(rows)
      ensures inserted.Some? ==> inserted.value == |KeysOf(docs, model) - old(rows).Keys|
    {
      if dimensions != DIMENSIONS {
        return None;
      }
      var count;
      rows, count := VisitDocuments(rows, docs, model, now);
      BackfillMakesCurrent(old(rows), docs, model, now);
      inserted := Some(count);
    }

    /** `claim_skill_embedding_work`: one statement takes the rows, then the items are built in
        version order, and rows whose text changed are marked stale instead of being handed out. */
    method Claim(model: string, limit: nat, reclaim: int) returns (items: seq<WorkItem>, ghost ordered: seq<Key>)
      requires Valid()
      modifies `rows
      ensures Valid()
      ensures var chosen := Selection(old(rows), docs, model, now, reclaim, limit);
        && chosen <= old(rows).Keys
        && Sorted(ByVersion, ordered) && (forall k :: k in ordered <==> k in chosen) && |ordered| == |chosen|
        && (forall i, j | 0 <= i < j < |ordered| :: ordered[i].version < ordered[j].version)
        && rows == ClaimedRows(old(rows), docs, chosen, now)
        && items == HandedOut(old(rows), docs, ordered)
    {
      var chosen := Selection(rows, docs, model, now, reclaim, limit);
      SelectionIsOldestFirst(rows, docs, model, now, reclaim, limit);
      items, rows, ordered := BuildItems(rows, docs, model, chosen, now);
    }

    /** `index_skill_embedding`: whatever state the row was in, it now holds the vector and the digest
        of the item; a row that has gone is not created again. */
    method Index(item: WorkItem, vector: Vector)
      requires Valid() && |vector| == DIMENSIONS
      modifies `rows
      ensures Valid()
      ensures rows.Keys == old(rows).Keys && forall k | k in rows && k != item.key :: rows[k] == old(rows)[k]
      ensures item.key in rows ==>
        var row := rows[item.key];
        && row.status == Indexed && row.vector == Some(vector) && row.digest == item.digest
        && row.indexedAt == Some(now) && row.updatedAt == now && row.lastError.None?
    {
      if item.key in rows {
        rows := rows[item.key := IndexedRow(item.digest, vector, now)];
      }
    }

    /** `mark_skill_embedding_failed`: the row keeps its digest, loses its vector and stores as much of
        the error as the column holds. */
    method MarkFailed(key: Key, error: string)
      requires Valid()
      modifies `rows
      ensures Valid()
      ensures rows.Keys == old(rows).Keys && forall k | k in rows && k != key :: rows[k] == old(rows)[k]
      ensures key in rows ==>
        var row := rows[key];
        && row.status == Failed && row.vector.None? && row.indexedAt.None? && row.updatedAt == now
        && row.digest == old(rows)[key].digest
        && row.lastError.Some? && row.lastError.value <= error && |row.lastError.value| <= MAX_ERROR_LENGTH
        && (row.lastError.value == error || |row.lastError.value| == MAX_ERROR_LENGTH)
    {
      if key in rows {
        rows := rows[key := FailedRow(rows[key], error, now)];
      }
    }
  }
}
