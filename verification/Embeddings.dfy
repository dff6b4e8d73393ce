/** Rows of the embedding index and the single-row updates that every statement is made of. */
module Embeddings {
  import opened Collections
  import opened Hashing

  type VersionId = int
  type Vector = seq<real>

  const DIMENSIONS: nat := 1536
  const MICROS_PER_SECOND: int := 1_000_000
  const MAX_ERROR_LENGTH: nat := 500

  /** Primary key of `skill_search_embeddings`. */
  datatype Key = Key(version: VersionId, model: string)

  datatype Status = Pending | Processing | Indexed | Failed | Stale

  datatype Row = Row(
    digest: Digest,
    vector: Option<Vector>,
    status: Status,
    indexedAt: Option<int>,
    updatedAt: int,
    lastError: Option<string>)

  datatype WorkItem = WorkItem(key: Key, digest: Digest, text: string)

  function Inserted(digest: Digest, now: int): Row {
    Row(digest, None, Pending, None, now, None)
  }

  /** The conflict branch of a publish: the vector stays, the status does not. */
  function Republished(row: Row, digest: Digest, now: int): Row {
    row.(digest := digest, status := Stale, updatedAt := now)
  }

  function MarkedStale(digest: Digest, now: int): Row {
    Row(digest, None, Stale, None, now, None)
  }

  function Claimed(row: Row, now: int): Row {
    row.(status := Processing, lastError := None, updatedAt := now)
  }

  function IndexedRow(digest: Digest, vector: Vector, now: int): Row {
    Row(digest, Some(vector), Indexed, Some(now), now, None)
  }

  function FailedRow(row: Row, error: string, now: int): Row {
    row.(vector := None, status := Failed, indexedAt := None, updatedAt := now,
         lastError := Some(if |error| <= MAX_ERROR_LENGTH then error else error[..MAX_ERROR_LENGTH]))
  }

  predicate Claimable(row: Row, now: int, reclaimAfterSeconds: int) {
    || row.status == Pending
    || row.status == Stale
    || (row.status == Processing && row.updatedAt <= now - reclaimAfterSeconds * MICROS_PER_SECOND)
  }

  predicate Terminal(row: Row) {
    row.status == Indexed || row.status == Failed
  }

  /** The row of one document after a backfill of the model. */
  function BackfilledRow(rows: map<Key, Row>, key: Key, text: string, now: int): Row {
    if key !in rows then Inserted(Sha256(text), now)
    else if rows[key].digest != Sha256(text) then MarkedStale(Sha256(text), now)
    else rows[key]
  }

  function KeysOf(docs: map<VersionId, string>, model: string): set<Key> {
    set v | v in docs :: Key(v, model)
  }

  /** `backfill_pending_skill_embeddings`: documents are given by the text derived from them. */
  function Backfilled(rows: map<Key, Row>, docs: map<VersionId, string>, model: string, now: int): map<Key, Row> {
    map k | k in rows.Keys + KeysOf(docs, model) ::
      if k.model == model && k.version in docs then BackfilledRow(rows, k, docs[k.version], now) else rows[k]
  }

  predicate Current(row: Row, text: string) {
    row.digest == Sha256(text)
  }

  /** After a backfill every document has a row of the model and every such row is current. */
  lemma BackfillMakesCurrent(rows: map<Key, Row>, docs: map<VersionId, string>, model: string, now: int)
    ensures forall v | v in docs :: Key(v, model) in Backfilled(rows, docs, model, now)
                                 && Current(Backfilled(rows, docs, model, now)[Key(v, model)], docs[v])
    ensures Backfilled(rows, docs, model, now).Keys == rows.Keys + KeysOf(docs, model)
  {
    forall v | v in docs ensures Key(v, model) in Backfilled(rows, docs, model, now)
                              && Current(Backfilled(rows, docs, model, now)[Key(v, model)], docs[v]) {
      assert Key(v, model) in KeysOf(docs, model);
    }
  }

  /** A second backfill, at any time, changes nothing. */
  lemma BackfillIsIdempotent(rows: map<Key, Row>, docs: map<VersionId, string>, model: string, now: int, later: int)
    ensures var once := Backfilled(rows, docs, model, now);
      && Backfilled(once, docs, model, later) == once
      && KeysOf(docs, model) - once.Keys == {}
  {
    BackfillMakesCurrent(rows, docs, model, now);
    var once := Backfilled(rows, docs, model, now);
    forall k | k in KeysOf(docs, model) ensures k in once { }
    forall k | k in once && k.model == model && k.version in docs
      ensures BackfilledRow(once, k, docs[k.version], later) == once[k]
    {
      assert Key(k.version, model) == k;
    }
  }

  /** A backfill, column by column: a document without a row gets a pending one, a row whose digest is not
      that of its text goes back to stale and loses its vector, and every other row stays as it is. */
  lemma WhatABackfillDoes(rows: map<Key, Row>, docs: map<VersionId, string>, model: string, now: int, k: Key)
    ensures var after := Backfilled(rows, docs, model, now);
      && (k in after <==> k in rows || (k.model == model && k.version in docs))
      && (k in after && k !in rows ==>
            after[k] == Row(Sha256(docs[k.version]), None, Pending, None, now, None))
      && (k in rows && k.model == model && k.version in docs && rows[k].digest != Sha256(docs[k.version]) ==>
            after[k] == Row(Sha256(docs[k.version]), None, Stale, None, now, None))
      && (k in rows && (k.model == model && k.version in docs ==> rows[k].digest == Sha256(docs[k.version])) ==>
            after[k] == rows[k])
  {
    assert k.model == model ==> Key(k.version, model) == k;
  }
}
