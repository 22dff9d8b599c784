/** Full reindexing of one model: rows are streamed, buffered into batches and uploaded. */
module SearchReindex {
  import opened Wrappers
  import opened SearchSync

  /** A row of the streamed queryset with its primary key. */
  datatype Record = Record(key: Key, row: Row)

  function Documents(rows: seq<Record>): seq<Doc> {
    if rows == [] then [] else
      var k := |rows| - 1;
      Documents(rows[..k]) + if rows[k].row.qualifies then [Doc(rows[k].key, rows[k].row.body)] else []
  }

  /** The engine's upload: later documents replace earlier ones with the same id. */
  function Upload(index: map<Key, Doc>, docs: seq<Doc>): map<Key, Doc> {
    if docs == [] then index else
      var k := |docs| - 1;
      Upload(index, docs[..k])[docs[k].id := docs[k]]
  }

  function TableOf(rows: seq<Record>): map<Key, Row> {
    if rows == [] then map[] else
      var k := |rows| - 1;
      TableOf(rows[..k])[rows[k].key := rows[k].row]
  }

  predicate OrderedByKey(rows: seq<Record>) {
    forall i, j :: 0 <= i < j < |rows| ==> rows[i].key < rows[j].key
  }

  /** The queryset enumerates the table, ordered by primary key. */
  predicate Enumerates(rows: seq<Record>, db: map<Key, Row>) {
    OrderedByKey(rows) && TableOf(rows) == db
  }

  lemma {:induction false} DocumentsConcat(a: seq<Record>, b: seq<Record>)
    ensures Documents(a + b) == Documents(a) + Documents(b)
  {
    if b == [] {
      assert a + b == a && Documents(a) + [] == Documents(a);
    } else {
      var k := |b| - 1;
      assert (a + b)[..|a + b| - 1] == a + b[..k];
      DocumentsConcat(a, b[..k]);
    }
  }

  lemma {:induction false} UploadConcat(index: map<Key, Doc>, a: seq<Doc>, b: seq<Doc>)
    ensures Upload(index, a + b) == Upload(Upload(index, a), b)
  {
    if b == [] {
      assert a + b == a;
    } else {
      var k := |b| - 1;
      assert (a + b)[..|a + b| - 1] == a + b[..k];
      UploadConcat(index, a, b[..k]);
    }
  }

  lemma {:induction false} TableKeys(rows: seq<Record>, k: Key)
    ensures k in TableOf(rows) <==> exists i :: 0 <= i < |rows| && rows[i].key == k
  {
    if rows != [] {
      var n := |rows| - 1;
      TableKeys(rows[..n], k);
      assert forall i :: 0 <= i < n ==> rows[..n][i] == rows[i];
    }
  }

  lemma UploadOne(index: map<Key, Doc>, docs: seq<Doc>, d: Doc)
    ensures Upload(index, docs + [d]) == Upload(index, docs)[d.id := d]
  {
    assert (docs + [d])[..|docs|] == docs;
  }

  lemma SetLater(a: map<Key, Doc>, b: map<Key, Doc>, k: Key, d: Doc)
    ensures a + b[k := d] == (a + b)[k := d]
  {
  }

  lemma SearchableStep(index: map<Key, Doc>, front: map<Key, Row>, r: Record)
    requires r.key !in front
    ensures
      var next := Searchable(front[r.key := r.row]);
      if r.row.qualifies then
        |next| == |Searchable(front)| + 1 && index + next == (index + Searchable(front))[r.key := Doc(r.key, r.row.body)]
      else next == Searchable(front)
  {
    var next := Searchable(front[r.key := r.row]);
    if r.row.qualifies {
      assert next == Searchable(front)[r.key := Doc(r.key, r.row.body)];
      assert r.key !in Searchable(front) && next.Keys == Searchable(front).Keys + {r.key};
      SetLater(index, Searchable(front), r.key, Doc(r.key, r.row.body));
    }
  }

  lemma DocumentsStep(index: map<Key, Doc>, rows: seq<Record>)
    requires rows != []
    ensures
      var front, r := rows[..|rows| - 1], rows[|rows| - 1];
      Upload(index, Documents(rows)) ==
        if r.row.qualifies then Upload(index, Documents(front))[r.key := Doc(r.key, r.row.body)]
        else Upload(index, Documents(front))
  {
    var n := |rows| - 1;
    var docs := Documents(rows[..n]);
    UploadOne(index, docs, Doc(rows[n].key, rows[n].row.body));
    assert docs + [] == docs;
  }

  /** Uploading all documents of a table overrides exactly the searchable keys. */
  lemma {:induction false} UploadDocuments(index: map<Key, Doc>, rows: seq<Record>)
    requires OrderedByKey(rows)
    ensures Upload(index, Documents(rows)) == index + Searchable(TableOf(rows))
  {
    if rows == [] {
      assert index + Searchable(map[]) == index;
    } else {
      var n := |rows| - 1;
      UploadDocuments(index, rows[..n]);
      TableKeys(rows[..n], rows[n].key);
      SearchableStep(index, TableOf(rows[..n]), rows[n]);
      DocumentsStep(index, rows);
    }
  }

  lemma {:induction false} DocumentsCount(rows: seq<Record>)
    requires OrderedByKey(rows)
    ensures |Documents(rows)| == |Searchable(TableOf(rows))|
    ensures |rows| == |TableOf(rows)|
  {
    if rows != [] {
      var n := |rows| - 1;
      DocumentsCount(rows[..n]);
      TableKeys(rows[..n], rows[n].key);
      SearchableStep(map[], TableOf(rows[..n]), rows[n]);
    }
  }

  // ----- the task -----

  datatype Summary = Summary(indexed: nat, filtered: nat, records: nat)

  datatype Failure = ClearRejected | BadBatchSize | UploadsRejected(count: nat)

  const DEFAULT_BATCH_SIZE := 1000

  /** A missing or zero batch size means the default. */
  function EffectiveBatchSize(requested: Option<int>): int {
    if requested.None? || requested.value == 0 then DEFAULT_BATCH_SIZE else requested.value
  }

  /** Each key still has its old document or already has its new one. */
  ghost predicate Between(old': map<Key, Doc>, now: map<Key, Doc>, new': map<Key, Doc>) {
    forall k: Key ::
      ((k in now <==> k in old') && (k in now ==> now[k] == old'[k])) ||
      ((k in now <==> k in new') && (k in now ==> now[k] == new'[k]))
  }

  /** The rows of so many full batches. */
  function FullBatches(n: nat, size: nat): nat {
    if n == 0 then 0 else FullBatches(n - 1, size) + size
  }

  lemma {:induction false} FullBatchesGrow(a: nat, b: nat, size: nat)
    requires a <= b
    ensures FullBatches(a, size) <= FullBatches(b, size)
  {
    if a < b { FullBatchesGrow(a, b - 1, size); }
  }

  /**
   * After so many full batches and one of `last` rows: no batch makes more than one upload, and no upload holds
   * more documents than a batch has rows.
   */
  ghost predicate Paced(uploads: nat, indexed: nat, batches: nat, rows: nat, size: nat) {
    uploads <= batches && FullBatches(batches, size) == rows && indexed <= FullBatches(uploads, size)
  }

  predicate WellPaced(uploads: nat, indexed: nat, rows: nat, size: nat) {
    indexed <= FullBatches(uploads, size) && (rows == 0 ==> uploads == 0) && (uploads > 0 ==> FullBatches(uploads - 1, size) < rows)
  }

  lemma PacedStep(uploads: nat, indexed: nat, batches: nat, rows: nat, size: nat, uploads': nat, indexed': nat)
    requires Paced(uploads, indexed, batches, rows, size)
    requires (uploads' == uploads && indexed' == indexed) || (uploads' == uploads + 1 && indexed' <= indexed + size)
    ensures Paced(uploads', indexed', batches + 1, rows + size, size)
  {
  }

  lemma PacedEnd(
    uploads: nat, indexed: nat, batches: nat, rows: nat, size: nat, last: nat, uploads': nat, indexed': nat
  )
    requires Paced(uploads, indexed, batches, rows, size) && last < size
    requires (uploads' == uploads && indexed' == indexed) || (last > 0 && uploads' == uploads + 1 && indexed' <= indexed + last)
    ensures WellPaced(uploads', indexed', rows + last, size)
  {
    FullBatchesGrow(uploads, batches, size);
    if uploads > 0 {
      assert FullBatches(uploads, size) == FullBatches(uploads - 1, size) + size;
    }
  }

  /** How many of the first n uploads the engine refuses. */
  function Rejections(accepts: nat -> bool, n: nat): nat {
    if n == 0 then 0 else Rejections(accepts, n - 1) + if accepts(n - 1) then 0 else 1
  }

  lemma {:induction false} NoRejectionsIff(accepts: nat -> bool, n: nat)
    ensures Rejections(accepts, n) == 0 <==> forall i :: 0 <= i < n ==> accepts(i)
  {
    if n > 0 {
      NoRejectionsIff(accepts, n - 1);
    }
  }

  class SearchEngine {
    var index: map<Key, Doc>

    /** The documents of one batch, and how many of its rows the filter hides. */
    method BuildDocuments(batch: seq<Record>) returns (docs: seq<Doc>, filtered: nat)
      ensures docs == Documents(batch) && filtered + |docs| == |batch|
    {
      docs, filtered := [], 0;
      for i := 0 to |batch|
        invariant docs == Documents(batch[..i]) && filtered + |docs| == i
      {
        assert batch[..i + 1][..i] == batch[..i];
        if batch[i].row.qualifies {
          docs := docs + [Doc(batch[i].key, batch[i].row.body)];
        } else {
          filtered := filtered + 1;
        }
      }
      assert batch[..|batch|] == batch;
    }

    /**
     * The whole task over a database that does not change meanwhile. `clears` says whether the engine clears
     * the index when asked, `accepts` which uploads it takes; the task learns the latter only at the end.
     * `uploads` counts them. Only a negative batch size is refused; a missing or zero one means 1000.
     */
    method ReindexModel(
      rows: seq<Record>, db: map<Key, Row>, requested: Option<int>, clearFirst: bool, clears: bool,
      accepts: nat -> bool
    ) returns (r: Result<Summary, Failure>, uploads: nat)
      requires Enumerates(rows, db)
      modifies this
      ensures
        var base := if clearFirst then map[] else old(index);
        if clearFirst && !clears then r == Err(ClearRejected) && uploads == 0 && index == old(index)
        else if requested.Some? && requested.value < 0 then r == Err(BadBatchSize) && uploads == 0 && index == base
        else Reindexed(base, index, db, r, uploads, accepts)
      ensures
        (!clearFirst || clears) && (requested.Some? ==> requested.value >= 0) && (forall i :: accepts(i)) ==>
          r.Ok? && forall k ::
            if k in db && db[k].qualifies then k in index && index[k] == Doc(k, db[k].body)
            else SameEntry(index, if clearFirst then map[] else old(index), k)
      ensures
        var size := if requested.None? || requested.value == 0 then 1000 else requested.value;
        r.Ok? ==> WellPaced(uploads, r.value.indexed, |db|, size)
    {
      var size := EffectiveBatchSize(requested);
      if clearFirst {
        if !clears {
          return Err(ClearRejected), 0;
        }
        index := map[];
      }
      if size <= 0 {
        return Err(BadBatchSize), 0;
      }
      ghost var base := index;
      var indexed, filtered, rejected;
      indexed, filtered, rejected, uploads := StreamRows(rows, size, accepts);
      ReindexedFromProgress(base, index, rows, indexed, filtered, rejected, uploads, accepts);
      r := if rejected > 0 then Err(UploadsRejected(rejected)) else Ok(Summary(indexed, filtered, |rows|));
    }

    /** The batching loop: fill the buffer, send it when full, and send what is left at the end. */
    method StreamRows(rows: seq<Record>, size: int, accepts: nat -> bool)
      returns (indexed: nat, filtered: nat, rejected: nat, uploads: nat)
      requires OrderedByKey(rows) && size > 0
      modifies this
      ensures WellPaced(uploads, indexed, |rows|, size)
      ensures Progress(old(index), index, rows, indexed, filtered, rejected, uploads, accepts)
    {
      ghost var base := index;
      indexed, filtered, rejected, uploads := 0, 0, 0, 0;
      var batch: seq<Record> := [];
      ghost var done: seq<Record> := [];
      ghost var batches := 0;
      for i := 0 to |rows|
        invariant Paced(uploads, indexed, batches, |done|, size)
        invariant done + batch == rows[..i] && |batch| < size
        invariant Progress(base, index, done, indexed, filtered, rejected, uploads, accepts)
      {
        batch := batch + [rows[i]];
        assert done + batch == rows[..i + 1];
        if |batch| >= size {
          ghost var wasUploads, wasIndexed := uploads, indexed;
          indexed, filtered, rejected, uploads :=
            SendBatch(batch, indexed, filtered, rejected, uploads, accepts, base, done);
          PacedStep(wasUploads, wasIndexed, batches, |done|, size, uploads, indexed);
          done := done + batch;
          batch := [];
          batches := batches + 1;
        }
      }
      assert done + batch == rows;
      ghost var wasUploads, wasIndexed := uploads, indexed;
      if batch != [] {
        indexed, filtered, rejected, uploads :=
          SendBatch(batch, indexed, filtered, rejected, uploads, accepts, base, done);
      }
      PacedEnd(wasUploads, wasIndexed, batches, |done|, size, |batch|, uploads, indexed);
    }

    /** Upload one batch and keep the counts. */
    method SendBatch(
      batch: seq<Record>, indexed: nat, filtered: nat, rejected: nat, uploads: nat, accepts: nat -> bool,
      ghost base: map<Key, Doc>, ghost done: seq<Record>
    ) returns (indexed': nat, filtered': nat, rejected': nat, uploads': nat)
      requires OrderedByKey(done + batch)
      requires Progress(base, index, done, indexed, filtered, rejected, uploads, accepts)
      modifies this
      ensures Progress(base, index, done + batch, indexed', filtered', rejected', uploads', accepts)
      ensures (uploads' == uploads && indexed' == indexed) || (uploads' == uploads + 1 && indexed' <= indexed + |batch|)
    {
      var docs, hidden := BuildDocuments(batch);
      indexed', filtered', rejected', uploads' := indexed, filtered + hidden, rejected, uploads;
      DocumentsConcat(done, batch);
      UploadConcat(base, Documents(done), docs);
      if docs != [] {
        if accepts(uploads) {
          index := Upload(index, docs);
        } else {
          rejected' := rejected + 1;
        }
        uploads' := uploads + 1;
        indexed' := indexed + |docs|;
      } else {
        assert Documents(done) + docs == Documents(done);
      }
      UploadBetween(base, old(index), done, batch);
    }
  }

  /**
   * What a finished task has done. It succeeds exactly when the engine took every upload, and otherwise says
   * how many it refused. On success the index is the old one (or the empty one) overridden by the searchable
   * documents, each row counted once. Otherwise every key has its old document or already its new one.
   */
  ghost predicate Reindexed(
    base: map<Key, Doc>, index: map<Key, Doc>, db: map<Key, Row>, r: Result<Summary, Failure>, uploads: nat,
    accepts: nat -> bool
  ) {
    (r.Ok? <==> forall i :: 0 <= i < uploads ==> accepts(i)) &&
    (r.Ok? ==>
      index == base + Searchable(db) &&
      r.value.indexed == |Searchable(db)| && r.value.indexed + r.value.filtered == |db| == r.value.records) &&
    (r.Err? ==> r.error == UploadsRejected(Rejections(accepts, uploads))) &&
    Between(base, index, base + Searchable(db))
  }

  lemma ReindexedFromProgress(
    base: map<Key, Doc>, index: map<Key, Doc>, rows: seq<Record>,
    indexed: nat, filtered: nat, rejected: nat, uploads: nat, accepts: nat -> bool
  )
    requires OrderedByKey(rows) && Progress(base, index, rows, indexed, filtered, rejected, uploads, accepts)
    ensures
      var r := if rejected > 0 then Err(UploadsRejected(rejected)) else Ok(Summary(indexed, filtered, |rows|));
      Reindexed(base, index, TableOf(rows), r, uploads, accepts)
  {
    UploadDocuments(base, rows);
    DocumentsCount(rows);
    NoRejectionsIff(accepts, uploads);
  }

  /** What is true after the rows in `done` have been sent. */
  ghost predicate Progress(
    base: map<Key, Doc>, index: map<Key, Doc>, done: seq<Record>,
    indexed: nat, filtered: nat, rejected: nat, uploads: nat, accepts: nat -> bool
  ) {
    indexed == |Documents(done)| && indexed + filtered == |done| && uploads <= indexed &&
    rejected == Rejections(accepts, uploads) &&
    (rejected == 0 ==> index == Upload(base, Documents(done))) &&
    Between(base, index, Upload(base, Documents(done)))
  }

  lemma UploadBetween(base: map<Key, Doc>, index: map<Key, Doc>, done: seq<Record>, batch: seq<Record>)
    requires OrderedByKey(done + batch) && Between(base, index, Upload(base, Documents(done)))
    ensures Between(base, index, Upload(base, Documents(done + batch)))
    ensures Between(base, Upload(index, Documents(batch)), Upload(base, Documents(done + batch)))
  {
    assert OrderedByKey(done) by {
      assert forall i :: 0 <= i < |done| ==> (done + batch)[i] == done[i];
    }
    assert OrderedByKey(batch) by {
      assert forall i :: 0 <= i < |batch| ==> (done + batch)[|done| + i] == batch[i];
    }
    DocumentsConcat(done, batch);
    UploadConcat(base, Documents(done), Documents(batch));
    UploadDocuments(base, done);
    UploadDocuments(index, batch);
    UploadDocuments(Upload(base, Documents(done)), batch);
    forall k | k in TableOf(done) ensures k !in TableOf(batch) {
      TableKeys(done, k);
      TableKeys(batch, k);
      var i :| 0 <= i < |done| && done[i].key == k;
      forall j | 0 <= j < |batch| ensures batch[j].key != k {
        assert (done + batch)[i].key < (done + batch)[|done| + j].key;
      }
    }
  }

  /** A reindex that clears first always ends exact; one that does not ends exact only if nothing stale was there. */
  lemma ReindexExactIff(base: map<Key, Doc>, index: map<Key, Doc>, db: map<Key, Row>, r: Result<Summary, Failure>,
                        uploads: nat, accepts: nat -> bool)
    requires Reindexed(base, index, db, r, uploads, accepts) && r.Ok?
    ensures index == Searchable(db) <==> base.Keys <= Searchable(db).Keys
  {
    if base.Keys <= Searchable(db).Keys {
      assert base + Searchable(db) == Searchable(db);
    } else {
      var k :| k in base && k !in Searchable(db);
      assert k in index;
    }
  }
}
