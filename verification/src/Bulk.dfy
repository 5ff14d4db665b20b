/**
 Bulk writes (internal/repository/repository.go:570-785): what the phases leave in the store, at the
 end and at every commit on the way.
 */
module Bulk {
  import opened Text
  import opened Models
  import opened Keys
  import opened Store
  import opened Consistency

  /** Successive readings of the clock. */
  type Clock = nat -> Nanos

  predicate Distinct(ds: seq<Download>) {
    forall i, j | 0 <= i < j < |ds| :: ds[i].id != ds[j].id
  }

  predicate AllPresent(kv: KV, ids: seq<string>) { forall id | id in ids :: HasRecord(kv, id) }

  function Ids(ds: seq<Download>): (r: seq<string>)
    ensures |r| == |ds| && forall i | 0 <= i < |ds| :: r[i] == ds[i].id
  {
    seq(|ds|, i requires 0 <= i < |ds| => ds[i].id)
  }

  lemma IdsStep(ds: seq<Download>)
    requires ds != []
    ensures Ids(ds) == Ids(ds[..|ds| - 1]) + [ds[|ds| - 1].id]
  {
  }

  lemma NewAfter(ds: seq<Download>, n: nat)
    requires n < |ds| && Distinct(ds)
    ensures ds[n].id !in Ids(ds[..n]) && Distinct(ds[..n])
  {
    forall i | 0 <= i < n ensures Ids(ds[..n])[i] != ds[n].id {
      assert ds[..n][i] == ds[i];
    }
  }

  // ---- Phases ----

  /** All index keys of the records stored now for the given ids. */
  function StoredIndexKeys(kv: KV, ids: seq<string>): set<string> {
    set id, k | id in ids && HasRecord(kv, id) && k in IndexKeys(RecordOf(kv, id)) :: k
  }

  function Unindexed(kv: KV, ids: seq<string>): KV { kv - StoredIndexKeys(kv, ids) }

  function PutAll(kv: KV, ds: seq<Download>): KV {
    if ds == [] then kv else Put(PutAll(kv, ds[..|ds| - 1]), ds[|ds| - 1])
  }

  function BatchEntries(ds: seq<Download>): seq<Entry> {
    if ds == [] then [] else BatchEntries(ds[..|ds| - 1]) + PutEntries(ds[|ds| - 1])
  }

  function Stamped(ds: seq<Download>, clock: Clock): (r: seq<Download>)
    ensures |r| == |ds| && forall i | 0 <= i < |ds| :: r[i] == Stamp(ds[i], clock(i))
  {
    seq(|ds|, i requires 0 <= i < |ds| => Stamp(ds[i], clock(i)))
  }

  function Restamped(kv: KV, ds: seq<Download>, clock: Clock): (r: seq<Download>)
    ensures |r| == |ds| && forall i | 0 <= i < |ds| :: r[i] == Restamp(kv, ds[i], clock(i))
  {
    seq(|ds|, i requires 0 <= i < |ds| => Restamp(kv, ds[i], clock(i)))
  }

  /** Bulk update: all old index entries go, then all new records and entries are written. */
  function BulkUpdated(kv: KV, ds: seq<Download>, clock: Clock): KV {
    PutAll(Unindexed(kv, Ids(ds)), Restamped(kv, ds, clock))
  }

  function WithoutSegments(kv: KV, ids: seq<string>): KV {
    map k | k in kv && !(exists i | 0 <= i < |ids| :: SegmentPrefix(ids[i]) <= k) :: kv[k]
  }

  function Stripped(kv: KV, ids: seq<string>): KV { WithoutSegments(Unindexed(kv, ids), ids) }

  /** Bulk delete: all index entries and segment rows go, then the records. */
  function BulkDeleted(kv: KV, ids: seq<string>): KV {
    ApplyAll(Stripped(kv, ids), DeleteEntries(ids))
  }

  function DeleteEntries(ids: seq<string>): seq<Entry> {
    seq(|ids|, i requires 0 <= i < |ids| => Del(KDownload(ids[i])))
  }

  // ---- One at a time ----

  function FoldCreate(kv: KV, ds: seq<Download>, clock: Clock): KV {
    if ds == [] then kv
    else CreateNext(FoldCreate(kv, ds[..|ds| - 1], clock), ds[|ds| - 1], clock(|ds| - 1))
  }

  function FoldUpdate(kv: KV, ds: seq<Download>, clock: Clock): KV {
    if ds == [] then kv
    else UpdateNext(FoldUpdate(kv, ds[..|ds| - 1], clock), ds[|ds| - 1], clock(|ds| - 1))
  }

  function FoldDelete(kv: KV, ids: seq<string>): KV {
    if ids == [] then kv else DeleteNext(FoldDelete(kv, ids[..|ids| - 1]), ids[|ids| - 1])
  }

  // ---- Batches of records ----

  lemma {:induction false} ApplyBatch(kv: KV, ds: seq<Download>)
    ensures ApplyAll(kv, BatchEntries(ds)) == PutAll(kv, ds)
  {
    if ds != [] {
      var n := |ds| - 1;
      ApplyBatch(kv, ds[..n]);
      ApplyAllAppend(kv, BatchEntries(ds[..n]), PutEntries(ds[n]));
      ApplyAllPutEntries(PutAll(kv, ds[..n]), ds[n]);
    }
  }

  /** A bulk create writes exactly what creating one at a time writes. */
  lemma {:induction false} BulkCreateIsFold(kv: KV, ds: seq<Download>, clock: Clock)
    ensures PutAll(kv, Stamped(ds, clock)) == FoldCreate(kv, ds, clock)
  {
    if ds != [] {
      var n := |ds| - 1;
      BulkCreateIsFold(kv, ds[..n], clock);
      assert Stamped(ds, clock)[..n] == Stamped(ds[..n], clock);
    }
  }

  // ---- Commit points of a batch ----

  /** A store to which some first part of the log has been applied. */
  ghost predicate PrefixApplied(s: KV, base: KV, log: seq<Entry>) {
    exists m | 0 <= m <= |log| :: s == ApplyAll(base, log[..m])
  }

  lemma LongerLog(s: KV, base: KV, was: seq<Entry>, log: seq<Entry>)
    requires PrefixApplied(s, base, was) && was <= log
    ensures PrefixApplied(s, base, log)
  {
    var m :| 0 <= m <= |was| && s == ApplyAll(base, was[..m]);
    assert log[..m] == was[..m];
  }

  lemma {:induction false} BatchEntriesPrefix(ds: seq<Download>, i: nat)
    requires i <= |ds|
    ensures BatchEntries(ds[..i]) <= BatchEntries(ds)
  {
    if i < |ds| {
      var n := |ds| - 1;
      BatchEntriesPrefix(ds[..n], i);
      assert ds[..n][..i] == ds[..i];
    } else {
      assert ds[..i] == ds;
    }
  }

  /** Records that may be batch-written: well formed, one per id, and with no index entry left. */
  ghost predicate Writable(kv: KV, ds: seq<Download>) {
    && Distinct(ds)
    && forall i | 0 <= i < |ds| :: ValidId(ds[i].id) && ds[i].createdAt.At? && Present(kv, ds[i].id) == {}
  }

  lemma {:induction false} PutAllLive(kv: KV, ds: seq<Download>)
    requires Live(kv) && Writable(kv, ds)
    ensures Live(PutAll(kv, ds))
    ensures Records(kv).Keys <= Records(PutAll(kv, ds)).Keys
    ensures forall id | id !in Ids(ds) :: Present(PutAll(kv, ds), id) == Present(kv, id)
  {
    if ds != [] {
      var n := |ds| - 1;
      var mid, d := PutAll(kv, ds[..n]), ds[n];
      PutAllLive(kv, ds[..n]);
      IdsStep(ds);
      NewAfter(ds, n);
      PutKeepsLive(mid, d, IndexKeys(d));
    }
  }

  lemma PutKeepsLive(kv: KV, d: Download, ks: seq<string>)
    requires Live(kv) && ValidId(d.id) && d.createdAt.At? && Present(kv, d.id) == {}
    requires forall k | k in ks :: k in Derived(d)
    ensures Live(PutSome(kv, d, ks))
    ensures Records(kv).Keys <= Records(PutSome(kv, d, ks)).Keys
    ensures forall id | id != d.id :: Present(PutSome(kv, d, ks), id) == Present(kv, id)
  {
    PutSomeLive(kv, d, ks);
    IndexKeyFacts(d);
    PutFrame(kv, d, ks);
  }

  /** A proper prefix of a batch has written some records in full and one more in part. */
  lemma {:induction false} BatchPrefixShape(ds: seq<Download>, n: nat, m: nat) returns (i: nat, j: nat)
    requires n <= |ds| && m < |BatchEntries(ds[..n])|
    ensures i < n && j <= |PutEntries(ds[i])|
    ensures BatchEntries(ds[..n])[..m] == BatchEntries(ds[..i]) + PutEntries(ds[i])[..j]
  {
    var es, fs := BatchEntries(ds[..n - 1]), PutEntries(ds[n - 1]);
    BatchEntriesStep(ds, n);
    PrefixOfConcat(es, fs, m);
    if m < |es| {
      i, j := BatchPrefixShape(ds, n - 1, m);
    } else {
      i, j := n - 1, m - |es|;
    }
  }

  lemma PrefixOfConcat<T>(a: seq<T>, b: seq<T>, m: nat)
    requires m <= |a + b|
    ensures (a + b)[..m] == if m < |a| then a[..m] else a + b[..m - |a|]
  {
  }

  lemma BatchEntriesStep(ds: seq<Download>, n: nat)
    requires 0 < n <= |ds|
    ensures BatchEntries(ds[..n]) == BatchEntries(ds[..n - 1]) + PutEntries(ds[n - 1])
  {
    assert ds[..n][..n - 1] == ds[..n - 1];
  }

  lemma PutAllStep(kv: KV, ds: seq<Download>, n: nat)
    requires 0 < n <= |ds|
    ensures PutAll(kv, ds[..n]) == Put(PutAll(kv, ds[..n - 1]), ds[n - 1])
  {
    assert ds[..n][..n - 1] == ds[..n - 1];
  }

  /** At every commit of the batch, even in the middle of one record's entries, no entry is stale. */
  lemma BatchPrefixLive(kv: KV, ds: seq<Download>, m: nat)
    requires Live(kv) && Writable(kv, ds) && m <= |BatchEntries(ds)|
    ensures Live(ApplyAll(kv, BatchEntries(ds)[..m]))
    ensures Records(kv).Keys <= Records(ApplyAll(kv, BatchEntries(ds)[..m])).Keys
  {
    if m == |BatchEntries(ds)| {
      assert BatchEntries(ds)[..m] == BatchEntries(ds);
      ApplyBatch(kv, ds);
      PutAllLive(kv, ds);
    } else {
      assert ds[..|ds|] == ds;
      var i, j := BatchPrefixShape(ds, |ds|, m);
      ApplyAllAppend(kv, BatchEntries(ds[..i]), PutEntries(ds[i])[..j]);
      ApplyBatch(kv, ds[..i]);
      PutAllLive(kv, ds[..i]);
      NewAfter(ds, i);
      ApplyPutEntries(PutAll(kv, ds[..i]), ds[i], j);
      if j > 0 {
        PutKeepsLive(PutAll(kv, ds[..i]), ds[i], IndexKeys(ds[i])[..j - 1]);
      }
    }
  }

  // ---- Unindexing ----

  lemma StoredIndexKeysFacts(kv: KV, ids: seq<string>)
    requires Live(kv) && AllPresent(kv, ids)
    ensures forall k | k in StoredIndexKeys(kv, ids) :: IsIndexKey(k) && !IsPrimaryKey(k) && IdOf(k) in ids
  {
    forall k | k in StoredIndexKeys(kv, ids) ensures IsIndexKey(k) && !IsPrimaryKey(k) && IdOf(k) in ids {
      var id :| id in ids && k in IndexKeys(RecordOf(kv, id));
      IdOfRecord(kv, id);
      IndexKeyFacts(RecordOf(kv, id));
    }
  }

  /** After any part of the unindexing phase: no stale entry, all records still there, and the ids
      done so far have no entry at all. */
  lemma UnindexLive(kv: KV, ids: seq<string>)
    requires Live(kv) && AllPresent(kv, ids)
    ensures var c := Unindexed(kv, ids);
            && Live(c) && Records(c) == Records(kv)
            && (forall id | id in ids :: Present(c, id) == {})
            && (forall id | id !in ids :: Present(c, id) == Present(kv, id))
            && (Complete(kv) ==> CompleteBut(c, set id | id in ids))
  {
    var c := Unindexed(kv, ids);
    StoredIndexKeysFacts(kv, ids);
    ClearKeepsLive(kv, StoredIndexKeys(kv, ids));
    forall k | k in c && IsIndexKey(k) ensures IdOf(k) !in ids {
      assert k in Expected(kv, IdOf(k));
    }
    if Complete(kv) {
      forall k | k in c && c[k].Record? && c[k].d.id !in ids ensures Derived(c[k].d) <= c.Keys {
        IndexKeyFacts(c[k].d);
        assert Derived(kv[k].d) <= kv.Keys;
      }
    }
  }

  // ---- Bulk update ----

  lemma RestampedWritable(kv: KV, ds: seq<Download>, clock: Clock)
    requires Live(kv) && Distinct(ds) && AllPresent(kv, Ids(ds))
    ensures Writable(Unindexed(kv, Ids(ds)), Restamped(kv, ds, clock))
    ensures Ids(Restamped(kv, ds, clock)) == Ids(ds)
  {
    var ns := Restamped(kv, ds, clock);
    UnindexLive(kv, Ids(ds));
    forall i | 0 <= i < |ds|
      ensures ns[i].id == ds[i].id && ValidId(ds[i].id) && ns[i].createdAt.At?
      ensures Present(Unindexed(kv, Ids(ds)), ds[i].id) == {}
    {
      assert Ids(ds)[i] == ds[i].id && ds[i].id in Ids(ds);
      IdOfRecord(kv, ds[i].id);
    }
  }

  /** What may be committed while a bulk update is under way. */
  ghost predicate UpdateStage(kv: KV, ds: seq<Download>, clock: Clock, s: KV) {
    || (exists a | 0 <= a <= |ds| :: s == Unindexed(kv, Ids(ds)[..a]))
    || PrefixApplied(s, Unindexed(kv, Ids(ds)), BatchEntries(Restamped(kv, ds, clock)))
  }

  /** At every commit of a bulk update each index entry is derived from the record stored at that
      moment, and no record is missing. */
  lemma UpdateStageLive(kv: KV, ds: seq<Download>, clock: Clock, s: KV)
    requires Live(kv) && Distinct(ds) && AllPresent(kv, Ids(ds)) && UpdateStage(kv, ds, clock, s)
    ensures Live(s) && Records(kv).Keys <= Records(s).Keys
  {
    if a :| 0 <= a <= |ds| && s == Unindexed(kv, Ids(ds)[..a]) {
      UnindexLive(kv, Ids(ds)[..a]);
    } else {
      var es := BatchEntries(Restamped(kv, ds, clock));
      var c := Unindexed(kv, Ids(ds));
      var m :| 0 <= m <= |es| && s == ApplyAll(c, es[..m]);
      UnindexLive(kv, Ids(ds));
      RestampedWritable(kv, ds, clock);
      BatchPrefixLive(c, Restamped(kv, ds, clock), m);
    }
  }

  /** Index keys of other ids can be cleared before or after a record is written. */
  lemma ClearCommutes(kv: KV, d: Download, ks: set<string>, ls: set<string>)
    requires ValidId(d.id) && d.createdAt.At?
    requires forall k | k in ls :: IsIndexKey(k) && IdOf(k) != d.id
    ensures Put(kv - ks, d) - ls == Put(kv - (ks + ls), d)
  {
    IndexKeyFacts(d);
    forall k | k in ls ensures k != KDownload(d.id) && k !in IndexKeys(d) { RowsApart(k); }
  }

  lemma StoredIndexKeysHead(kv: KV, ids: seq<string>, n: nat)
    requires n < |ids| && HasRecord(kv, ids[n])
    ensures StoredIndexKeys(kv, ids[n..]) == Derived(RecordOf(kv, ids[n])) + StoredIndexKeys(kv, ids[n + 1..])
  {
    assert ids[n..] == [ids[n]] + ids[n + 1..];
  }

  lemma {:induction false} FoldUpdateFrame(kv: KV, ds: seq<Download>, clock: Clock, id: string)
    requires Live(kv) && id !in Ids(ds)
    ensures Live(FoldUpdate(kv, ds, clock))
    ensures HasRecord(FoldUpdate(kv, ds, clock), id) == HasRecord(kv, id)
    ensures HasRecord(kv, id) ==> RecordOf(FoldUpdate(kv, ds, clock), id) == RecordOf(kv, id)
  {
    if ds != [] {
      var n := |ds| - 1;
      IdsStep(ds);
      FoldUpdateFrame(kv, ds[..n], clock, id);
      UpdateFrame(FoldUpdate(kv, ds[..n], clock), ds[n], clock(n), id);
    }
  }

  /** The phases end where updating one record after the other ends. */
  lemma BulkUpdateIsFold(kv: KV, ds: seq<Download>, clock: Clock)
    requires Live(kv) && Distinct(ds) && AllPresent(kv, Ids(ds))
    ensures BulkUpdated(kv, ds, clock) == FoldUpdate(kv, ds, clock)
  {
    var n := |ds|;
    BulkUpdateProgress(kv, ds, clock, n);
    assert ds[..n] == ds && Restamped(kv, ds, clock)[..n] == Restamped(kv, ds, clock);
    NothingUnindexed(FoldUpdate(kv, ds, clock), StoredIndexKeys(kv, Ids(ds)[n..]));
  }

  /** A completed bulk update of distinct ids leaves a consistent store. */
  lemma BulkUpdateKeeps(kv: KV, ds: seq<Download>, clock: Clock)
    requires Live(kv) && Distinct(ds) && AllPresent(kv, Ids(ds))
    ensures Live(BulkUpdated(kv, ds, clock)) && (Complete(kv) ==> Complete(BulkUpdated(kv, ds, clock)))
  {
    BulkUpdateIsFold(kv, ds, clock);
    FoldUpdateKeeps(kv, ds, clock);
  }

  lemma {:induction false} FoldUpdateKeeps(kv: KV, ds: seq<Download>, clock: Clock)
    requires Live(kv)
    ensures Live(FoldUpdate(kv, ds, clock)) && (Complete(kv) ==> Complete(FoldUpdate(kv, ds, clock)))
  {
    if ds != [] {
      var n := |ds| - 1;
      FoldUpdateKeeps(kv, ds[..n], clock);
      UpdateKeepsAll(FoldUpdate(kv, ds[..n], clock), ds[n], clock(n));
    }
  }

  lemma NothingUnindexed(kv: KV, ks: set<string>)
    requires ks == {}
    ensures kv - ks == kv
  {
  }

  /** With n records updated one at a time and the rest unindexed, the store is the one that the
      bulk phases reach after n batch records. */
  lemma {:induction false} BulkUpdateProgress(kv: KV, ds: seq<Download>, clock: Clock, n: nat)
    requires Live(kv) && Distinct(ds) && AllPresent(kv, Ids(ds)) && n <= |ds|
    ensures FoldUpdate(kv, ds[..n], clock) - StoredIndexKeys(kv, Ids(ds)[n..])
         == PutAll(Unindexed(kv, Ids(ds)), Restamped(kv, ds, clock)[..n])
  {
    var ids, ns := Ids(ds), Restamped(kv, ds, clock);
    if n == 0 {
      assert ids[0..] == ids;
    } else {
      BulkUpdateProgress(kv, ds, clock, n - 1);
      FoldUpdateStep(kv, ds, clock, n);
      PutThenUnindex(kv, ds, clock, n, FoldUpdate(kv, ds[..n - 1], clock));
      PutAllStep(Unindexed(kv, ids), ns, n);
    }
  }

  lemma PutThenUnindex(kv: KV, ds: seq<Download>, clock: Clock, n: nat, mid: KV)
    requires Live(kv) && Distinct(ds) && AllPresent(kv, Ids(ds)) && 0 < n <= |ds| && HasRecord(kv, ds[n - 1].id)
    ensures Put(mid - Derived(RecordOf(kv, ds[n - 1].id)), Restamped(kv, ds, clock)[n - 1]) - StoredIndexKeys(kv, Ids(ds)[n..])
         == Put(mid - StoredIndexKeys(kv, Ids(ds)[n - 1..]), Restamped(kv, ds, clock)[n - 1])
  {
    var ids, d := Ids(ds), ds[n - 1];
    IdOfRecord(kv, d.id);
    StoredIndexKeysFacts(kv, ids[n..]);
    assert forall i | 0 <= i < |ids[n..]| :: ids[n..][i] == ds[n + i].id;
    ClearCommutes(mid, Restamped(kv, ds, clock)[n - 1], Derived(RecordOf(kv, d.id)), StoredIndexKeys(kv, ids[n..]));
    StoredIndexKeysHead(kv, ids, n - 1);
  }

  lemma FoldUpdateStep(kv: KV, ds: seq<Download>, clock: Clock, n: nat)
    requires Live(kv) && Distinct(ds) && AllPresent(kv, Ids(ds)) && 0 < n <= |ds|
    ensures HasRecord(kv, ds[n - 1].id)
    ensures FoldUpdate(kv, ds[..n], clock)
         == Put(FoldUpdate(kv, ds[..n - 1], clock) - Derived(RecordOf(kv, ds[n - 1].id)), Restamped(kv, ds, clock)[n - 1])
  {
    var d := ds[n - 1];
    assert Ids(ds)[n - 1] == d.id;
    NewAfter(ds, n - 1);
    FoldUpdateFrame(kv, ds[..n - 1], clock, d.id);
    assert ds[..n][..n - 1] == ds[..n - 1];
  }

  // ---- Bulk delete ----

  /** What a delete of `id` takes out of the store. */
  predicate Doomed(kv: KV, id: string, k: string) {
    || k == KDownload(id)
    || (HasRecord(kv, id) && k in IndexKeys(RecordOf(kv, id)))
    || SegmentPrefix(id) <= k
  }

  function Survivors(kv: KV, ids: seq<string>): KV {
    map k | k in kv && !(exists i | 0 <= i < |ids| :: Doomed(kv, ids[i], k)) :: kv[k]
  }

  function PrimaryKeys(ids: seq<string>): set<string> { set id | id in ids :: KDownload(id) }

  lemma {:induction false} ApplyDeletes(kv: KV, ids: seq<string>)
    ensures ApplyAll(kv, DeleteEntries(ids)) == kv - PrimaryKeys(ids)
  {
    if ids != [] {
      var n := |ids| - 1;
      assert DeleteEntries(ids)[..n] == DeleteEntries(ids[..n]);
      ApplyDeletes(kv, ids[..n]);
      assert ids == ids[..n] + [ids[n]];
      assert PrimaryKeys(ids) == PrimaryKeys(ids[..n]) + {KDownload(ids[n])};
    } else {
      assert kv - {} == kv;
    }
  }

  lemma BulkDeletedSurvivors(kv: KV, ids: seq<string>)
    ensures BulkDeleted(kv, ids) == Survivors(kv, ids)
  {
    ApplyDeletes(Stripped(kv, ids), ids);
    var b := Stripped(kv, ids) - PrimaryKeys(ids);
    forall k | k in kv ensures k in b <==> k in Survivors(kv, ids) {
      if k !in b {
        if k in PrimaryKeys(ids) {
          var id :| id in ids && k == KDownload(id);
          var i :| 0 <= i < |ids| && ids[i] == id;
          assert Doomed(kv, ids[i], k);
        } else if k in StoredIndexKeys(kv, ids) {
          var id :| id in ids && HasRecord(kv, id) && k in IndexKeys(RecordOf(kv, id));
          var i :| 0 <= i < |ids| && ids[i] == id;
          assert Doomed(kv, ids[i], k);
        } else {
          var i :| 0 <= i < |ids| && SegmentPrefix(ids[i]) <= k;
          assert Doomed(kv, ids[i], k);
        }
      }
    }
  }

  lemma {:induction false} FoldDeleteSurvivors(kv: KV, ids: seq<string>)
    requires Live(kv) && AllPresent(kv, ids)
    ensures FoldDelete(kv, ids) == Survivors(kv, ids)
  {
    if ids == [] {
      assert Survivors(kv, ids) == kv;
    } else {
      var n := |ids| - 1;
      FoldDeleteSurvivors(kv, ids[..n]);
      SurvivorsStep(kv, ids);
      if ids[n] in ids[..n] {
        DeleteTwice(kv, ids[..n], ids[n]);
      } else {
        DeleteOneMore(kv, ids[..n], ids[n]);
      }
    }
  }

  lemma DeleteTwice(kv: KV, ids: seq<string>, id: string)
    requires id in ids
    ensures DeleteNext(Survivors(kv, ids), id) == Survivors(kv, ids)
    ensures forall k | k in Survivors(kv, ids) :: !Doomed(kv, id, k)
  {
    var i :| 0 <= i < |ids| && ids[i] == id;
    assert Doomed(kv, ids[i], KDownload(id));
  }

  lemma DeleteOneMore(kv: KV, ids: seq<string>, id: string)
    requires Live(kv) && AllPresent(kv, ids) && HasRecord(kv, id) && id !in ids
    ensures DeleteNext(Survivors(kv, ids), id)
         == map k | k in Survivors(kv, ids) && !Doomed(kv, id, k) :: kv[k]
  {
    forall i | 0 <= i < |ids| ensures !Doomed(kv, ids[i], KDownload(id)) {
      NotDoomed(kv, ids[i], id);
    }
    assert RecordOf(Survivors(kv, ids), id) == RecordOf(kv, id);
    DeleteIsFilter(kv, Survivors(kv, ids), id);
  }

  lemma DeleteIsFilter(kv: KV, s: KV, id: string)
    requires HasRecord(kv, id) && HasRecord(s, id) && RecordOf(s, id) == RecordOf(kv, id)
    requires forall k | k in s :: k in kv && s[k] == kv[k]
    ensures DeleteNext(s, id) == map k | k in s && !Doomed(kv, id, k) :: kv[k]
  {
  }

  /** Deleting one download leaves the record of another. */
  lemma NotDoomed(kv: KV, other: string, id: string)
    requires Live(kv) && HasRecord(kv, other) && other != id
    ensures !Doomed(kv, other, KDownload(id))
  {
    KDownloadInjective(other, id);
    RowsApart(KDownload(id));
    IdOfRecord(kv, other);
    IndexKeyFacts(RecordOf(kv, other));
    assert P_SEGMENT <= SegmentPrefix(other);
  }

  lemma SurvivorsStep(kv: KV, ids: seq<string>)
    requires ids != []
    ensures var n := |ids| - 1;
            Survivors(kv, ids) == map k | k in Survivors(kv, ids[..n]) && !Doomed(kv, ids[n], k) :: kv[k]
  {
    var n := |ids| - 1;
    assert forall i | 0 <= i < n :: ids[..n][i] == ids[i];
  }

  /** The phases end where deleting one download after the other ends, repeated ids included. */
  lemma BulkDeleteIsFold(kv: KV, ids: seq<string>)
    requires Live(kv) && AllPresent(kv, ids)
    ensures BulkDeleted(kv, ids) == FoldDelete(kv, ids)
  {
    BulkDeletedSurvivors(kv, ids);
    FoldDeleteSurvivors(kv, ids);
  }

  lemma {:induction false} FoldDeleteKeeps(kv: KV, ids: seq<string>)
    requires Live(kv)
    ensures Live(FoldDelete(kv, ids)) && (Complete(kv) ==> Complete(FoldDelete(kv, ids)))
  {
    if ids != [] {
      var n := |ids| - 1;
      FoldDeleteKeeps(kv, ids[..n]);
      if HasRecord(FoldDelete(kv, ids[..n]), ids[n]) {
        DeleteKeeps(FoldDelete(kv, ids[..n]), ids[n], {});
      }
    }
  }

  /** What may be committed while a bulk delete is under way. */
  ghost predicate DeleteStage(kv: KV, ids: seq<string>, s: KV) {
    || (exists a | 0 <= a <= |ids| :: s == Stripped(kv, ids[..a]))
    || PrefixApplied(s, Stripped(kv, ids), DeleteEntries(ids))
  }

  lemma StrippedIsStage(kv: KV, ids: seq<string>, a: nat)
    requires a <= |ids|
    ensures DeleteStage(kv, ids, Stripped(kv, ids[..a]))
  {
  }

  lemma WithoutSegmentsLive(kv: KV, ids: seq<string>)
    requires Live(kv)
    ensures Live(WithoutSegments(kv, ids)) && Records(WithoutSegments(kv, ids)) == Records(kv)
  {
    var w := WithoutSegments(kv, ids);
    forall k | k in kv && (IsIndexKey(k) || IsPrimaryKey(k)) ensures k in w {
      RowsApart(k);
      assert forall i | 0 <= i < |ids| :: P_SEGMENT <= SegmentPrefix(ids[i]);
    }
    forall k | k in w && IsIndexKey(k) ensures k in Expected(w, IdOf(k)) && w[k] == Mark {
      assert k in Expected(kv, IdOf(k));
    }
  }

  lemma DropPrimariesLive(kv: KV, ids: seq<string>)
    requires Live(kv) && forall id | id in ids :: Present(kv, id) == {}
    ensures Live(kv - PrimaryKeys(ids))
  {
    var w := kv - PrimaryKeys(ids);
    forall k | k in w && IsIndexKey(k) ensures k in Expected(w, IdOf(k)) && w[k] == Mark {
      assert k in Expected(kv, IdOf(k)) && k in Present(kv, IdOf(k));
      forall id | id in ids ensures KDownload(id) != KDownload(IdOf(k)) { KDownloadInjective(id, IdOf(k)); }
    }
  }

  /** At every commit of a bulk delete each index entry is derived from the record stored at that
      moment: entries go before their record does. */
  lemma DeleteStageLive(kv: KV, ids: seq<string>, s: KV)
    requires Live(kv) && AllPresent(kv, ids) && DeleteStage(kv, ids, s)
    ensures Live(s)
  {
    if a :| 0 <= a <= |ids| && s == Stripped(kv, ids[..a]) {
      UnindexLive(kv, ids[..a]);
      WithoutSegmentsLive(Unindexed(kv, ids[..a]), ids[..a]);
    } else {
      var m :| 0 <= m <= |ids| &&
               s == ApplyAll(Stripped(kv, ids), DeleteEntries(ids)[..m]);
      assert DeleteEntries(ids)[..m] == DeleteEntries(ids[..m]);
      DropStageLive(kv, ids, ids[..m]);
    }
  }

  lemma DropStageLive(kv: KV, ids: seq<string>, done: seq<string>)
    requires Live(kv) && AllPresent(kv, ids) && forall id | id in done :: id in ids
    ensures Live(ApplyAll(Stripped(kv, ids), DeleteEntries(done)))
  {
    var u := Unindexed(kv, ids);
    var w := WithoutSegments(u, ids);
    UnindexLive(kv, ids);
    WithoutSegmentsLive(u, ids);
    ApplyDeletes(w, done);
    assert forall id :: Present(w, id) <= Present(u, id);
    DropPrimariesLive(w, done);
  }

  // ---- Bulk create ----

  /** What may be committed while a bulk create is under way. */
  ghost predicate CreateStage(kv: KV, ds: seq<Download>, clock: Clock, s: KV) {
    PrefixApplied(s, kv, BatchEntries(Stamped(ds, clock)))
  }

  ghost predicate AllNew(kv: KV, ds: seq<Download>) {
    Distinct(ds) && forall i | 0 <= i < |ds| :: ValidId(ds[i].id) && !HasRecord(kv, ds[i].id)
  }

  lemma StampedWritable(kv: KV, ds: seq<Download>, clock: Clock)
    requires Live(kv) && AllNew(kv, ds)
    ensures Writable(kv, Stamped(ds, clock))
  {
    forall i | 0 <= i < |ds| ensures Present(kv, ds[i].id) == {} {
      assert Expected(kv, ds[i].id) == {};
    }
  }

  lemma CreateStageLive(kv: KV, ds: seq<Download>, clock: Clock, s: KV)
    requires Live(kv) && AllNew(kv, ds) && CreateStage(kv, ds, clock, s)
    ensures Live(s) && Records(kv).Keys <= Records(s).Keys
  {
    StampedWritable(kv, ds, clock);
    var m :| 0 <= m <= |BatchEntries(Stamped(ds, clock))| && s == ApplyAll(kv, BatchEntries(Stamped(ds, clock))[..m]);
    BatchPrefixLive(kv, Stamped(ds, clock), m);
  }

  /** A completed bulk create of new, distinct ids leaves a consistent store. */
  lemma {:induction false} BulkCreateKeeps(kv: KV, ds: seq<Download>, clock: Clock)
    requires Live(kv) && AllNew(kv, ds)
    ensures Live(FoldCreate(kv, ds, clock)) && (Complete(kv) ==> Complete(FoldCreate(kv, ds, clock)))
    ensures forall id | id !in Ids(ds) :: HasRecord(FoldCreate(kv, ds, clock), id) == HasRecord(kv, id)
  {
    if ds != [] {
      var n := |ds| - 1;
      BulkCreateKeeps(kv, ds[..n], clock);
      IdsStep(ds);
      NewAfter(ds, n);
      CreateKeeps(FoldCreate(kv, ds[..n], clock), ds[n], clock(n));
    }
  }
}
