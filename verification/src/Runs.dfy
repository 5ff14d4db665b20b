/**
 Whole runs of the store: any sequence of repository operations from an empty store
 (internal/repository/repository.go:488-545, 572-826, 970-1136).
 */
module Runs {
  import opened Text
  import opened Models
  import opened Keys
  import opened Store
  import opened Consistency
  import opened Bulk
  import opened Listing
  import opened QueueScope
  import opened Repeats

  datatype Op =
    | Create(d: Download, now: Nanos)
    | Update(d: Download, now: Nanos)
    | Delete(id: string)
    | BulkCreate(ds: seq<Download>, clock: Clock)
    | BulkUpdate(ds: seq<Download>, clock: Clock)
    | BulkDelete(ids: seq<string>)
    | QueueUpdate(queue: string, change: Change, clock: Clock)
    | QueueDelete(queue: string)
    | OtherRow(key: string, value: Value)
    | BulkCreateCut(ds: seq<Download>, clock: Clock)
    | BulkUpdateCut(ds: seq<Download>, clock: Clock)
    | BulkDeleteCut(ids: seq<string>)

  /** A bulk write that stopped after some commit: cancelled, failed, or simply not finished yet. */
  predicate IsCut(op: Op) { op.BulkCreateCut? || op.BulkUpdateCut? || op.BulkDeleteCut? }

  /** What an operation may make of the store. Creates are given new ids, as the service's uuids are;
      updates and deletes of missing ids fail and change nothing; bulk updates name each id once. */
  ghost predicate StepTo(op: Op, kv: KV, next: KV) {
    match op
    case Create(d, now) => ValidId(d.id) && !HasRecord(kv, d.id) && next == CreateNext(kv, d, now)
    case Update(d, now) => next == UpdateNext(kv, d, now)
    case Delete(id) => next == DeleteNext(kv, id)
    case BulkCreate(ds, clock) => AllNew(kv, ds) && next == FoldCreate(kv, ds, clock)
    case BulkUpdate(ds, clock) => Distinct(ds) && AllPresent(kv, Ids(ds)) && next == BulkUpdated(kv, ds, clock)
    case BulkDelete(ids) => AllPresent(kv, ids) && next == BulkDeleted(kv, ids)
    case QueueUpdate(queue, c, clock) =>
      AllPresent(kv, ScannedIds(kv, queue)) && next == QueueChanged(kv, queue, c, clock)
    case QueueDelete(queue) =>
      AllPresent(kv, ScannedIds(kv, queue)) && next == BulkDeleted(kv, ScannedIds(kv, queue))
    case OtherRow(k, v) => !IsPrimaryKey(k) && !IsIndexKey(k) && !v.Record? && next == kv[k := v]
    case BulkCreateCut(ds, clock) => AllNew(kv, ds) && CreateStage(kv, ds, clock, next)
    case BulkUpdateCut(ds, clock) => Distinct(ds) && AllPresent(kv, Ids(ds)) && UpdateStage(kv, ds, clock, next)
    case BulkDeleteCut(ids) => AllPresent(kv, ids) && DeleteStage(kv, ids, next)
  }

  lemma OtherRowKeeps(kv: KV, k: string, v: Value)
    requires Live(kv) && !IsPrimaryKey(k) && !IsIndexKey(k) && !v.Record?
    ensures Live(kv[k := v]) && (Complete(kv) ==> Complete(kv[k := v]))
  {
    var next := kv[k := v];
    assert forall id :: KDownload(id) != k by {
      forall id ensures IsPrimaryKey(KDownload(id)) {}
    }
    forall x | x in next && IsIndexKey(x) ensures x in Expected(next, IdOf(x)) && next[x] == Mark {
      assert x in kv;
    }
  }

  lemma SingleStepKeeps(op: Op, kv: KV, next: KV)
    requires op.Create? || op.Update? || op.Delete? || op.OtherRow?
    requires Live(kv) && StepTo(op, kv, next)
    ensures Live(next) && (Complete(kv) ==> Complete(next))
  {
    match op
    case Create(d, now) => CreateKeeps(kv, d, now);
    case Update(d, now) => UpdateKeepsAll(kv, d, now);
    case Delete(id) => if HasRecord(kv, id) { DeleteKeeps(kv, id, {}); }
    case OtherRow(k, v) => OtherRowKeeps(kv, k, v);
  }

  lemma BulkStepKeeps(op: Op, kv: KV, next: KV)
    requires op.BulkCreate? || op.BulkUpdate? || op.BulkDelete? || op.QueueUpdate? || op.QueueDelete?
    requires Live(kv) && StepTo(op, kv, next)
    ensures Live(next) && (Complete(kv) ==> Complete(next))
  {
    match op
    case BulkCreate(ds, clock) => BulkCreateKeeps(kv, ds, clock);
    case BulkUpdate(ds, clock) => BulkUpdateKeeps(kv, ds, clock);
    case BulkDelete(ids) => BulkDeleteIsFold(kv, ids); FoldDeleteKeeps(kv, ids);
    case QueueUpdate(queue, c, clock) => QueueChangeIsExact(kv, queue, c, clock);
    case QueueDelete(queue) => QueueDeleteIsExact(kv, queue);
  }

  lemma CutStepKeeps(op: Op, kv: KV, next: KV)
    requires IsCut(op) && Live(kv) && StepTo(op, kv, next)
    ensures Live(next)
  {
    match op
    case BulkCreateCut(ds, clock) => CreateStageLive(kv, ds, clock, next);
    case BulkUpdateCut(ds, clock) => UpdateStageLive(kv, ds, clock, next);
    case BulkDeleteCut(ids) => DeleteStageLive(kv, ids, next);
  }

  /** Every operation keeps the store free of stale entries; completed ones lose no entry either. */
  lemma StepKeeps(op: Op, kv: KV, next: KV)
    requires Live(kv) && StepTo(op, kv, next)
    ensures Live(next) && (Complete(kv) && !IsCut(op) ==> Complete(next))
  {
    if IsCut(op) {
      CutStepKeeps(op, kv, next);
    } else if op.Create? || op.Update? || op.Delete? || op.OtherRow? {
      SingleStepKeeps(op, kv, next);
    } else {
      BulkStepKeeps(op, kv, next);
    }
  }

  /** A run: the stores that the operations go through, from an empty one. */
  ghost predicate IsRun(ops: seq<Op>, kvs: seq<KV>) {
    && |kvs| == |ops| + 1 && kvs[0] == map[]
    && forall i | 0 <= i < |ops| :: StepTo(ops[i], kvs[i], kvs[i + 1])
  }

  /** On every run no reader ever meets an index entry that its record does not derive, whatever was
      cancelled half way; and on a run of completed operations the index is exact throughout. */
  lemma {:induction false} RunConsistent(ops: seq<Op>, kvs: seq<KV>, n: nat)
    requires IsRun(ops, kvs) && n <= |ops|
    ensures Live(kvs[n])
    ensures (forall i | 0 <= i < n :: !IsCut(ops[i])) ==> IndexKeysIn(kvs[n]) == DerivedFromAll(kvs[n])
  {
    if n > 0 {
      RunConsistent(ops, kvs, n - 1);
      if forall i | 0 <= i < n - 1 :: !IsCut(ops[i]) {
        ConsistentFromExact(kvs[n - 1]);
      }
      StepKeeps(ops[n - 1], kvs[n - 1], kvs[n]);
    }
    ConsistentIsExact(kvs[n]);
  }

  lemma ConsistentFromExact(kv: KV)
    requires Live(kv) && IndexKeysIn(kv) == DerivedFromAll(kv)
    ensures Consistent(kv)
  {
    ConsistentIsExact(kv);
  }

  // ---- Doing a cut-off bulk update again ----

  /** A batch entry that no record outside `ids` can miss anything by. */
  predicate Harmless(e: Entry, ids: set<string>) {
    e.Set? && (e.value == Mark || (e.value.Record? && e.value.d.id in ids))
  }

  lemma {:induction false} HarmlessEntries(kv: KV, es: seq<Entry>, ids: set<string>)
    requires CompleteBut(kv, ids) && forall i | 0 <= i < |es| :: Harmless(es[i], ids)
    ensures CompleteBut(ApplyAll(kv, es), ids)
  {
    if es != [] {
      HarmlessEntries(kv, es[..|es| - 1], ids);
      assert Harmless(es[|es| - 1], ids);
    }
  }

  lemma {:induction false} BatchIsHarmless(ns: seq<Download>, ids: set<string>)
    requires forall i | 0 <= i < |ns| :: ns[i].id in ids
    ensures forall i | 0 <= i < |BatchEntries(ns)| :: Harmless(BatchEntries(ns)[i], ids)
  {
    if ns != [] {
      BatchIsHarmless(ns[..|ns| - 1], ids);
    }
  }

  /** At every commit of a bulk update only the records that it names may lack entries. */
  lemma StageComplete(kv: KV, ds: seq<Download>, clock: Clock, s: KV)
    requires Consistent(kv) && AllPresent(kv, Ids(ds)) && UpdateStage(kv, ds, clock, s)
    ensures CompleteBut(s, set id | id in Ids(ds))
  {
    var ids := set id | id in Ids(ds);
    if a :| 0 <= a <= |ds| && s == Unindexed(kv, Ids(ds)[..a]) {
      UnindexLive(kv, Ids(ds)[..a]);
    } else {
      var ns, c := Restamped(kv, ds, clock), Unindexed(kv, Ids(ds));
      var m :| 0 <= m <= |BatchEntries(ns)| && s == ApplyAll(c, BatchEntries(ns)[..m]);
      UnindexLive(kv, Ids(ds));
      forall i | 0 <= i < |ns| ensures ns[i].id in ids { assert Ids(ds)[i] == ns[i].id; }
      BatchIsHarmless(ns, ids);
      HarmlessEntries(c, BatchEntries(ns)[..m], ids);
    }
  }

  lemma {:induction false} FoldUpdateCompletes(kv: KV, ds: seq<Download>, clock: Clock, ids: set<string>)
    requires Live(kv) && AllPresent(kv, Ids(ds)) && CompleteBut(kv, ids)
    ensures Live(FoldUpdate(kv, ds, clock)) && CompleteBut(FoldUpdate(kv, ds, clock), Missing(ids, ds))
  {
    if ds != [] {
      var n := |ds| - 1;
      var mid := FoldUpdate(kv, ds[..n], clock);
      IdsStep(ds);
      FoldUpdateCompletes(kv, ds[..n], clock, ids);
      FoldUpdateKeys(kv, ds[..n], clock);
      assert Ids(ds)[n] == ds[n].id && ds[n].id in Ids(ds);
      assert KDownload(ds[n].id) in Records(mid);
      UpdateKeeps(mid, ds[n], clock(n), Missing(ids, ds[..n]));
    }
  }

  /** A bulk update that was cut off at any commit, and is then done again to its end, leaves a
      consistent store. */
  lemma RedoRepairs(kv: KV, ds: seq<Download>, clock: Clock, s: KV, again: Clock)
    requires Consistent(kv) && Distinct(ds) && AllPresent(kv, Ids(ds)) && UpdateStage(kv, ds, clock, s)
    ensures AllPresent(s, Ids(ds)) && Consistent(BulkUpdated(s, ds, again))
  {
    var ids := set id | id in Ids(ds);
    UpdateStageLive(kv, ds, clock, s);
    StageComplete(kv, ds, clock, s);
    forall id | id in Ids(ds) ensures HasRecord(s, id) {
      assert KDownload(id) in Records(kv);
      assert KDownload(id) in Records(s);
    }
    BulkUpdateIsFold(s, ds, again);
    FoldUpdateCompletes(s, ds, again, ids);
    MissingAre(ids, ds);
    forall id | id in Ids(ds) ensures LastOf(ds, id).Some? {
      var i :| 0 <= i < |ds| && Ids(ds)[i] == id;
      LastOfMember(ds, i);
    }
    assert Missing(ids, ds) == {};
  }
}
