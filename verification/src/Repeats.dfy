/**
 Bulk writes that name an id more than once, or create one that is there already: exactly when they
 leave the index as it should be (internal/repository/repository.go:572-614, 616-703).
 */
module Repeats {
  import opened Text
  import opened Models
  import opened Keys
  import opened Store
  import opened Consistency
  import opened Bulk

  ghost predicate Storable(ds: seq<Download>) {
    forall i | 0 <= i < |ds| :: ValidId(ds[i].id) && ds[i].createdAt.At?
  }

  ghost predicate OnlyMarks(kv: KV) { forall k | k in kv && IsIndexKey(k) :: kv[k] == Mark }

  /** The last record written for an id. */
  function LastOf(ds: seq<Download>, id: string): Option<Download> {
    if ds == [] then None
    else if ds[|ds| - 1].id == id then Some(ds[|ds| - 1])
    else LastOf(ds[..|ds| - 1], id)
  }

  /** The index keys of all records written for an id. */
  ghost function WrittenKeys(ds: seq<Download>, id: string): set<string> {
    if ds == [] then {}
    else WrittenKeys(ds[..|ds| - 1], id) + (if ds[|ds| - 1].id == id then Derived(ds[|ds| - 1]) else {})
  }

  lemma {:induction false} LastOfMember(ds: seq<Download>, i: nat)
    requires i < |ds|
    ensures LastOf(ds, ds[i].id).Some? && LastOf(ds, ds[i].id).value.id == ds[i].id
    ensures Derived(ds[i]) <= WrittenKeys(ds, ds[i].id)
  {
    if i < |ds| - 1 {
      LastOfMember(ds[..|ds| - 1], i);
    }
  }

  lemma {:induction false} NotWritten(ds: seq<Download>, id: string)
    requires LastOf(ds, id).None?
    ensures WrittenKeys(ds, id) == {}
  {
    if ds != [] {
      NotWritten(ds[..|ds| - 1], id);
    }
  }

  lemma {:induction false} LastIsOneOf(ds: seq<Download>, id: string) returns (i: nat)
    requires LastOf(ds, id).Some?
    ensures i < |ds| && ds[i].id == id && LastOf(ds, id).value == ds[i]
  {
    var n := |ds| - 1;
    if ds[n].id == id {
      i := n;
    } else {
      i := LastIsOneOf(ds[..n], id);
    }
  }

  lemma {:induction false} WrittenByOne(ds: seq<Download>, id: string, k: string) returns (i: nat)
    requires k in WrittenKeys(ds, id)
    ensures i < |ds| && ds[i].id == id && k in Derived(ds[i])
  {
    var n := |ds| - 1;
    if ds[n].id == id && k in Derived(ds[n]) {
      i := n;
    } else {
      i := WrittenByOne(ds[..n], id, k);
    }
  }

  lemma PutPresent(kv: KV, d: Download, id: string)
    requires WellFormed(kv) && ValidId(d.id) && d.createdAt.At?
    ensures Present(Put(kv, d), id) == Present(kv, id) + (if id == d.id then Derived(d) else {})
    ensures OnlyMarks(kv) ==> OnlyMarks(Put(kv, d))
  {
    IndexKeyFacts(d);
    var p := Put(kv, d);
    RowsApart(KDownload(d.id));
    forall k ensures k in p <==> k in kv || k in Derived(d) || k == KDownload(d.id) {}
  }

  lemma PutShape(kv: KV, d: Download, id: string)
    requires WellFormed(kv) && OnlyMarks(kv) && ValidId(d.id) && d.createdAt.At?
    ensures var p := Put(kv, d);
            && WellFormed(p) && OnlyMarks(p)
            && Present(p, id) == Present(kv, id) + (if id == d.id then Derived(d) else {})
            && (if id == d.id then HasRecord(p, id) && RecordOf(p, id) == d else Expected(p, id) == Expected(kv, id))
            && (id != d.id ==>
                  HasRecord(p, id) == HasRecord(kv, id) && (HasRecord(kv, id) ==> RecordOf(p, id) == RecordOf(kv, id)))
  {
    IndexKeyFacts(d);
    PutFrame(kv, d, IndexKeys(d));
    PutPresent(kv, d, id);
  }

  /** What a batch of records leaves for one id: the last record, and the keys of all of them. */
  lemma {:induction false} PutAllShape(kv: KV, ds: seq<Download>, id: string)
    requires WellFormed(kv) && OnlyMarks(kv) && Storable(ds)
    ensures var p := PutAll(kv, ds);
            && WellFormed(p) && OnlyMarks(p)
            && Present(p, id) == Present(kv, id) + WrittenKeys(ds, id)
            && (LastOf(ds, id).Some? ==> HasRecord(p, id) && RecordOf(p, id) == LastOf(ds, id).value)
            && (LastOf(ds, id).None? ==> Expected(p, id) == Expected(kv, id))
  {
    if ds != [] {
      var n := |ds| - 1;
      PutAllShape(kv, ds[..n], id);
      PutShape(PutAll(kv, ds[..n]), ds[n], id);
    }
  }

  lemma LiveById(kv: KV)
    requires WellFormed(kv) && OnlyMarks(kv)
    ensures Live(kv) <==> forall id :: Present(kv, id) <= Expected(kv, id)
  {
    if forall id :: Present(kv, id) <= Expected(kv, id) {
      forall k | k in kv && IsIndexKey(k) ensures k in Expected(kv, IdOf(k)) {
        assert k in Present(kv, IdOf(k));
      }
    }
  }

  /** For each id of a batch, all keys it had or gets are among those of its last record. */
  ghost predicate LastCovers(kv: KV, ds: seq<Download>) {
    forall i | 0 <= i < |ds| ::
      LastOf(ds, ds[i].id).Some? && Present(kv, ds[i].id) + WrittenKeys(ds, ds[i].id) <= Derived(LastOf(ds, ds[i].id).value)
  }

  /** A batch of records leaves no stale entry iff for each id the last record derives every key that
      the id had before or got on the way. */
  lemma PutAllLiveIff(kv: KV, ds: seq<Download>)
    requires Live(kv) && Storable(ds)
    ensures Live(PutAll(kv, ds)) <==> LastCovers(kv, ds)
  {
    var p := PutAll(kv, ds);
    PutAllShape(kv, ds, "");
    LiveById(p);
    if Live(p) {
      forall i | 0 <= i < |ds|
        ensures LastOf(ds, ds[i].id).Some?
        ensures Present(kv, ds[i].id) + WrittenKeys(ds, ds[i].id) <= Derived(LastOf(ds, ds[i].id).value)
      {
        LastOfMember(ds, i);
        PutAllShape(kv, ds, ds[i].id);
        assert Present(p, ds[i].id) <= Expected(p, ds[i].id);
      }
    }
    if LastCovers(kv, ds) {
      forall id ensures Present(p, id) <= Expected(p, id) {
        PutAllShape(kv, ds, id);
        if LastOf(ds, id).Some? {
          var i := LastIsOneOf(ds, id);
        } else {
          NotWritten(ds, id);
          LiveById(kv);
        }
      }
    }
  }

  /** The ids that are still to be written after a batch. */
  ghost function Missing(ids: set<string>, ds: seq<Download>): set<string> {
    if ds == [] then ids else Missing(ids, ds[..|ds| - 1]) - {ds[|ds| - 1].id}
  }

  lemma {:induction false} MissingAre(ids: set<string>, ds: seq<Download>)
    ensures forall id :: id in Missing(ids, ds) <==> id in ids && LastOf(ds, id).None?
  {
    if ds != [] {
      MissingAre(ids, ds[..|ds| - 1]);
    }
  }

  lemma {:induction false} PutAllComplete(kv: KV, ds: seq<Download>, ids: set<string>)
    requires WellFormed(kv) && OnlyMarks(kv) && Storable(ds) && CompleteBut(kv, ids)
    ensures CompleteBut(PutAll(kv, ds), Missing(ids, ds))
  {
    if ds != [] {
      var n := |ds| - 1;
      PutAllComplete(kv, ds[..n], ids);
      PutAllShape(kv, ds[..n], "");
      PutComplete(PutAll(kv, ds[..n]), ds[n], Missing(ids, ds[..n]));
    }
  }

  // ---- Main results ----

  lemma StampedStorable(ds: seq<Download>, clock: Clock)
    requires forall i | 0 <= i < |ds| :: ValidId(ds[i].id)
    ensures Storable(Stamped(ds, clock))
  {
  }

  /** A bulk create of any ids keeps a consistent store consistent iff for each id the last record
      derives every key that an earlier one, stored or in the batch, has. */
  lemma BulkCreateConsistentIff(kv: KV, ds: seq<Download>, clock: Clock)
    requires Consistent(kv) && forall i | 0 <= i < |ds| :: ValidId(ds[i].id)
    ensures Consistent(FoldCreate(kv, ds, clock)) <==> LastCovers(kv, Stamped(ds, clock))
  {
    var ns := Stamped(ds, clock);
    StampedStorable(ds, clock);
    BulkCreateIsFold(kv, ds, clock);
    PutAllLiveIff(kv, ns);
    PutAllComplete(kv, ns, {});
    MissingAre({}, ns);
    assert Missing({}, ns) == {};
  }

  lemma RestampedStorable(kv: KV, ds: seq<Download>, clock: Clock)
    requires WellFormed(kv) && AllPresent(kv, Ids(ds))
    ensures Storable(Restamped(kv, ds, clock))
  {
    var ns := Restamped(kv, ds, clock);
    forall i | 0 <= i < |ds| ensures ValidId(ns[i].id) && ns[i].createdAt.At? {
      assert Ids(ds)[i] == ds[i].id && ds[i].id in Ids(ds);
      IdOfRecord(kv, ds[i].id);
    }
  }

  /** No repetition in the list has an index key that the last one for its id lacks. */
  ghost predicate LastHasAllKeys(ns: seq<Download>) {
    forall i | 0 <= i < |ns| :: LastOf(ns, ns[i].id).Some? && Derived(ns[i]) <= Derived(LastOf(ns, ns[i].id).value)
  }

  lemma CoversIff(kv: KV, ns: seq<Download>)
    requires forall i | 0 <= i < |ns| :: Present(kv, ns[i].id) == {}
    ensures LastCovers(kv, ns) <==> LastHasAllKeys(ns)
  {
    if LastCovers(kv, ns) {
      forall i | 0 <= i < |ns|
        ensures LastOf(ns, ns[i].id).Some? && Derived(ns[i]) <= Derived(LastOf(ns, ns[i].id).value)
      {
        LastOfMember(ns, i);
      }
    }
    if LastHasAllKeys(ns) {
      forall i | 0 <= i < |ns|
        ensures LastOf(ns, ns[i].id).Some?
        ensures Present(kv, ns[i].id) + WrittenKeys(ns, ns[i].id) <= Derived(LastOf(ns, ns[i].id).value)
      {
        WrittenAreLast(ns, ns[i].id);
      }
    }
  }

  lemma WrittenAreLast(ns: seq<Download>, id: string)
    requires LastHasAllKeys(ns) && LastOf(ns, id).Some?
    ensures WrittenKeys(ns, id) <= Derived(LastOf(ns, id).value)
  {
    forall k | k in WrittenKeys(ns, id) ensures k in Derived(LastOf(ns, id).value) {
      var j := WrittenByOne(ns, id, k);
      assert ns[j].id == id;
    }
  }

  /** A bulk update that may name an id more than once keeps a consistent store consistent iff no
      repetition has an index key that the last one for its id lacks. */
  lemma BulkUpdateConsistentIff(kv: KV, ds: seq<Download>, clock: Clock)
    requires Consistent(kv) && AllPresent(kv, Ids(ds))
    ensures Consistent(BulkUpdated(kv, ds, clock)) <==> LastHasAllKeys(Restamped(kv, ds, clock))
  {
    var c, ns := Unindexed(kv, Ids(ds)), Restamped(kv, ds, clock);
    UnindexLive(kv, Ids(ds));
    RestampedStorable(kv, ds, clock);
    forall i | 0 <= i < |ns| ensures Present(c, ns[i].id) == {} {
      assert Ids(ds)[i] == ns[i].id && ns[i].id in Ids(ds);
    }
    CoversIff(c, ns);
    PutAllLiveIff(c, ns);
    UpdateLeavesNoneMissing(kv, ds, clock);
  }

  lemma UpdateLeavesNoneMissing(kv: KV, ds: seq<Download>, clock: Clock)
    requires Consistent(kv) && AllPresent(kv, Ids(ds))
    ensures Complete(BulkUpdated(kv, ds, clock))
  {
    var c, ns := Unindexed(kv, Ids(ds)), Restamped(kv, ds, clock);
    var ids := set id | id in Ids(ds);
    UnindexLive(kv, Ids(ds));
    RestampedStorable(kv, ds, clock);
    PutAllComplete(c, ns, ids);
    MissingAre(ids, ns);
    forall id | id in Ids(ds) ensures LastOf(ns, id).Some? {
      var i :| 0 <= i < |ds| && Ids(ds)[i] == id;
      LastOfMember(ns, i);
    }
    assert Missing(ids, ns) == {};
  }
}
