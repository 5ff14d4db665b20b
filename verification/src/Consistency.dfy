/**
 What each single-record write does to the index invariant
 (internal/repository/repository.go:81-152, 488-545, 803-826).
 */
module Consistency {
  import opened Text
  import opened Models
  import opened Keys
  import opened Store

  /** The stored downloads, by primary key. */
  function Records(kv: KV): map<string, Download> { map k | k in kv && kv[k].Record? :: kv[k].d }

  /** The index keys present for one id. */
  ghost function Present(kv: KV, id: string): set<string> {
    set k | k in kv && IsIndexKey(k) && IdOf(k) == id
  }

  lemma ClearKeepsLive(kv: KV, ks: set<string>)
    requires Live(kv) && forall k | k in ks :: IsIndexKey(k) && !IsPrimaryKey(k)
    ensures Live(kv - ks) && Records(kv - ks) == Records(kv)
  {
    var c := kv - ks;
    assert forall id :: HasRecord(kv, id) ==> HasRecord(c, id) && RecordOf(c, id) == RecordOf(kv, id);
  }

  lemma ClearRecord(kv: KV, id: string, ids: set<string>)
    requires Live(kv) && HasRecord(kv, id)
    ensures var c := kv - Derived(RecordOf(kv, id));
            && Live(c) && Records(c) == Records(kv) && Present(c, id) == {}
            && (CompleteBut(kv, ids) ==> CompleteBut(c, ids + {id}))
  {
    var d := RecordOf(kv, id);
    var c := kv - Derived(d);
    IdOfRecord(kv, id);
    IndexKeyFacts(d);
    ClearKeepsLive(kv, Derived(d));
    forall k | k in c && IsIndexKey(k) ensures IdOf(k) != id {
      assert k in Expected(kv, IdOf(k));
    }
    if CompleteBut(kv, ids) {
      ClearComplete(kv, Derived(d), id, ids);
    }
  }

  lemma ClearComplete(kv: KV, ks: set<string>, id: string, ids: set<string>)
    requires WellFormed(kv) && CompleteBut(kv, ids)
    requires forall k | k in ks :: IdOf(k) == id && !IsPrimaryKey(k)
    ensures CompleteBut(kv - ks, ids + {id})
  {
    var c := kv - ks;
    forall k | k in c && c[k].Record? && c[k].d.id !in ids + {id} ensures Derived(c[k].d) <= c.Keys {
      IndexKeyFacts(c[k].d);
      assert Derived(kv[k].d) <= kv.Keys;
    }
  }

  /** Only the written record changes. */
  lemma PutFrame(kv: KV, d: Download, ks: seq<string>)
    requires WellFormed(kv) && ValidId(d.id) && d.createdAt.At?
    requires forall k | k in ks :: !IsPrimaryKey(k)
    ensures var p := PutSome(kv, d, ks);
            && WellFormed(p)
            && Records(p) == Records(kv)[KDownload(d.id) := d]
            && HasRecord(p, d.id) && RecordOf(p, d.id) == d
            && forall id | id != d.id :: HasRecord(p, id) == HasRecord(kv, id)
                                      && (HasRecord(kv, id) ==> RecordOf(p, id) == RecordOf(kv, id))
  {
    var p := PutSome(kv, d, ks);
    var key := KDownload(d.id);
    assert key !in ks;
    assert p[key] == Record(d);
    forall id | id != d.id
      ensures HasRecord(p, id) == HasRecord(kv, id) && (HasRecord(kv, id) ==> RecordOf(p, id) == RecordOf(kv, id))
    {
      KDownloadInjective(id, d.id);
      assert KDownload(id) !in ks;
    }
  }

  /** Storing a record next to index entries that it derives leaves no stale entry. */
  lemma PutSomeLive(kv: KV, d: Download, ks: seq<string>)
    requires Live(kv) && ValidId(d.id) && d.createdAt.At? && Present(kv, d.id) <= Derived(d)
    requires forall k | k in ks :: k in Derived(d)
    ensures Live(PutSome(kv, d, ks))
    ensures forall id | id != d.id :: Present(PutSome(kv, d, ks), id) == Present(kv, id)
  {
    var p := PutSome(kv, d, ks);
    IndexKeyFacts(d);
    PutFrame(kv, d, ks);
    forall k | k in p && IsIndexKey(k)
      ensures k in Expected(p, IdOf(k)) && p[k] == Mark && (k in kv || IdOf(k) == d.id)
    {
      if k !in ks {
        RowsApart(k);
        assert k in Present(kv, IdOf(k));
      }
    }
  }

  /** Writing a record with its index entries leaves no stale entry iff every entry that the id
      already had is one that the new record derives. */
  lemma PutLive(kv: KV, d: Download)
    requires Live(kv) && ValidId(d.id) && d.createdAt.At?
    ensures Live(Put(kv, d)) <==> Present(kv, d.id) <= Derived(d)
  {
    var p := Put(kv, d);
    IndexKeyFacts(d);
    PutFrame(kv, d, IndexKeys(d));
    if Live(p) {
      forall k | k in Present(kv, d.id) ensures k in Derived(d) {
        assert k in p && k in Expected(p, IdOf(k));
      }
    }
    if Present(kv, d.id) <= Derived(d) {
      PutSomeLive(kv, d, IndexKeys(d));
    }
  }

  lemma PutComplete(kv: KV, d: Download, ids: set<string>)
    requires WellFormed(kv) && ValidId(d.id) && d.createdAt.At? && CompleteBut(kv, ids)
    ensures CompleteBut(Put(kv, d), ids - {d.id})
  {
    IndexKeyFacts(d);
    var p := Put(kv, d);
    forall k | k in p && p[k].Record? && p[k].d.id !in ids - {d.id} ensures Derived(p[k].d) <= p.Keys {
      if k != KDownload(d.id) {
        assert kv[k].d == p[k].d && kv[k].d.id != d.id;
      }
    }
  }

  /** `CreateDownload` does not look for an existing record. On a consistent store the result is
      consistent iff the id is new, or at least the old record has no index entry that the new one lacks. */
  lemma CreateKeepsConsistency(kv: KV, d: Download, now: Nanos)
    requires Consistent(kv) && ValidId(d.id)
    ensures Consistent(CreateNext(kv, d, now)) <==>
            !HasRecord(kv, d.id) || Derived(RecordOf(kv, d.id)) <= Derived(Stamp(d, now))
    ensures Records(CreateNext(kv, d, now)) == Records(kv)[KDownload(d.id) := Stamp(d, now)]
  {
    PutLive(kv, Stamp(d, now));
    IndexKeyFacts(Stamp(d, now));
    PutFrame(kv, Stamp(d, now), IndexKeys(Stamp(d, now)));
    PutComplete(kv, Stamp(d, now), {});
    PresentIsExpected(kv, d.id);
  }

  /** Creating a new id keeps even an incomplete store free of stale entries. */
  lemma CreateKeeps(kv: KV, d: Download, now: Nanos)
    requires Live(kv) && ValidId(d.id) && !HasRecord(kv, d.id)
    ensures Live(CreateNext(kv, d, now)) && (Complete(kv) ==> Complete(CreateNext(kv, d, now)))
    ensures forall id | id != d.id :: HasRecord(CreateNext(kv, d, now), id) == HasRecord(kv, id)
  {
    var n := Stamp(d, now);
    assert Expected(kv, d.id) == {};
    PutLive(kv, n);
    IndexKeyFacts(n);
    PutFrame(kv, n, IndexKeys(n));
    if Complete(kv) { PutComplete(kv, n, {}); }
  }

  /** On a consistent store the index keys of an id are the ones its record derives. */
  lemma PresentIsExpected(kv: KV, id: string)
    requires Consistent(kv)
    ensures Present(kv, id) == Expected(kv, id)
  {
    if HasRecord(kv, id) {
      IndexKeyFacts(RecordOf(kv, id));
      IdOfRecord(kv, id);
      forall k | k in Expected(kv, id) ensures k in Present(kv, id) {
        assert Derived(RecordOf(kv, id)) <= kv.Keys;
      }
    }
  }

  lemma IdOfRecord(kv: KV, id: string)
    requires WellFormed(kv) && HasRecord(kv, id)
    ensures RecordOf(kv, id).id == id && ValidId(id) && RecordOf(kv, id).createdAt.At?
  {
    KDownloadInjective(RecordOf(kv, id).id, id);
  }

  /** An update keeps the store free of stale entries, and completes the record it writes. */
  lemma UpdateKeeps(kv: KV, d: Download, now: Nanos, ids: set<string>)
    requires Live(kv) && HasRecord(kv, d.id)
    ensures var next := UpdateNext(kv, d, now);
            && Live(next)
            && Records(next) == Records(kv)[KDownload(d.id) := Restamp(kv, d, now)]
            && (CompleteBut(kv, ids) ==> CompleteBut(next, ids - {d.id}))
  {
    var prev := RecordOf(kv, d.id);
    IdOfRecord(kv, d.id);
    ClearRecord(kv, d.id, ids);
    var c := kv - Derived(prev);
    var n := Restamp(kv, d, now);
    PutLive(c, n);
    IndexKeyFacts(n);
    PutFrame(c, n, IndexKeys(n));
    if CompleteBut(kv, ids) {
      PutComplete(c, n, ids + {d.id});
      assert ids + {d.id} - {d.id} == ids - {d.id};
    }
  }

  lemma UpdateKeepsAll(kv: KV, d: Download, now: Nanos)
    requires Live(kv)
    ensures Live(UpdateNext(kv, d, now)) && (Complete(kv) ==> Complete(UpdateNext(kv, d, now)))
  {
    if HasRecord(kv, d.id) {
      UpdateKeeps(kv, d, now, {});
      assert {} - {d.id} == {};
    }
  }

  /** An update changes no other record. */
  lemma UpdateFrame(kv: KV, d: Download, now: Nanos, id: string)
    requires Live(kv) && id != d.id
    ensures Live(UpdateNext(kv, d, now))
    ensures HasRecord(UpdateNext(kv, d, now), id) == HasRecord(kv, id)
    ensures HasRecord(kv, id) ==> RecordOf(UpdateNext(kv, d, now), id) == RecordOf(kv, id)
  {
    if HasRecord(kv, d.id) {
      UpdateKeeps(kv, d, now, {});
      KDownloadInjective(id, d.id);
      var r, s := Records(UpdateNext(kv, d, now)), Records(kv);
      assert KDownload(id) in r <==> KDownload(id) in s;
      assert KDownload(id) in s ==> r[KDownload(id)] == s[KDownload(id)];
    }
  }

  /** A delete removes the record with every index entry of it, and nothing that another record needs. */
  lemma DeleteKeeps(kv: KV, id: string, ids: set<string>)
    requires Live(kv) && HasRecord(kv, id)
    ensures var next := DeleteNext(kv, id);
            && Live(next)
            && Records(next) == Records(kv) - {KDownload(id)}
            && (CompleteBut(kv, ids) ==> CompleteBut(next, ids))
  {
    ClearRecord(kv, id, ids);
    var ks := Derived(RecordOf(kv, id));
    DropRecord(kv - ks, id, ids);
    DropTwice(kv, KDownload(id), ks);
  }

  lemma DropTwice(kv: KV, key: string, ks: set<string>)
    ensures kv - {key} - ks == kv - ks - {key}
  {
  }

  /** Removing an unindexed record and the segment rows under its prefix. */
  lemma DropRecord(kv: KV, id: string, ids: set<string>)
    requires Live(kv) && Present(kv, id) == {}
    ensures var next := WithoutPrefix(kv - {KDownload(id)}, SegmentPrefix(id));
            && Live(next)
            && Records(next) == Records(kv) - {KDownload(id)}
            && (CompleteBut(kv, ids + {id}) ==> CompleteBut(next, ids))
  {
    var next := WithoutPrefix(kv - {KDownload(id)}, SegmentPrefix(id));
    forall k | k in kv && (IsIndexKey(k) || IsPrimaryKey(k)) && k != KDownload(id)
      ensures k in next
    {
      RowsApart(k);
      assert P_SEGMENT <= SegmentPrefix(id);
    }
    forall k | k in next && IsIndexKey(k) ensures k in Expected(next, IdOf(k)) && next[k] == Mark {
      assert k in Expected(kv, IdOf(k));
      assert k in Present(kv, IdOf(k));
      KDownloadInjective(IdOf(k), id);
    }
    if CompleteBut(kv, ids + {id}) {
      forall k | k in next && next[k].Record? && next[k].d.id !in ids ensures Derived(next[k].d) <= next.Keys {
        IndexKeyFacts(next[k].d);
        assert Derived(kv[k].d) <= kv.Keys;
        forall x | x in Derived(next[k].d) ensures x in next.Keys { RowsApart(x); }
      }
    }
  }

  // ---- Segment rows ----

  /** Segment rows are what is stored under segment keys, each under the key of its download and index. */
  ghost predicate SegmentsFormed(kv: KV) {
    forall k | k in kv && P_SEGMENT <= k :: kv[k].SegmentRow? && k == KSegment(kv[k].s.downloadID, kv[k].s.index)
  }

  /** The keys of the segment rows of one download. */
  ghost function SegmentsOf(kv: KV, id: string): set<string> {
    set k | k in kv && P_SEGMENT <= k && kv[k].SegmentRow? && kv[k].s.downloadID == id
  }

  lemma SegmentUnder(id: string, download: string, index: nat)
    requires '|' !in id
    ensures SegmentPrefix(id) <= KSegment(download, index) <==> id <= download
  {
    var head, rest := P_SEGMENT + "|", download + "|" + Padded(index, INDEX_WIDTH);
    assert KSegment(download, index) == head + rest && SegmentPrefix(id) == head + id;
    assert (head + rest)[|head|..] == rest && rest[|download|] == '|';
    assert |id| > |download| ==> id[|download|] != '|';
    if id <= download {
      assert (head + rest)[..|head| + |id|] == head + id;
    }
    if SegmentPrefix(id) <= KSegment(download, index) {
      assert rest[..|id|] == (head + rest)[|head|..|head| + |id|] == (head + id)[|head|..] == id;
    }
  }

  /** What a delete does to a segment row: it goes iff its download's id begins with the deleted one. */
  lemma DeletedSegment(kv: KV, id: string, k: string)
    requires WellFormed(kv) && HasRecord(kv, id) && SegmentsFormed(kv) && k in kv && P_SEGMENT <= k
    ensures k in DeleteNext(kv, id) <==> !(id <= kv[k].s.downloadID)
  {
    IdOfRecord(kv, id);
    IndexKeyFacts(RecordOf(kv, id));
    RowsApart(k);
    assert k != KDownload(id) && k !in Derived(RecordOf(kv, id)) by {
      assert IsPrimaryKey(KDownload(id));
    }
    SegmentUnder(id, kv[k].s.downloadID, kv[k].s.index);
  }

  /** A delete removes all segment rows of its download; it removes no other download's iff there is none
      with segment rows whose id begins with the deleted one. */
  lemma DeleteSegmentsIff(kv: KV, id: string)
    requires WellFormed(kv) && HasRecord(kv, id) && SegmentsFormed(kv)
    ensures SegmentsOf(DeleteNext(kv, id), id) == {}
    ensures (forall other | other != id :: SegmentsOf(DeleteNext(kv, id), other) == SegmentsOf(kv, other)) <==>
            !exists k :: k in kv && P_SEGMENT <= k && kv[k].s.downloadID != id && id <= kv[k].s.downloadID
  {
    var next := DeleteNext(kv, id);
    forall k | k in kv && P_SEGMENT <= k
      ensures (k in next <==> !(id <= kv[k].s.downloadID)) && (k in next ==> next[k] == kv[k])
    {
      DeletedSegment(kv, id, k);
    }
    assert forall k | k in next :: k in kv && next[k] == kv[k];
    if k :| k in kv && P_SEGMENT <= k && kv[k].s.downloadID != id && id <= kv[k].s.downloadID {
      var other := kv[k].s.downloadID;
      assert k in SegmentsOf(kv, other) && k !in SegmentsOf(next, other);
    }
  }

  // ---- What is stored ----

  /** A create stores what it was given, updated now, and created now unless a time was given. */
  lemma CreatedRecord(kv: KV, d: Download, now: Nanos)
    requires WellFormed(kv) && ValidId(d.id)
    ensures HasRecord(CreateNext(kv, d, now), d.id)
    ensures var n := RecordOf(CreateNext(kv, d, now), d.id);
            && n.updatedAt == At(now) && n.createdAt == (if d.createdAt.At? then d.createdAt else At(now))
            && n == d.(createdAt := n.createdAt, updatedAt := n.updatedAt)
  {
    IndexKeyFacts(Stamp(d, now));
    PutFrame(kv, Stamp(d, now), IndexKeys(Stamp(d, now)));
  }

  /** An update stores what it was given, updated now, and keeps the time of creation unless one was given. */
  lemma UpdatedRecordIs(kv: KV, d: Download, now: Nanos)
    requires Live(kv) && HasRecord(kv, d.id)
    ensures HasRecord(UpdateNext(kv, d, now), d.id)
    ensures var n := RecordOf(UpdateNext(kv, d, now), d.id);
            && n.updatedAt == At(now)
            && n.createdAt == (if d.createdAt.At? then d.createdAt else RecordOf(kv, d.id).createdAt)
            && n == d.(createdAt := n.createdAt, updatedAt := n.updatedAt)
  {
    UpdateKeeps(kv, d, now, {});
    assert KDownload(d.id) in Records(UpdateNext(kv, d, now));
  }

  /** Rows other than records and their index entries are as they were. */
  ghost predicate OtherRowsKept(kv: KV, next: KV) {
    forall k | !IsPrimaryKey(k) && !IsIndexKey(k) :: (k in next <==> k in kv) && (k in kv ==> next[k] == kv[k])
  }

  /** So are the rows that are not of segments either. */
  ghost predicate QueueRowsKept(kv: KV, next: KV) {
    forall k | !IsPrimaryKey(k) && !IsIndexKey(k) && !(P_SEGMENT <= k) :: (k in next <==> k in kv) && (k in kv ==> next[k] == kv[k])
  }

  lemma PutKeepsOtherRows(kv: KV, d: Download)
    requires ValidId(d.id)
    ensures OtherRowsKept(kv, Put(kv, d))
  {
    IndexKeyFacts(d);
    assert IsPrimaryKey(KDownload(d.id));
  }

  lemma UpdateKeepsOtherRows(kv: KV, d: Download, now: Nanos)
    requires WellFormed(kv)
    ensures OtherRowsKept(kv, UpdateNext(kv, d, now))
  {
    if HasRecord(kv, d.id) {
      IdOfRecord(kv, d.id);
      IndexKeyFacts(RecordOf(kv, d.id));
      PutKeepsOtherRows(kv - Derived(RecordOf(kv, d.id)), Restamp(kv, d, now));
    }
  }

  lemma DeleteKeepsQueueRows(kv: KV, id: string)
    requires WellFormed(kv)
    ensures QueueRowsKept(kv, DeleteNext(kv, id))
  {
    if HasRecord(kv, id) {
      IdOfRecord(kv, id);
      IndexKeyFacts(RecordOf(kv, id));
      assert IsPrimaryKey(KDownload(id));
      assert P_SEGMENT <= SegmentPrefix(id);
    }
  }
}
