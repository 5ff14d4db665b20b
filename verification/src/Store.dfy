/**
 The contents of the store: one ordered map from keys to values, what each write makes of it,
 and the invariant that ties the secondary indexes to the primary records.
 */
module Store {
  import opened Text
  import opened Models
  import opened Keys

  /** Stored values; JSON encoding is taken as the identity, and index entries have no value. */
  datatype Value =
    | Record(d: Download)
    | Mark
    | SegmentRow(s: Segment)
    | QueueRow(q: Queue)
    | StatsRow(stats: QueueStats)

  type KV = map<string, Value>

  // ---- Index entries of one download ----

  function TagKeys(tags: seq<string>, t: Nanos, id: string): seq<string> {
    if tags == [] then []
    else
      var n := |tags| - 1;
      TagKeys(tags[..n], t, id) + (if tags[n] == "" then [] else [KTag(ToLower(tags[n]), t, id)])
  }

  function FieldKeys(d: Download, t: Nanos): seq<string> {
    [KCreated(t, d.id)]
    + (if d.status == "" then [] else [KStatus(d.status, t, d.id)])
    + (if d.queueID == "" then [] else [KQueue(d.queueID, t, d.id)])
  }

  /** The index keys of a download, in the order in which they are written. */
  function IndexKeys(d: Download): seq<string> {
    if d.createdAt.Zero? then []
    else FieldKeys(d, d.createdAt.ns) + TagKeys(d.tags, d.createdAt.ns, d.id)
  }

  function Derived(d: Download): set<string> { set k | k in IndexKeys(d) }

  lemma {:induction false} TagKeysShape(tags: seq<string>, t: Nanos, id: string)
    ensures forall k | k in TagKeys(tags, t, id) ::
              exists i | 0 <= i < |tags| :: tags[i] != "" && k == KTag(ToLower(tags[i]), t, id)
    ensures forall i | 0 <= i < |tags| && tags[i] != "" :: KTag(ToLower(tags[i]), t, id) in TagKeys(tags, t, id)
  {
    if tags != [] {
      var n := |tags| - 1;
      TagKeysShape(tags[..n], t, id);
      assert forall i | 0 <= i < n :: tags[..n][i] == tags[i];
    }
  }

  /** Every index key of a download is in an index family and leads back to its id. */
  lemma IndexKeyFacts(d: Download)
    requires ValidId(d.id)
    ensures forall k | k in IndexKeys(d) ::
              IsIndexKey(k) && !IsPrimaryKey(k) && IdOf(k) == d.id
  {
    if d.createdAt.At? {
      var t := d.createdAt.ns;
      TagKeysShape(d.tags, t, d.id);
      forall k | k in IndexKeys(d)
        ensures IsIndexKey(k) && !IsPrimaryKey(k) && IdOf(k) == d.id
      {
        IndexKeyShape(d, k);
        var anchor :| k == anchor + Tail(t, d.id) &&
                      (P_CREATED <= anchor || P_STATUS <= anchor || P_QUEUE <= anchor || P_TAG <= anchor);
        IdIsRecovered(anchor, t, d.id);
        assert anchor <= k;
        RowsApart(k);
      }
    }
  }

  /** Every index key is the tail of its download behind an anchor of one of the four families. */
  lemma IndexKeyShape(d: Download, k: string)
    requires d.createdAt.At? && k in IndexKeys(d)
    ensures exists anchor :: k == anchor + Tail(d.createdAt.ns, d.id) &&
              (P_CREATED <= anchor || P_STATUS <= anchor || P_QUEUE <= anchor || P_TAG <= anchor)
  {
    var t := d.createdAt.ns;
    TagKeysShape(d.tags, t, d.id);
    if k == KCreated(t, d.id) {
      assert k == (P_CREATED + "|") + Tail(t, d.id);
    } else if k == KStatus(d.status, t, d.id) {
      assert k == (P_STATUS + "|" + d.status + "|") + Tail(t, d.id);
    } else if k == KQueue(d.queueID, t, d.id) {
      assert k == (P_QUEUE + "|" + d.queueID + "|") + Tail(t, d.id);
    } else {
      var i :| 0 <= i < |d.tags| && d.tags[i] != "" && k == KTag(ToLower(d.tags[i]), t, d.id);
      assert k == (P_TAG + "|" + ToLower(d.tags[i]) + "|") + Tail(t, d.id);
    }
  }

  // ---- Writes ----

  function Marked(kv: KV, ks: seq<string>): KV { kv + map k | k in ks :: Mark }

  function WithoutPrefix(kv: KV, p: string): KV { map k | k in kv && !(p <= k) :: kv[k] }

  /** A record together with some index entries. */
  function PutSome(kv: KV, d: Download, ks: seq<string>): KV {
    Marked(kv[KDownload(d.id) := Record(d)], ks)
  }

  /** A record together with all its index entries. */
  function Put(kv: KV, d: Download): KV { PutSome(kv, d, IndexKeys(d)) }

  function Stamp(d: Download, now: Nanos): Download {
    d.(createdAt := if d.createdAt.Zero? then At(now) else d.createdAt, updatedAt := At(now))
  }

  predicate HasRecord(kv: KV, id: string) {
    KDownload(id) in kv && kv[KDownload(id)].Record?
  }

  function RecordOf(kv: KV, id: string): Download
    requires HasRecord(kv, id)
  {
    kv[KDownload(id)].d
  }

  /** The record that an update stores: a zero creation time keeps the stored one. */
  function Restamp(kv: KV, d: Download, now: Nanos): Download {
    d.(createdAt := if d.createdAt.Zero? && HasRecord(kv, d.id) then RecordOf(kv, d.id).createdAt else d.createdAt,
       updatedAt := At(now))
  }

  function CreateNext(kv: KV, d: Download, now: Nanos): KV { Put(kv, Stamp(d, now)) }

  /** An update of a missing record fails and changes nothing. */
  function UpdateNext(kv: KV, d: Download, now: Nanos): KV {
    if !HasRecord(kv, d.id) then kv
    else Put(kv - Derived(RecordOf(kv, d.id)), Restamp(kv, d, now))
  }

  /** Prefix of a download's segment rows; there is no bar after the id. */
  function SegmentPrefix(id: string): string { P_SEGMENT + "|" + id }

  /** A delete of a missing record fails and changes nothing. */
  function DeleteNext(kv: KV, id: string): KV {
    if !HasRecord(kv, id) then kv
    else WithoutPrefix(kv - {KDownload(id)} - Derived(RecordOf(kv, id)), SegmentPrefix(id))
  }

  // ---- Batches ----

  datatype Entry = Set(key: string, value: Value) | Del(key: string)

  function Apply(kv: KV, e: Entry): KV {
    match e
    case Set(k, v) => kv[k := v]
    case Del(k) => kv - {k}
  }

  /** The entries of a write batch, applied in order. */
  function ApplyAll(kv: KV, es: seq<Entry>): KV {
    if es == [] then kv
    else Apply(ApplyAll(kv, es[..|es| - 1]), es[|es| - 1])
  }

  function MarkEntries(ks: seq<string>): (es: seq<Entry>)
    ensures |es| == |ks|
  {
    seq(|ks|, i requires 0 <= i < |ks| => Set(ks[i], Mark))
  }

  /** The batch entries that write one record: the record first, then its index keys. */
  function PutEntries(d: Download): seq<Entry> {
    [Set(KDownload(d.id), Record(d))] + MarkEntries(IndexKeys(d))
  }

  lemma {:induction false} ApplyAllAppend(kv: KV, es: seq<Entry>, fs: seq<Entry>)
    ensures ApplyAll(kv, es + fs) == ApplyAll(ApplyAll(kv, es), fs)
  {
    if fs == [] {
      assert es + fs == es;
    } else {
      var n := |fs| - 1;
      assert (es + fs)[..|es| + n] == es + fs[..n];
      ApplyAllAppend(kv, es, fs[..n]);
    }
  }

  lemma {:induction false} ApplyMarks(kv: KV, ks: seq<string>)
    ensures ApplyAll(kv, MarkEntries(ks)) == Marked(kv, ks)
  {
    if ks != [] {
      var n := |ks| - 1;
      assert MarkEntries(ks)[..n] == MarkEntries(ks[..n]);
      ApplyMarks(kv, ks[..n]);
      MarkedAppend(kv, ks[..n], ks[n]);
      assert ks == ks[..n] + [ks[n]];
    }
  }

  lemma MarkedAppend(kv: KV, ks: seq<string>, k: string)
    ensures Marked(kv, ks + [k]) == Marked(kv, ks)[k := Mark]
  {
  }

  /** After any number of its entries, a record's write has stored the record and its first index keys. */
  lemma ApplyPutEntries(kv: KV, d: Download, j: nat)
    requires j <= |PutEntries(d)|
    ensures ApplyAll(kv, PutEntries(d)[..j]) == if j == 0 then kv else PutSome(kv, d, IndexKeys(d)[..j - 1])
  {
    if j > 0 {
      var first := [Set(KDownload(d.id), Record(d))];
      var ks := IndexKeys(d)[..j - 1];
      assert PutEntries(d)[..j] == first + MarkEntries(ks);
      ApplyAllAppend(kv, first, MarkEntries(ks));
      assert first[..0] == [];
      assert ApplyAll(kv, first) == kv[KDownload(d.id) := Record(d)];
      ApplyMarks(kv[KDownload(d.id) := Record(d)], ks);
    }
  }

  lemma ApplyAllPutEntries(kv: KV, d: Download)
    ensures ApplyAll(kv, PutEntries(d)) == Put(kv, d)
  {
    var n := |PutEntries(d)|;
    ApplyPutEntries(kv, d, n);
    assert PutEntries(d)[..n] == PutEntries(d) && IndexKeys(d)[..n - 1] == IndexKeys(d);
  }

  // ---- Invariants ----

  /** Downloads are what is stored under primary keys, each under the key of its own id. */
  ghost predicate WellFormed(kv: KV) {
    && (forall k | k in kv && IsPrimaryKey(k) :: kv[k].Record?)
    && (forall k | k in kv && kv[k].Record? ::
          k == KDownload(kv[k].d.id) && ValidId(kv[k].d.id) && kv[k].d.createdAt.At?)
  }

  /** The index keys that should be there for one id. */
  ghost function Expected(kv: KV, id: string): set<string> {
    if HasRecord(kv, id) then Derived(RecordOf(kv, id)) else {}
  }

  /** No stale entry: each index key is derived from the record that is stored now. */
  ghost predicate Live(kv: KV) {
    WellFormed(kv) && forall k | k in kv && IsIndexKey(k) :: k in Expected(kv, IdOf(k)) && kv[k] == Mark
  }

  /** No missing entry for any record outside `ids`. */
  ghost predicate CompleteBut(kv: KV, ids: set<string>) {
    forall k | k in kv && kv[k].Record? && kv[k].d.id !in ids :: Derived(kv[k].d) <= kv.Keys
  }

  ghost predicate Complete(kv: KV) { CompleteBut(kv, {}) }

  ghost predicate Consistent(kv: KV) { Live(kv) && Complete(kv) }

  ghost function IndexKeysIn(kv: KV): set<string> { set k | k in kv && IsIndexKey(k) }

  ghost function DerivedFromAll(kv: KV): set<string> {
    set r, k | r in kv && kv[r].Record? && k in IndexKeys(kv[r].d) :: k
  }

  /** `Consistent` says that the index keys are exactly the union of the derived keys. */
  lemma ConsistentIsExact(kv: KV)
    requires WellFormed(kv)
    ensures Consistent(kv) <==> IndexKeysIn(kv) == DerivedFromAll(kv) && forall k | k in IndexKeysIn(kv) :: kv[k] == Mark
  {
    forall r | r in kv && kv[r].Record?
      ensures forall k | k in IndexKeys(kv[r].d) :: IsIndexKey(k) && Expected(kv, IdOf(k)) == Derived(kv[r].d)
    {
      IndexKeyFacts(kv[r].d);
    }
    if Consistent(kv) {
      forall k | k in DerivedFromAll(kv) ensures k in IndexKeysIn(kv) {
        var r :| r in kv && kv[r].Record? && k in IndexKeys(kv[r].d);
        assert k in Derived(kv[r].d);
      }
      forall k | k in IndexKeysIn(kv) ensures k in DerivedFromAll(kv) {
        var r := KDownload(IdOf(k));
        assert r in kv && kv[r].Record? && k in IndexKeys(kv[r].d);
      }
    }
    if IndexKeysIn(kv) == DerivedFromAll(kv) && forall k | k in IndexKeysIn(kv) :: kv[k] == Mark {
      forall k | k in kv && IsIndexKey(k) ensures k in Expected(kv, IdOf(k)) && kv[k] == Mark {
        assert k in IndexKeysIn(kv);
        assert k in DerivedFromAll(kv);
      }
      forall r | r in kv && kv[r].Record? ensures Derived(kv[r].d) <= kv.Keys {
        forall k | k in Derived(kv[r].d) ensures k in kv.Keys {
          assert k in IndexKeysIn(kv);
        }
      }
    }
  }
}
