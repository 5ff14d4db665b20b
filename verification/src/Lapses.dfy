/**
 Inputs on which the store does not do what its operations are for; the conditions that they violate are
 those of the theorems named (internal/repository/repository.go:155-309, 488-507, 572-703, 803-826).
 */
module Lapses {
  import opened Text
  import opened Models
  import opened Keys
  import opened Store
  import opened Consistency
  import opened Bulk
  import opened Repeats
  import opened Listing

  /** Creating a stored id again with another status leaves the entry of the old status behind
      (`CreateKeepsConsistency`). */
  lemma CreateOverOtherStatus(kv: KV, id: string, now: Nanos)
    requires Consistent(kv) && HasRecord(kv, id) && RecordOf(kv, id).status == QUEUED
    ensures !Consistent(CreateNext(kv, RecordOf(kv, id).(status := RUNNING), now))
  {
    IdOfRecord(kv, id);
    var d := RecordOf(kv, id);
    CreateKeepsConsistency(kv, d.(status := RUNNING), now);
    OtherStatus(d, Stamp(d.(status := RUNNING), now));
  }

  lemma OtherStatus(a: Download, b: Download)
    requires a.status != "" && b.status != "" && a.status[0] != b.status[0]
    requires a.createdAt.At? && b.createdAt.At?
    ensures !(Derived(a) <= Derived(b))
  {
    var k := KStatus(a.status, a.createdAt.ns, a.id);
    assert k in Derived(a);
    assert k[|P_STATUS| + 1] == a.status[0];
    assert KStatus(b.status, b.createdAt.ns, b.id)[|P_STATUS| + 1] == b.status[0];
    forall other | other in Derived(b) ensures other != k {
      OneKeyPerFamily(b, other);
    }
  }

  /** So does a bulk create that names it (`BulkCreateConsistentIff`). */
  lemma BulkCreateOverOtherStatus(kv: KV, id: string, clock: Clock)
    requires Consistent(kv) && HasRecord(kv, id) && RecordOf(kv, id).status == QUEUED
    ensures !Consistent(FoldCreate(kv, [RecordOf(kv, id).(status := RUNNING)], clock))
  {
    var ds := [RecordOf(kv, id).(status := RUNNING)];
    assert ds[..0] == [];
    CreateOverOtherStatus(kv, id, clock(0));
  }

  /** A bulk update that gives an id one tag and then another leaves the entry of the first behind
      (`BulkUpdateConsistentIff`). */
  lemma BulkUpdateNamesIdTwice(kv: KV, id: string, clock: Clock)
    requires Consistent(kv) && HasRecord(kv, id)
    ensures var d := RecordOf(kv, id);
            var ds := [d.(tags := ["x"]), d.(tags := ["y"])];
            AllPresent(kv, Ids(ds)) && !Consistent(BulkUpdated(kv, ds, clock))
  {
    IdOfRecord(kv, id);
    var d := RecordOf(kv, id);
    var ds := [d.(tags := ["x"]), d.(tags := ["y"])];
    var ns := Restamped(kv, ds, clock);
    assert Ids(ds) == [id, id];
    BulkUpdateConsistentIff(kv, ds, clock);
    assert ns[0].id == id && LastOf(ns, id) == Some(ns[1]);
    OtherTag(ns[0], "x", ns[1], "y");
  }

  lemma OtherTag(a: Download, x: string, b: Download, y: string)
    requires a.tags == [x] && x != "" && ToLower(x) == x && b.tags == [y] && y != "" && ToLower(y) == y
    requires a.createdAt.At? && b.createdAt == a.createdAt && a.id == b.id && x[0] != y[0]
    ensures !(Derived(a) <= Derived(b))
  {
    OneTag(a, x);
    OneTag(b, y);
    assert KTag(x, a.createdAt.ns, a.id)[4] == x[0] && KTag(y, b.createdAt.ns, b.id)[4] == y[0];
  }

  lemma OneTag(d: Download, tag: string)
    requires d.tags == [tag] && tag != "" && ToLower(tag) == tag && d.createdAt.At?
    ensures KTag(tag, d.createdAt.ns, d.id) in Derived(d)
    ensures forall k | k in Derived(d) && P_TAG <= k :: k == KTag(tag, d.createdAt.ns, d.id)
  {
    var t := d.createdAt.ns;
    assert d.tags[..0] == [];
    assert TagKeys(d.tags, t, d.id) == [KTag(tag, t, d.id)];
    assert KCreated(t, d.id)[1] == 'c' && KStatus(d.status, t, d.id)[1] == 's' && KQueue(d.queueID, t, d.id)[1] == 'q';
    assert P_TAG[1] == 't';
  }

  /** Asking for the downloads without a queue finds none of those that are stored (`ScanIsExactIff`). */
  lemma EmptyQueueIsNotFound(kv: KV, id: string)
    requires Consistent(kv) && HasRecord(kv, id) && RecordOf(kv, id).queueID == ""
    ensures var o := Options([], [""], [], "", None, None, ByCreated, false);
            RecordOf(kv, id) in Matching(kv, o) && FullScan(kv, o) == []
  {
    UnanswerableFindsNothing(kv, Options([], [""], [], "", None, None, ByCreated, false));
  }

  /** The store after an id has been created twice, first in a queue whose id goes on with the top byte. */
  function CreatedTwice(d: Download, now: Nanos): KV {
    CreateNext(CreateNext(map[], d.(queueID := d.queueID + [TOP]), now), d, now)
  }

  lemma CreatedTwiceFacts(d: Download, now: Nanos)
    requires ValidId(d.id) && d.queueID != ""
    ensures var n := Stamp(d, now);
            var stale := KQueue(d.queueID + [TOP], n.createdAt.ns, d.id);
            && HasRecord(CreatedTwice(d, now), d.id) && RecordOf(CreatedTwice(d, now), d.id) == n
            && stale in CreatedTwice(d, now) && IdOf(stale) == d.id
  {
    var first, n := Stamp(d.(queueID := d.queueID + [TOP]), now), Stamp(d, now);
    var stale := KQueue(d.queueID + [TOP], n.createdAt.ns, d.id);
    IndexKeyFacts(first);
    IndexKeyFacts(n);
    var once := CreateNext(map[], d.(queueID := d.queueID + [TOP]), now);
    PutFrame(map[], first, IndexKeys(first));
    PutFrame(once, n, IndexKeys(n));
    assert stale in IndexKeys(first);
    assert stale in once;
  }

  lemma AboveTop(q: string, t: Nanos, id: string)
    ensures P_QUEUE + "|" + q <= KQueue(q + [TOP], t, id)
    ensures Less(P_QUEUE + "|" + q + [TOP], KQueue(q + [TOP], t, id))
  {
    var top, rest := P_QUEUE + "|" + q + [TOP], "|" + Tail(t, id);
    assert KQueue(q + [TOP], t, id) == top + rest;
    LessAfterPrefix(top, "", rest);
    assert top + "" == top;
  }

  /** After an id has been created twice, in two queues of which one id is the other with a byte 0xFF at
      its end, the descending list of the queue and the count differ (`CountIsListLength`). */
  lemma StaleEntryAboveTop(d: Download, now: Nanos)
    requires ValidId(d.id) && d.queueID != ""
    ensures var o := Options([], [d.queueID], [], "", None, None, ByCreated, true);
            Counted(CreatedTwice(d, now), o) != |FullScan(CreatedTwice(d, now), o)|
  {
    var o := Options([], [d.queueID], [], "", None, None, ByCreated, true);
    var t := Stamp(d, now).createdAt.ns;
    CreatedTwiceFacts(d, now);
    AboveTop(d.queueID, t, d.id);
    assert Survives(CreatedTwice(d, now), o, KQueue(d.queueID + [TOP], t, d.id));
    assert ScanPrefix(o) == P_QUEUE + "|" + d.queueID;
    DescendingCountIff(CreatedTwice(d, now), o);
  }

  /** Deleting "a" takes the segment rows of "ab" along (`DeleteSegmentsIff`). */
  lemma DeleteTakesOthersSegments(kv: KV, index: nat)
    requires WellFormed(kv) && HasRecord(kv, "a") && SegmentsFormed(kv) && KSegment("ab", index) in kv
    ensures KSegment("ab", index) !in DeleteNext(kv, "a")
  {
    SegmentUnder("a", "ab", index);
  }
}
