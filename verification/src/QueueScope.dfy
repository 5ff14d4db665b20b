/**
 Bulk operations on the downloads of one queue (internal/repository/repository.go:970-1136).
 */
module QueueScope {
  import opened Text
  import opened Models
  import opened Keys
  import opened Store
  import opened Consistency
  import opened Listing
  import opened Bulk

  /** The changes that the queue-scoped updates make. */
  datatype Change = Reassign(to: string) | SetPriority(priority: int) | SetStatus(status: string)

  function Changed(c: Change, d: Download): Download {
    match c
    case Reassign(to) => d.(queueID := to)
    case SetPriority(p) => d.(priority := p)
    case SetStatus(s) => d.(status := s)
  }

  function QueuePrefix(queue: string): string { P_QUEUE + "|" + queue }

  /** The ids read off the queue index; nothing is filtered. */
  function ScannedIds(kv: KV, queue: string): (r: seq<string>)
    ensures |r| == |ScanKeys(kv, QueuePrefix(queue), false)|
    ensures forall i | 0 <= i < |r| :: r[i] == IdOf(ScanKeys(kv, QueuePrefix(queue), false)[i])
  {
    var keys := ScanKeys(kv, QueuePrefix(queue), false);
    seq(|keys|, i requires 0 <= i < |keys| => IdOf(keys[i]))
  }

  /** The changed copies of the records found. */
  function ChangedRecords(kv: KV, ids: seq<string>, c: Change): (r: seq<Download>)
    requires AllPresent(kv, ids)
    ensures |r| == |ids| && forall i | 0 <= i < |ids| :: r[i] == Changed(c, RecordOf(kv, ids[i]))
  {
    seq(|ids|, i requires 0 <= i < |ids| => Changed(c, RecordOf(kv, ids[i])))
  }

  ghost function InQueue(kv: KV, queue: string): set<string> {
    set k | k in kv && kv[k].Record? && kv[k].d.queueID == queue
  }

  /** The records whose queue entry lies under the scan's prefix. */
  ghost function Selected(kv: KV, queue: string): set<string>
    requires WellFormed(kv)
  {
    set k | k in kv && kv[k].Record? && kv[k].d.queueID != "" &&
            queue <= kv[k].d.queueID + "|" + Tail(kv[k].d.createdAt.ns, kv[k].d.id)
  }

  lemma PrefixOfQueueKey(queue: string, q: string, tail: string)
    ensures QueuePrefix(queue) <= P_QUEUE + "|" + q + "|" + tail <==> queue <= q + "|" + tail
  {
    var head, rest := P_QUEUE + "|", q + "|" + tail;
    assert P_QUEUE + "|" + q + "|" + tail == head + rest;
    assert QueuePrefix(queue) == head + queue;
    assert (head + rest)[|head|..] == rest;
    if queue <= rest {
      assert (head + rest)[..|head| + |queue|] == head + rest[..|queue|];
    }
    if head + queue <= head + rest {
      assert rest[..|queue|] == (head + rest)[|head|..|head| + |queue|] == (head + queue)[|head|..];
    }
  }

  function QueueEntry(d: Download): string
    requires d.createdAt.At?
  {
    KQueue(d.queueID, d.createdAt.ns, d.id)
  }

  /** Those of them whose entry is there, as it is for all of them unless a bulk write was cut off. */
  ghost function Scanned(kv: KV, queue: string): set<string>
    requires WellFormed(kv)
  {
    set k | k in Selected(kv, queue) && QueueEntry(kv[k].d) in kv
  }

  lemma CompleteScansAll(kv: KV, queue: string)
    requires WellFormed(kv) && Complete(kv)
    ensures Scanned(kv, queue) == Selected(kv, queue)
  {
    forall k | k in Selected(kv, queue) ensures QueueEntry(kv[k].d) in kv {
      assert QueueEntry(kv[k].d) in Derived(kv[k].d);
    }
  }

  /** Without stale entries the scan visits each record whose entry is there exactly once, and no other. */
  lemma ScanSelects(kv: KV, queue: string)
    requires Live(kv)
    ensures var ids := ScannedIds(kv, queue);
            && AllPresent(kv, ids)
            && (forall i, j | 0 <= i < j < |ids| :: ids[i] != ids[j])
            && PrimaryKeys(ids) == Scanned(kv, queue)
  {
    var keys := ScanKeys(kv, QueuePrefix(queue), false);
    var ids := ScannedIds(kv, queue);
    forall i | 0 <= i < |keys| ensures HasRecord(kv, ids[i]) && KDownload(ids[i]) in Scanned(kv, queue) {
      VisitedKey(kv, queue, keys[i]);
    }
    forall i, j | 0 <= i < j < |keys| ensures ids[i] != ids[j] {
      VisitedKey(kv, queue, keys[i]);
      VisitedKey(kv, queue, keys[j]);
      LessTotal(keys[i], keys[j]);
    }
    forall k | k in Scanned(kv, queue) ensures k in PrimaryKeys(ids) {
      ScanReaches(kv, queue, kv[k].d.id);
    }
  }

  lemma ScanReaches(kv: KV, queue: string, id: string)
    requires Live(kv) && KDownload(id) in Scanned(kv, queue)
    ensures id in ScannedIds(kv, queue)
  {
    var keys := ScanKeys(kv, QueuePrefix(queue), false);
    var k := ScannedIsVisited(kv, queue, id);
    assert k in keys;
    var i :| 0 <= i < |keys| && keys[i] == k;
    assert ScannedIds(kv, queue)[i] == id;
  }

  lemma VisitedKey(kv: KV, queue: string, k: string)
    requires Live(kv) && k in kv && QueuePrefix(queue) <= k
    ensures HasRecord(kv, IdOf(k)) && RecordOf(kv, IdOf(k)).queueID != "" && RecordOf(kv, IdOf(k)).id == IdOf(k)
    ensures RecordOf(kv, IdOf(k)).createdAt.At? && k == QueueEntry(RecordOf(kv, IdOf(k)))
    ensures KDownload(IdOf(k)) in Scanned(kv, queue)
  {
    assert P_QUEUE <= QueuePrefix(queue);
    assert k in Expected(kv, IdOf(k));
    IdOfRecord(kv, IdOf(k));
    var d := RecordOf(kv, IdOf(k));
    OneKeyPerFamily(d, k);
    PrefixOfQueueKey(queue, d.queueID, Tail(d.createdAt.ns, d.id));
  }

  lemma ScannedIsVisited(kv: KV, queue: string, id: string) returns (k: string)
    requires Live(kv) && KDownload(id) in Scanned(kv, queue)
    ensures k in kv && QueuePrefix(queue) <= k && IdOf(k) == id
  {
    IdOfRecord(kv, id);
    var d := RecordOf(kv, id);
    k := QueueEntry(d);
    PrefixOfQueueKey(queue, d.queueID, Tail(d.createdAt.ns, d.id));
    IdIsRecovered(P_QUEUE + "|" + d.queueID + "|", d.createdAt.ns, d.id);
  }

  /** The queue id that the scan looks for is also a first part of a key of this other queue's download:
      the other id begins with it, or it is the other id, a bar, and a first part of the key's tail. */
  predicate Mistaken(queue: string, d: Download) {
    d.queueID != queue && d.createdAt.At? &&
    (queue <= d.queueID || (d.queueID != "" && d.queueID + "|" <= queue && queue <= d.queueID + "|" + Tail(d.createdAt.ns, d.id)))
  }

  ghost predicate SomeMistaken(kv: KV, queue: string) {
    exists k | k in kv && kv[k].Record? :: Mistaken(queue, kv[k].d)
  }

  lemma PrefixCases(queue: string, q: string, tail: string)
    ensures queue <= q + "|" + tail <==> queue <= q || (q + "|" <= queue && queue <= q + "|" + tail)
  {
    var whole := q + "|" + tail;
    assert whole == q + ("|" + tail) && (q + "|")[..|q|] == q;
    if queue <= whole {
      if |queue| <= |q| {
        assert queue == whole[..|queue|] == q[..|queue|];
      } else {
        assert whole[..|q| + 1] == q + "|";
        assert queue[..|q| + 1] == whole[..|q| + 1];
      }
    }
    if queue <= q {
      assert whole[..|queue|] == q[..|queue|] == queue;
    }
  }

  /** For every non-empty queue id, with or without bars: the scan selects exactly the queue's downloads
      iff no stored download of another queue is mistaken for one of them. */
  lemma SelectionIsExactIff(kv: KV, queue: string)
    requires WellFormed(kv) && queue != ""
    ensures Selected(kv, queue) == InQueue(kv, queue) <==> !SomeMistaken(kv, queue)
  {
    forall k | k in kv && kv[k].Record?
      ensures k in Selected(kv, queue) <==> kv[k].d.queueID == queue || Mistaken(queue, kv[k].d)
    {
      PrefixCases(queue, kv[k].d.queueID, Tail(kv[k].d.createdAt.ns, kv[k].d.id));
    }
    if SomeMistaken(kv, queue) {
      var k :| k in kv && kv[k].Record? && Mistaken(queue, kv[k].d);
      assert k in Selected(kv, queue) && k !in InQueue(kv, queue);
    } else {
      forall k ensures k in Selected(kv, queue) <==> k in InQueue(kv, queue) {}
    }
  }

  /** For an id without bars only ids that begin with it are mistaken for it. */
  lemma MistakenForBarFree(queue: string, d: Download)
    requires '|' !in queue && d.createdAt.At?
    ensures Mistaken(queue, d) <==> d.queueID != queue && queue <= d.queueID
  {
    BarComesAlong(d.queueID, queue);
  }

  lemma BarComesAlong(q: string, queue: string)
    ensures q + "|" <= queue ==> '|' in queue
  {
    assert q + "|" <= queue ==> queue[|q|] == '|';
  }

  /** "ab" is mistaken for "a". */
  lemma LongerQueueIsSelected(kv: KV, id: string)
    requires WellFormed(kv) && HasRecord(kv, id) && RecordOf(kv, id).queueID == "ab"
    ensures KDownload(id) in Selected(kv, "a") && KDownload(id) !in InQueue(kv, "a")
  {
    IdOfRecord(kv, id);
    var d := RecordOf(kv, id);
    assert "a" <= "ab" + "|" + Tail(d.createdAt.ns, d.id);
  }

  /** Every time key begins with a zero, so every download of a queue is mistaken for one of the queue whose
      id is that queue's followed by a bar and a zero, although the one id does not begin with the other. */
  lemma BarredQueueSelectsOther(kv: KV, q: string)
    requires WellFormed(kv) && q != ""
    ensures InQueue(kv, q) <= Selected(kv, q + "|0") && !(q + "|0" <= q)
  {
    forall k | k in InQueue(kv, q) ensures k in Selected(kv, q + "|0") {
      var t := kv[k].d.createdAt.ns;
      TimeKeyHead(t);
      assert Tail(t, kv[k].d.id)[0] == '0';
      assert (q + "|" + Tail(t, kv[k].d.id))[..|q| + 2] == q + "|0";
    }
  }

  lemma TimeKeyHead(t: Nanos)
    ensures |TimeKey(t)| > 0 && TimeKey(t)[0] == '0'
  {
    assert Pow10(10) == 1_00000_00000;
    assert Pow10(19) == 1_00000_0000 * Pow10(10);
    assert Pow10(20) == 10 * Pow10(19);
    PaddedIsFixedWidth(t, TIME_WIDTH);
    LeadingZero(t, 19);
  }

  lemma {:induction false} LeadingZero(n: nat, w: nat)
    requires n < Pow10(w)
    ensures FixedWidth(n, w + 1)[0] == '0'
  {
    if w > 0 {
      LeadingZero(n / 10, w - 1);
    }
  }

  // ---- Updates of a whole queue ----

  function QueueChanged(kv: KV, queue: string, c: Change, clock: Clock): KV
    requires AllPresent(kv, ScannedIds(kv, queue))
  {
    BulkUpdated(kv, ChangedRecords(kv, ScannedIds(kv, queue), c), clock)
  }

  lemma {:induction false} UpdatedRecord(kv: KV, ds: seq<Download>, clock: Clock, i: nat)
    requires Live(kv) && Distinct(ds) && AllPresent(kv, Ids(ds)) && i < |ds|
    ensures HasRecord(FoldUpdate(kv, ds, clock), ds[i].id)
    ensures RecordOf(FoldUpdate(kv, ds, clock), ds[i].id) == Restamp(kv, ds[i], clock(i))
  {
    var n := |ds| - 1;
    var mid := FoldUpdate(kv, ds[..n], clock);
    assert forall j | 0 <= j < n :: Ids(ds[..n])[j] == Ids(ds)[j];
    if i < n {
      UpdatedRecord(kv, ds[..n], clock, i);
      FoldUpdateFrame(kv, ds[..n], clock, ds[n].id);
      UpdateFrame(mid, ds[n], clock(n), ds[i].id);
    } else {
      assert Ids(ds)[n] == ds[n].id;
      FoldUpdateFrame(kv, ds[..n], clock, ds[n].id);
      UpdateKeeps(mid, ds[n], clock(n), {});
      assert KDownload(ds[n].id) in Records(UpdateNext(mid, ds[n], clock(n)));
    }
  }

  /** Everything but the time of the last update is as given. */
  predicate SameButUpdated(a: Download, b: Download) { a.(updatedAt := b.updatedAt) == b }

  /** It was last updated at one of the first n readings of the clock. */
  ghost predicate WrittenAt(d: Download, clock: Clock, n: nat) { exists i: nat | i < n :: d.updatedAt == At(clock(i)) }

  lemma QueueChangeOne(kv: KV, queue: string, c: Change, clock: Clock, k: string)
    requires Live(kv) && AllPresent(kv, ScannedIds(kv, queue)) && k in Records(kv)
    ensures var after := Records(QueueChanged(kv, queue, c, clock));
            && k in after
            && (k in Scanned(kv, queue) ==>
                  SameButUpdated(after[k], Changed(c, Records(kv)[k])) && WrittenAt(after[k], clock, |ScannedIds(kv, queue)|))
            && (k !in Scanned(kv, queue) ==> after[k] == Records(kv)[k])
  {
    var ids, id := ScannedIds(kv, queue), kv[k].d.id;
    assert id in ids ==> k in PrimaryKeys(ids);
    if k in PrimaryKeys(ScannedIds(kv, queue)) {
      var other :| other in ids && KDownload(other) == k;
      KDownloadInjective(other, id);
    }
    var ds := ChangedRecords(kv, ids, c);
    ScanSelects(kv, queue);
    ChangedIds(kv, ids, c);
    BulkUpdateIsFold(kv, ds, clock);
    if id in ids {
      var i :| 0 <= i < |ids| && ids[i] == id;
      UpdatedRecord(kv, ds, clock, i);
    } else {
      FoldUpdateFrame(kv, ds, clock, id);
    }
  }

  lemma ChangedIds(kv: KV, ids: seq<string>, c: Change)
    requires Live(kv) && AllPresent(kv, ids) && forall i, j | 0 <= i < j < |ids| :: ids[i] != ids[j]
    ensures var ds := ChangedRecords(kv, ids, c); Ids(ds) == ids && Distinct(ds) && AllPresent(kv, Ids(ds))
  {
    forall i | 0 <= i < |ids| ensures ChangedRecords(kv, ids, c)[i].id == ids[i] {
      IdOfRecord(kv, ids[i]);
    }
  }

  lemma {:induction false} FoldUpdateKeys(kv: KV, ds: seq<Download>, clock: Clock)
    requires Live(kv)
    ensures Live(FoldUpdate(kv, ds, clock)) && Records(FoldUpdate(kv, ds, clock)).Keys == Records(kv).Keys
  {
    if ds != [] {
      var n := |ds| - 1;
      var mid := FoldUpdate(kv, ds[..n], clock);
      FoldUpdateKeys(kv, ds[..n], clock);
      if HasRecord(mid, ds[n].id) {
        UpdateKeeps(mid, ds[n], clock(n), {});
        assert KDownload(ds[n].id) in Records(mid);
      }
    }
  }

  lemma BulkUpdateKeepsRecords(kv: KV, ds: seq<Download>, clock: Clock)
    requires Live(kv) && Distinct(ds) && AllPresent(kv, Ids(ds))
    ensures Live(BulkUpdated(kv, ds, clock)) && (Complete(kv) ==> Complete(BulkUpdated(kv, ds, clock)))
    ensures Records(BulkUpdated(kv, ds, clock)).Keys == Records(kv).Keys
  {
    BulkUpdateKeeps(kv, ds, clock);
    BulkUpdateIsFold(kv, ds, clock);
    FoldUpdateKeys(kv, ds, clock);
  }

  lemma QueueChangeKeeps(kv: KV, queue: string, c: Change, clock: Clock)
    requires Live(kv)
    ensures AllPresent(kv, ScannedIds(kv, queue))
    ensures Live(QueueChanged(kv, queue, c, clock)) && (Complete(kv) ==> Complete(QueueChanged(kv, queue, c, clock)))
    ensures Records(QueueChanged(kv, queue, c, clock)).Keys == Records(kv).Keys
  {
    ScanSelects(kv, queue);
    ChangedIds(kv, ScannedIds(kv, queue), c);
    BulkUpdateKeepsRecords(kv, ChangedRecords(kv, ScannedIds(kv, queue), c), clock);
  }

  lemma ScannedAreRecords(kv: KV, queue: string)
    requires WellFormed(kv)
    ensures Scanned(kv, queue) <= Records(kv).Keys
  {
  }

  /** A queue-scoped update changes exactly the scanned records, each in nothing but the given field
      and the time of the update; it leaves no stale entry, and none missing unless there was. */
  lemma QueueChangeIsExact(kv: KV, queue: string, c: Change, clock: Clock)
    requires Live(kv)
    ensures AllPresent(kv, ScannedIds(kv, queue)) && Scanned(kv, queue) <= Records(kv).Keys
    ensures Live(QueueChanged(kv, queue, c, clock)) && (Complete(kv) ==> Complete(QueueChanged(kv, queue, c, clock)))
    ensures Records(QueueChanged(kv, queue, c, clock)).Keys == Records(kv).Keys
    ensures OnlySelectedChanged(Records(kv), Records(QueueChanged(kv, queue, c, clock)), Scanned(kv, queue), c, clock,
                                |ScannedIds(kv, queue)|)
  {
    QueueChangeKeeps(kv, queue, c, clock);
    ScannedAreRecords(kv, queue);
    forall k | k in Records(kv)
      ensures k in Scanned(kv, queue) ==> ChangedInField(c, Records(kv)[k], Records(QueueChanged(kv, queue, c, clock))[k])
      ensures k in Scanned(kv, queue) ==>
                WrittenAt(Records(QueueChanged(kv, queue, c, clock))[k], clock, |ScannedIds(kv, queue)|)
      ensures k !in Scanned(kv, queue) ==> Records(QueueChanged(kv, queue, c, clock))[k] == Records(kv)[k]
    {
      QueueChangeOne(kv, queue, c, clock, k);
    }
  }

  /** The selected records differ in nothing but the given field and the time of the update, which is one of
      the write; the others not at all. */
  ghost predicate OnlySelectedChanged(was: map<string, Download>, now: map<string, Download>, selected: set<string>, c: Change,
                                      clock: Clock, n: nat)
    requires selected <= was.Keys == now.Keys
  {
    && (forall k | k in selected :: ChangedInField(c, was[k], now[k]) && WrittenAt(now[k], clock, n))
    && (forall k | k in was && k !in selected :: now[k] == was[k])
  }

  /** The given field has the given value, and all others but the time of the update are as before. */
  predicate ChangedInField(c: Change, was: Download, now: Download) {
    match c
    case Reassign(to) => now.queueID == to && now == was.(queueID := now.queueID, updatedAt := now.updatedAt)
    case SetPriority(p) => now.priority == p && now == was.(priority := now.priority, updatedAt := now.updatedAt)
    case SetStatus(status) => now.status == status && now == was.(status := now.status, updatedAt := now.updatedAt)
  }

  ghost function InQueueAs(kv: KV, queue: string, status: string): set<string> {
    set k | k in InQueue(kv, queue) && kv[k].d.status == status
  }

  /** All downloads of the queue have the status, none has another, every other queue keeps its downloads in each
      status, and no download changes queue or priority. */
  ghost predicate AllHaveStatus(kv: KV, next: KV, queue: string, status: string)
    requires Records(next).Keys == Records(kv).Keys
  {
    && InQueueAs(next, queue, status) == InQueue(kv, queue)
    && (forall other | other != status :: InQueueAs(next, queue, other) == {})
    && (forall q, other | q != queue :: InQueueAs(next, q, other) == InQueueAs(kv, q, other))
    && (forall q :: InQueue(next, q) == InQueue(kv, q))
    && (forall k | k in Records(kv) :: Records(next)[k].priority == Records(kv)[k].priority)
  }

  /** Setting the status of an exactly selected queue. */
  lemma StatusSetForAll(kv: KV, queue: string, status: string, clock: Clock)
    requires Consistent(kv) && Selected(kv, queue) == InQueue(kv, queue)
    ensures AllPresent(kv, ScannedIds(kv, queue))
    ensures Records(QueueChanged(kv, queue, SetStatus(status), clock)).Keys == Records(kv).Keys
    ensures AllHaveStatus(kv, QueueChanged(kv, queue, SetStatus(status), clock), queue, status)
  {
    CompleteScansAll(kv, queue);
    QueueChangeIsExact(kv, queue, SetStatus(status), clock);
    var next := QueueChanged(kv, queue, SetStatus(status), clock);
    StatusOfEach(Records(kv), Records(next), InQueue(kv, queue), status, clock, |ScannedIds(kv, queue)|);
    SetQueues(kv, next, queue, status);
  }

  lemma StatusOfEach(was: map<string, Download>, now: map<string, Download>, selected: set<string>, status: string, clock: Clock, n: nat)
    requires selected <= was.Keys == now.Keys && OnlySelectedChanged(was, now, selected, SetStatus(status), clock, n)
    ensures forall k | k in was ::
              && now[k].queueID == was[k].queueID && now[k].priority == was[k].priority
              && now[k].status == if k in selected then status else was[k].status
  {
    forall k | k in was
      ensures now[k].queueID == was[k].queueID && now[k].priority == was[k].priority
      ensures now[k].status == if k in selected then status else was[k].status
    {
      if k in selected { assert ChangedInField(SetStatus(status), was[k], now[k]); }
    }
  }

  lemma SetQueues(kv: KV, next: KV, queue: string, status: string)
    requires Records(next).Keys == Records(kv).Keys
    requires forall k | k in Records(kv) ::
               && Records(next)[k].queueID == Records(kv)[k].queueID && Records(next)[k].priority == Records(kv)[k].priority
               && Records(next)[k].status == if k in InQueue(kv, queue) then status else Records(kv)[k].status
    ensures AllHaveStatus(kv, next, queue, status)
  {
    assert forall k | k in kv && kv[k].Record? :: k in Records(kv) && Records(kv)[k] == kv[k].d;
    assert forall k | k in next && next[k].Record? :: k in Records(next) && Records(next)[k] == next[k].d;
    assert forall k | k in Records(kv) :: k in next && next[k].Record? && next[k].d == Records(next)[k];
    forall q ensures InQueue(next, q) == InQueue(kv, q) {}
  }

  /** Setting the priority of an exactly selected queue: all of its downloads have it, all others keep theirs, and no
      download changes queue or status. */
  lemma PrioritySetForAll(kv: KV, queue: string, priority: int, clock: Clock)
    requires Consistent(kv) && Selected(kv, queue) == InQueue(kv, queue)
    ensures AllPresent(kv, ScannedIds(kv, queue))
    ensures var was, now := Records(kv), Records(QueueChanged(kv, queue, SetPriority(priority), clock));
            now.Keys == was.Keys && AllHavePriority(was, now, InQueue(kv, queue), priority)
  {
    CompleteScansAll(kv, queue);
    QueueChangeIsExact(kv, queue, SetPriority(priority), clock);
    var was, now := Records(kv), Records(QueueChanged(kv, queue, SetPriority(priority), clock));
    forall k | k in was ensures PriorityIs(was[k], now[k], if k in InQueue(kv, queue) then priority else was[k].priority) {
      if k in InQueue(kv, queue) { assert ChangedInField(SetPriority(priority), was[k], now[k]); }
    }
  }

  ghost predicate AllHavePriority(was: map<string, Download>, now: map<string, Download>, selected: set<string>, priority: int)
    requires now.Keys == was.Keys
  {
    forall k | k in was :: PriorityIs(was[k], now[k], if k in selected then priority else was[k].priority)
  }

  predicate PriorityIs(was: Download, now: Download, priority: int) {
    now.priority == priority && now.queueID == was.queueID && now.status == was.status
  }

  /** Reassigning moves every download of the queue and nothing else. */
  lemma ReassignConserves(kv: KV, from: string, to: string, clock: Clock)
    requires Consistent(kv) && from != to && Selected(kv, from) == InQueue(kv, from)
    ensures AllPresent(kv, ScannedIds(kv, from))
    ensures var next := QueueChanged(kv, from, Reassign(to), clock);
            && |InQueue(next, from)| == 0
            && |InQueue(next, to)| == |InQueue(kv, from)| + |InQueue(kv, to)|
            && (forall q | q != from && q != to :: InQueue(next, q) == InQueue(kv, q))
            && |Records(next)| == |Records(kv)|
  {
    CompleteScansAll(kv, from);
    QueueChangeIsExact(kv, from, Reassign(to), clock);
    var next := QueueChanged(kv, from, Reassign(to), clock);
    forall k | k in Records(kv)
      ensures Records(next)[k].queueID == if k in InQueue(kv, from) then to else Records(kv)[k].queueID
    {
    }
    MovedQueues(kv, next, from, to);
    assert |Records(next).Keys| == |Records(next)| && |Records(kv).Keys| == |Records(kv)|;
  }

  lemma MovedQueues(kv: KV, next: KV, from: string, to: string)
    requires from != to && Records(next).Keys == Records(kv).Keys
    requires forall k | k in Records(kv) ::
               Records(next)[k].queueID == if k in InQueue(kv, from) then to else Records(kv)[k].queueID
    ensures InQueue(next, from) == {}
    ensures InQueue(next, to) == InQueue(kv, from) + InQueue(kv, to)
    ensures |InQueue(next, to)| == |InQueue(kv, from)| + |InQueue(kv, to)|
    ensures forall q | q != from && q != to :: InQueue(next, q) == InQueue(kv, q)
  {
    assert forall k | k in kv && kv[k].Record? :: k in Records(kv) && Records(kv)[k] == kv[k].d;
    assert forall k | k in next && next[k].Record? :: k in Records(next) && Records(next)[k] == next[k].d;
    assert forall k | k in Records(kv) :: k in next && next[k].Record? && next[k].d == Records(next)[k];
    assert InQueue(kv, from) !! InQueue(kv, to);
  }

  /** Deleting a queue's downloads removes exactly the scanned records. */
  lemma QueueDeleteIsExact(kv: KV, queue: string)
    requires Live(kv)
    ensures AllPresent(kv, ScannedIds(kv, queue))
    ensures var next := BulkDeleted(kv, ScannedIds(kv, queue));
            Live(next) && (Complete(kv) ==> Complete(next)) && Records(next) == Records(kv) - Scanned(kv, queue)
  {
    var ids := ScannedIds(kv, queue);
    ScanSelects(kv, queue);
    BulkDeleteIsFold(kv, ids);
    FoldDeleteKeeps(kv, ids);
    FoldDeleteRecords(kv, ids);
  }

  lemma {:induction false} FoldDeleteRecords(kv: KV, ids: seq<string>)
    requires Live(kv)
    ensures Live(FoldDelete(kv, ids)) && Records(FoldDelete(kv, ids)) == Records(kv) - PrimaryKeys(ids)
  {
    if ids == [] {
      assert Records(kv) - {} == Records(kv);
    } else {
      var n := |ids| - 1;
      var mid := FoldDelete(kv, ids[..n]);
      FoldDeleteRecords(kv, ids[..n]);
      assert ids == ids[..n] + [ids[n]];
      assert PrimaryKeys(ids) == PrimaryKeys(ids[..n]) + {KDownload(ids[n])};
      DeleteRecords(mid, ids[n]);
    }
  }

  lemma DeleteRecords(kv: KV, id: string)
    requires Live(kv)
    ensures Live(DeleteNext(kv, id)) && Records(DeleteNext(kv, id)) == Records(kv) - {KDownload(id)}
  {
    if HasRecord(kv, id) {
      DeleteKeeps(kv, id, {});
    } else {
      assert KDownload(id) !in Records(kv);
    }
  }
}
