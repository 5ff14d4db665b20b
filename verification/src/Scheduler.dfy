/**
 One tick of the scheduler (internal/service/workers.go:59-108): running downloads that look stale go
 back to their queue, and every queue that is not paused is filled up to its concurrency.
 */
module Scheduler {
  import opened Text
  import opened Models
  import opened Keys
  import opened Store
  import opened Consistency
  import opened Listing
  import opened Paging
  import opened Repository
  import opened Lifecycle
  import opened Service

  const STALE_LIMIT := 1000

  function InQueueWith(queue: string, status: string): Options {
    Options([status], [queue], [], "", None, None, ByCreated, false)
  }

  /** What the tick asks for when it has slots to fill. */
  function NextInLine(queue: string): Options {
    InQueueWith(queue, QUEUED).(orderBy := ByPriority, desc := true)
  }

  const RUNNING_ANYWHERE := Options([RUNNING], [], [], "", None, None, ByCreated, false)

  function Concurrency(q: Queue): int { if q.concurrency <= 0 then 1 else q.concurrency }

  // ---- Downloads of a queue ----

  ghost function InState(records: map<string, Download>, queue: string, status: string): set<string> {
    set id | id in records && records[id].queueID == queue && records[id].status == status
  }

  /** The n newest queued downloads of a queue, or all of them if there are fewer. */
  ghost predicate AreNewest(records: map<string, Download>, queue: string, n: nat, picked: set<string>) {
    var queued := InState(records, queue, QUEUED);
    && picked <= queued
    && |picked| == (if n < |queued| then n else |queued|)
    && forall p, u | p in picked && u in queued - picked :: Before(records[u], records[p])
  }

  lemma MatchingById(kv: KV, o: Options, queue: string, status: string, d: Download)
    requires WellFormed(kv) && (o == InQueueWith(queue, status) || (o == NextInLine(queue) && status == QUEUED))
    ensures d in Matching(kv, o) <==> HasRecord(kv, d.id) && RecordOf(kv, d.id) == d && d.queueID == queue && d.status == status
    ensures d in Matching(kv, o) ==> d.id in InState(ById(kv), queue, status) && ById(kv)[d.id] == Untimed(d)
  {
    Lookup(kv, d.id);
    if d in Matching(kv, o) {
      var k :| k in kv && kv[k].Record? && Matches(kv[k].d, o) && kv[k].d == d;
      assert k == KDownload(d.id);
    }
    if HasRecord(kv, d.id) && RecordOf(kv, d.id) == d && d.queueID == queue && d.status == status {
      assert Matches(kv[KDownload(d.id)].d, o);
    }
  }

  lemma {:induction false} SameCount(ids: set<string>, ds: set<Download>)
    requires forall d | d in ds :: d.id in ids
    requires forall d, e | d in ds && e in ds && d.id == e.id :: d == e
    requires forall id | id in ids :: exists d | d in ds :: d.id == id
    ensures |ids| == |ds|
  {
    if ids == {} {
      assert ds == {};
    } else {
      var id :| id in ids;
      var d :| d in ds && d.id == id;
      SameCount(ids - {id}, ds - {d});
    }
  }

  lemma TallyIsCount(kv: KV, o: Options, queue: string, status: string)
    requires WellFormed(kv) && (o == InQueueWith(queue, status) || (o == NextInLine(queue) && status == QUEUED))
    ensures |Matching(kv, o)| == |InState(ById(kv), queue, status)|
  {
    forall d | d in Matching(kv, o)
      ensures d.id in InState(ById(kv), queue, status) && HasRecord(kv, d.id) && RecordOf(kv, d.id) == d
    {
      MatchingById(kv, o, queue, status, d);
    }
    forall id | id in InState(ById(kv), queue, status) ensures exists d | d in Matching(kv, o) :: d.id == id {
      Lookup(kv, id);
      MatchingById(kv, o, queue, status, RecordOf(kv, id));
    }
    SameCount(InState(ById(kv), queue, status), Matching(kv, o));
  }

  // ---- Picking ----

  ghost function IdSet(ds: seq<Download>): set<string> { set i | 0 <= i < |ds| :: ds[i].id }

  ghost predicate DistinctIds(ds: seq<Download>) {
    forall i, j | 0 <= i < j < |ds| :: ds[i].id != ds[j].id
  }

  lemma IdSetLast(ds: seq<Download>)
    requires ds != []
    ensures IdSet(ds) == IdSet(ds[..|ds| - 1]) + {ds[|ds| - 1].id}
  {
    var n := |ds| - 1;
    assert forall i | 0 <= i < n :: ds[..n][i] == ds[i];
    forall id | id in IdSet(ds) ensures id in IdSet(ds[..n]) + {ds[n].id} {
      var i :| 0 <= i < |ds| && ds[i].id == id;
      assert i < n ==> ds[..n][i].id == id;
    }
  }

  /** The ids are distinct iff there are as many ids as downloads. */
  lemma {:induction false} IdSetSize(ds: seq<Download>)
    ensures |IdSet(ds)| <= |ds|
    ensures |IdSet(ds)| == |ds| <==> DistinctIds(ds)
  {
    if ds != [] {
      var n := |ds| - 1;
      IdSetSize(ds[..n]);
      IdSetLast(ds);
      LastIsNew(ds);
    }
  }

  lemma LastIsNew(ds: seq<Download>)
    requires ds != []
    ensures DistinctIds(ds) <==> DistinctIds(ds[..|ds| - 1]) && ds[|ds| - 1].id !in IdSet(ds[..|ds| - 1])
  {
    var n := |ds| - 1;
    assert forall i | 0 <= i < n :: ds[..n][i] == ds[i];
    if ds[n].id !in IdSet(ds[..n]) {
      forall i | 0 <= i < n ensures ds[i].id != ds[n].id { assert ds[..n][i].id in IdSet(ds[..n]); }
    }
  }

  /** The scan for queued downloads runs from the newest to the oldest. */
  lemma QueuedScan(kv: KV, queue: string)
    requires Consistent(kv) && queue != ""
    ensures var s := FullScan(kv, NextInLine(queue));
            && |s| == |InState(ById(kv), queue, QUEUED)|
            && (forall i, j | 0 <= i < j < |s| :: Before(s[j], s[i]))
            && (forall d :: d in s <==> d in Matching(kv, NextInLine(queue)))
  {
    var o := NextInLine(queue);
    AccessPathIndependence(kv, o);
    ReverseMembers(Listed(kv, o));
    ListingLength(kv, o, Listed(kv, o));
    TallyIsCount(kv, o, queue, QUEUED);
  }

  /** The record of a queued download is in the scan. */
  lemma QueuedIsScanned(kv: KV, queue: string, id: string) returns (j: nat)
    requires Consistent(kv) && queue != "" && id in InState(ById(kv), queue, QUEUED)
    ensures var s := FullScan(kv, NextInLine(queue)); j < |s| && s[j].id == id
  {
    QueuedScan(kv, queue);
    Lookup(kv, id);
    MatchingById(kv, NextInLine(queue), queue, QUEUED, RecordOf(kv, id));
    j :| 0 <= j < |FullScan(kv, NextInLine(queue))| && FullScan(kv, NextInLine(queue))[j] == RecordOf(kv, id);
  }

  lemma ScannedIsQueued(kv: KV, queue: string, d: Download)
    requires Consistent(kv) && queue != "" && d in FullScan(kv, NextInLine(queue))
    ensures d.id in InState(ById(kv), queue, QUEUED) && ById(kv)[d.id] == Untimed(d)
    ensures HasRecord(kv, d.id) && RecordOf(kv, d.id) == d
  {
    QueuedScan(kv, queue);
    MatchingById(kv, NextInLine(queue), queue, QUEUED, d);
  }

  lemma ScanListsQueued(kv: KV, queue: string)
    requires Consistent(kv) && queue != ""
    ensures var s := FullScan(kv, NextInLine(queue));
            && ListsQueued(ById(kv), queue, s) && |s| == |InState(ById(kv), queue, QUEUED)|
            && forall i | 0 <= i < |s| :: HasRecord(kv, s[i].id) && RecordOf(kv, s[i].id) == s[i]
  {
    var s := FullScan(kv, NextInLine(queue));
    QueuedScan(kv, queue);
    forall i | 0 <= i < |s|
      ensures s[i].id in InState(ById(kv), queue, QUEUED) && ById(kv)[s[i].id] == Untimed(s[i])
      ensures HasRecord(kv, s[i].id) && RecordOf(kv, s[i].id) == s[i]
    {
      ScannedIsQueued(kv, queue, s[i]);
    }
    forall id | id in InState(ById(kv), queue, QUEUED) ensures exists j :: 0 <= j < |s| && s[j].id == id {
      var j := QueuedIsScanned(kv, queue, id);
    }
  }

  /** A page of that scan holds the newest queued downloads, in whatever order it is then sorted. */
  lemma PageIsNewest(records: map<string, Download>, queue: string, s: seq<Download>, n: nat, ds: seq<Download>)
    requires ListsQueued(records, queue, s) && |s| == |InState(records, queue, QUEUED)|
    requires n > 0 && multiset(ds) == multiset(Page(s, n, 0))
    ensures DistinctIds(ds) && AreNewest(records, queue, n, IdSet(ds))
    ensures forall i | 0 <= i < |ds| :: ds[i].id in records && records[ds[i].id] == Untimed(ds[i])
  {
    var m := if n < |s| then n else |s|;
    assert s[..|s|] == s;
    assert Page(s, n, 0) == s[..m];
    FirstAreDistinct(records, s, m);
    DistinctPermuted(s[..m], ds);
    IdSetSize(ds);
    assert |ds| == |multiset(ds)| == m;
    SplitNewest(records, queue, s, m, IdSet(ds));
    SameMembers(ds, s[..m]);
    forall i | 0 <= i < |ds| ensures ds[i].id in records && records[ds[i].id] == Untimed(ds[i]) {
      assert ds[i] in s[..m];
    }
  }

  /** The scan lists the queued downloads, newest first. */
  ghost predicate ListsQueued(records: map<string, Download>, queue: string, s: seq<Download>) {
    && (forall i | 0 <= i < |s| :: s[i].id in InState(records, queue, QUEUED) && records[s[i].id] == Untimed(s[i]))
    && (forall id | id in InState(records, queue, QUEUED) :: exists j :: 0 <= j < |s| && s[j].id == id)
    && (forall i, j | 0 <= i < j < |s| :: Before(s[j], s[i]))
  }

  lemma SplitNewest(records: map<string, Download>, queue: string, s: seq<Download>, m: nat, ids: set<string>)
    requires m <= |s| && ListsQueued(records, queue, s) && ids == IdSet(s[..m])
    ensures ids <= InState(records, queue, QUEUED)
    ensures forall p, u | p in ids && u in InState(records, queue, QUEUED) - ids :: Before(records[u], records[p])
  {
    forall p | p in ids ensures exists i :: 0 <= i < m && s[i].id == p {
      var i :| 0 <= i < m && s[..m][i].id == p;
      assert s[i].id == p;
    }
    forall i | 0 <= i < m ensures s[i].id in ids { assert s[..m][i].id in IdSet(s[..m]); }
    forall p, u | p in ids && u in InState(records, queue, QUEUED) - ids
      ensures Before(records[u], records[p])
    {
      var i :| 0 <= i < m && s[i].id == p;
      var j :| 0 <= j < |s| && s[j].id == u;
      assert Before(s[j], s[i]);
    }
  }

  lemma FirstAreDistinct(records: map<string, Download>, s: seq<Download>, m: nat)
    requires m <= |s|
    requires forall i | 0 <= i < |s| :: s[i].id in records && records[s[i].id] == Untimed(s[i])
    requires forall i, j | 0 <= i < j < |s| :: Before(s[j], s[i])
    ensures DistinctIds(s[..m])
  {
    forall i, j | 0 <= i < j < m ensures s[i].id != s[j].id {
      assert Before(s[j], s[i]);
      LessTotal(s[i].id, s[i].id);
      assert records[s[i].id] == Untimed(s[i]) && records[s[j].id] == Untimed(s[j]);
    }
  }

  lemma SameMembers(a: seq<Download>, b: seq<Download>)
    requires multiset(a) == multiset(b)
    ensures forall d :: d in a <==> d in b
  {
    forall d ensures d in a <==> d in b { assert d in a <==> d in multiset(a); }
  }

  lemma SameIds(a: seq<Download>, b: seq<Download>)
    requires forall d :: d in a ==> d in b
    ensures IdSet(a) <= IdSet(b)
  {
    forall id | id in IdSet(a) ensures id in IdSet(b) {
      var i :| 0 <= i < |a| && a[i].id == id;
      assert a[i] in b;
      var j :| 0 <= j < |b| && b[j] == a[i];
    }
  }

  lemma DistinctPermuted(a: seq<Download>, b: seq<Download>)
    requires multiset(a) == multiset(b) && DistinctIds(a)
    ensures DistinctIds(b) && IdSet(a) == IdSet(b)
  {
    SameMembers(a, b);
    SameIds(a, b);
    SameIds(b, a);
    IdSetSize(a);
    IdSetSize(b);
    assert IdSet(a) == IdSet(b);
    assert |a| == |multiset(a)| == |multiset(b)| == |b|;
  }

  // ---- The tick ----

  /** How many downloads a queue may still start. */
  ghost function Slots(records: map<string, Download>, q: Queue): nat {
    var running := |InState(records, q.id, RUNNING)|;
    if running < Concurrency(q) then Concurrency(q) - running else 0
  }

  function WithStatus(records: map<string, Download>, ids: set<string>, status: string): map<string, Download> {
    map id | id in records :: if id in ids then records[id].(status := status) else records[id]
  }

  /** Each launched id has a new run, registered to be cancelled. */
  ghost predicate NewRuns(before: State, after: State, launched: set<string>) {
    && before.runs <= after.runs && |after.runs| == |before.runs| + |launched|
    && forall id | id in launched ::
         && id in after.cancels && |before.runs| <= after.cancels[id] < |after.runs|
         && after.runs[after.cancels[id]] == RunState(id, false, Fetching, None, 0)
  }

  /** Starting a set of queued downloads: those with a cancel entry are passed over. */
  ghost predicate StartedAll(before: State, after: State, picked: set<string>) {
    var launched := picked - before.cancels.Keys;
    && after.records == WithStatus(before.records, launched, RUNNING)
    && after.cancels.Keys == before.cancels.Keys + picked
    && NewRuns(before, after, launched)
  }

  /** The n newest queued downloads of a queue have been started. */
  ghost predicate Filled(before: State, after: State, queue: string, n: nat) {
    exists picked :: AreNewest(before.records, queue, n, picked) && StartedAll(before, after, picked)
  }

  /** A queue that is served gets its newest queued downloads started, as many as it has slots. */
  ghost predicate Served(before: State, after: State, q: Queue) {
    Filled(before, after, q.id, Slots(before.records, q))
  }

  /** Steps that a tick is made of. */
  ghost predicate OfTick(steps: seq<Step>) {
    forall i | 0 <= i < |steps| :: steps[i].Requeue? || steps[i].StartQueued?
  }

  lemma {:induction false} AfterAppend(st: State, a: seq<Step>, b: seq<Step>)
    ensures After(st, a + b) == After(After(st, a), b)
  {
    if b == [] {
      assert a + b == a;
    } else {
      var n := |b| - 1;
      assert (a + b)[..|a| + n] == a + b[..n];
      AfterAppend(st, a, b[..n]);
    }
  }

  method CountIn(svc: DownloadService, queue: string, status: string, ctx: Context := Free) returns (n: nat, ok: bool)
    requires svc.Valid() && Complete(svc.repo.kv) && queue != "" && status != ""
    ensures n <= |InState(svc.View().records, queue, status)|
    ensures ok ==> n == |InState(svc.View().records, queue, status)|
    ensures ctx == Fixed(false) ==> ok
  {
    var o := InQueueWith(queue, status);
    CountIsListLength(svc.repo.kv, o);
    TallyIsCount(svc.repo.kv, o, queue, status);
    var r;
    n, r := svc.repo.CountDownloads(o, ctx);
    ok := r.Ok?;
  }

  /** The higher priority first, and the newer one of two that are equal. */
  ghost predicate ByPriorityDown(ds: seq<Download>) {
    forall i, j | 0 <= i < j < |ds| ::
      ds[i].priority > ds[j].priority || (ds[i].priority == ds[j].priority && InTime(true, ds[i].createdAt, ds[j].createdAt))
  }

  lemma AskedByPriority(queue: string, ds: seq<Download>)
    requires AsAsked(NextInLine(queue), ds)
    ensures ByPriorityDown(ds)
  {
    forall i, j | 0 <= i < j < |ds|
      ensures ds[i].priority > ds[j].priority || (ds[i].priority == ds[j].priority && InTime(true, ds[i].createdAt, ds[j].createdAt))
    {
      assert MayFollow(NextInLine(queue), ds[i], ds[j]);
    }
  }

  method ListQueued(svc: DownloadService, queue: string, n: nat, ctx: Context := Free) returns (r: Result<seq<Download>>)
    requires svc.Valid() && Complete(svc.repo.kv) && queue != "" && n > 0
    ensures match r
            case Success(ds) =>
              && DistinctIds(ds) && AreNewest(svc.View().records, queue, n, IdSet(ds))
              && Unchanged(svc.View(), ds, 0)
              && ByPriorityDown(ds)
            case Failure(e) => e == Cancelled
    ensures ctx == Fixed(false) ==> r.Success?
  {
    var o := NextInLine(queue);
    r := svc.repo.ListDownloads(o, n, 0, ctx);
    if r.Success? {
      ScanListsQueued(svc.repo.kv, queue);
      PageIsNewest(svc.View().records, queue, FullScan(svc.repo.kv, o), n, r.value);
      AskedByPriority(queue, r.value);
    }
  }

  lemma StatsLeaveRecords(kv: KV, stats: QueueStats)
    requires Live(kv)
    ensures var next := kv[KStats(stats.queueID) := StatsRow(stats)];
            Live(next) && (Complete(kv) ==> Complete(next)) && ById(next) == ById(kv)
  {
    var key := KStats(stats.queueID);
    var next := kv[key := StatsRow(stats)];
    RowsApart(key);
    assert forall k | k in next && k != key :: k in kv && next[k] == kv[k];
    assert Records(next) == Records(kv);
    SameRecords(kv, next);
    forall k | k in next && IsIndexKey(k) ensures k in Expected(next, IdOf(k)) && next[k] == Mark {
      assert k in Expected(kv, IdOf(k));
    }
    if Complete(kv) {
      assert forall k | k in next && next[k].Record? :: next[k] == kv[k] && Derived(kv[k].d) <= kv.Keys;
    }
  }

  lemma SameRecords(kv: KV, next: KV)
    requires Records(next) == Records(kv) && WellFormed(kv)
    requires forall k | IsPrimaryKey(k) :: k in next <==> k in kv
    requires forall k | k in kv && IsPrimaryKey(k) :: next[k] == kv[k]
    ensures WellFormed(next) && ById(next) == ById(kv)
    ensures forall id :: HasRecord(next, id) == HasRecord(kv, id) && Expected(next, id) == Expected(kv, id)
  {
    assert forall k | k in next && next[k].Record? :: k in Records(next) && k in Records(kv);
    assert forall k | k in kv && kv[k].Record? :: k in Records(kv) && k in Records(next);
    forall id ensures HasRecord(next, id) == HasRecord(kv, id) && Expected(next, id) == Expected(kv, id) {
      assert IsPrimaryKey(KDownload(id));
    }
    forall id ensures id in ById(next) <==> id in ById(kv)
              ensures id in ById(kv) ==> ById(next)[id] == ById(kv)[id]
    {
      Lookup(kv, id);
      Lookup(next, id);
    }
  }

  /** The four counts that are stored for a queue. */
  ghost function StatsOf(records: map<string, Download>, queue: string): QueueStats {
    QueueStats(queue, |InState(records, queue, QUEUED)|, |InState(records, queue, RUNNING)|,
               |InState(records, queue, COMPLETED)|, |InState(records, queue, FAILED)|)
  }

  /** The stored statistics of the queue are these. */
  ghost predicate StatsSaved(kv: KV, stats: QueueStats) {
    KStats(stats.queueID) in kv && kv[KStats(stats.queueID)] == StatsRow(stats)
  }

  lemma StatsStaySaved(kv: KV, next: KV, stats: QueueStats)
    requires StatsSaved(kv, stats) && OtherRowsKept(kv, next)
    ensures StatsSaved(next, stats)
  {
    assert P_STATS <= KStats(stats.queueID);
    RowsApart(KStats(stats.queueID));
  }

  /** A count that fails is taken for what it had reached. */
  method CountAll(svc: DownloadService, queue: string, ctx: Context := Free) returns (stats: QueueStats, clean: bool)
    requires svc.Valid() && Complete(svc.repo.kv) && queue != ""
    ensures clean ==> stats == StatsOf(svc.View().records, queue)
    ensures stats.queueID == queue && stats.running <= StatsOf(svc.View().records, queue).running
    ensures ctx == Fixed(false) ==> clean
  {
    var running, r := CountIn(svc, queue, RUNNING, ctx);
    var queued, q := CountIn(svc, queue, QUEUED, ctx);
    var completed, c := CountIn(svc, queue, COMPLETED, ctx);
    var failed, f := CountIn(svc, queue, FAILED, ctx);
    clean := r && q && c && f;
    stats := QueueStats(queue, queued, running, completed, failed);
  }

  method SaveStats(svc: DownloadService, stats: QueueStats, ctx: Context := Free) returns (clean: bool)
    requires svc.Valid() && Complete(svc.repo.kv)
    modifies svc.repo
    ensures svc.Valid() && Complete(svc.repo.kv) && svc.View() == old(svc.View())
    ensures clean ==> svc.repo.kv == old(svc.repo.kv)[KStats(stats.queueID) := StatsRow(stats)]
    ensures ctx == Fixed(false) ==> clean
  {
    StatsLeaveRecords(svc.repo.kv, stats);
    var r := svc.repo.SaveQueueStats(stats, ctx);
    clean := r.Ok?;
  }

  method CountAndSave(svc: DownloadService, queue: string, ctx: Context := Free) returns (running: nat, clean: bool)
    requires svc.Valid() && Complete(svc.repo.kv) && queue != ""
    modifies svc.repo
    ensures svc.Valid() && Complete(svc.repo.kv) && svc.View() == old(svc.View())
    ensures clean ==> running == |InState(svc.View().records, queue, RUNNING)|
    ensures clean ==> svc.repo.kv == old(svc.repo.kv)[KStats(queue) := StatsRow(StatsOf(svc.View().records, queue))]
    ensures clean ==> StatsSaved(svc.repo.kv, StatsOf(svc.View().records, queue))
    ensures ctx == Fixed(false) ==> clean
  {
    var stats, counted := CountAll(svc, queue, ctx);
    var saved := SaveStats(svc, stats, ctx);
    running, clean := stats.running, counted && saved;
  }

  // ---- Starting ----

  predicate IsQueued(st: State, id: string) { HasStatus(st, id, QUEUED) }

  method StartOne(svc: DownloadService, id: string, now: Nanos, ctx: Context := Free) returns (ok: bool, ghost steps: seq<Step>)
    requires svc.Valid() && Complete(svc.repo.kv) && IsQueued(svc.View(), id)
    modifies svc, svc.repo
    ensures svc.Valid() && Complete(svc.repo.kv)
    ensures OtherRowsKept(old(svc.repo.kv), svc.repo.kv)
    ensures svc.View() == if ok then StartNext(old(svc.View()), id) else old(svc.View())
    ensures steps == if ok then [StartQueued(id)] else []
    ensures svc.View() == After(old(svc.View()), steps)
    ensures ctx == Fixed(false) ==> ok
  {
    QueuedStart(svc.View(), id);
    var r := svc.Start(id, now, ctx);
    ok := r.Ok?;
    steps := if ok then [StartQueued(id)] else [];
  }

  lemma QueuedStart(st: State, id: string)
    requires IsQueued(st, id)
    ensures After(st, [StartQueued(id)]) == StartNext(st, id) == Next(st, Step.Start(id)) && After(st, []) == st
  {
    AfterOne(st, StartQueued(id));
  }

  lemma StartTouchesOne(st: State, id: string, other: string)
    requires other != id
    ensures IsQueued(StartNext(st, id), other) == IsQueued(st, other)
  {
  }

  lemma PassedOver(before: State, st: State, picked: set<string>, id: string)
    requires StartedAll(before, st, picked) && id in before.cancels
    ensures StartedAll(before, st, picked + {id})
  {
    assert picked + {id} - before.cancels.Keys == picked - before.cancels.Keys;
    assert before.cancels.Keys + picked == before.cancels.Keys + (picked + {id});
  }

  lemma LaunchedToo(before: State, st: State, picked: set<string>, id: string)
    requires StartedAll(before, st, picked) && id !in picked && id in before.records && id !in before.cancels
    ensures StartedAll(before, Launch(st, id), picked + {id})
  {
    var launched := picked - before.cancels.Keys;
    OneMorePicked(before.cancels.Keys, picked, id);
    assert Launch(st, id).records == WithStatus(before.records, launched + {id}, RUNNING) by {
      WithOneMore(before.records, launched, id);
    }
    LaunchedOneMore(before, st, launched, id);
    MakeStartedAll(before, Launch(st, id), picked + {id}, launched + {id});
  }

  lemma OneMorePicked(keys: set<string>, picked: set<string>, id: string)
    requires id !in keys && id !in picked
    ensures picked + {id} - keys == picked - keys + {id} && id !in picked - keys
    ensures keys + picked + {id} == keys + (picked + {id})
  {
  }

  lemma MakeStartedAll(before: State, after: State, picked: set<string>, launched: set<string>)
    requires launched == picked - before.cancels.Keys
    requires after.records == WithStatus(before.records, launched, RUNNING)
    requires after.cancels.Keys == before.cancels.Keys + picked && NewRuns(before, after, launched)
    ensures StartedAll(before, after, picked)
  {
  }

  lemma StartedOneMore(before: State, st: State, picked: set<string>, id: string)
    requires StartedAll(before, st, picked) && id !in picked && id in before.records
    ensures StartedAll(before, StartNext(st, id), picked + {id})
  {
    assert id in st.cancels <==> id in before.cancels;
    if id in before.cancels {
      PassedOver(before, st, picked, id);
    } else {
      LaunchedToo(before, st, picked, id);
    }
  }

  lemma WithOneMore(records: map<string, Download>, ids: set<string>, id: string)
    requires id in records && id !in ids
    ensures WithStatus(records, ids + {id}, RUNNING) == UpdateStatus(WithStatus(records, ids, RUNNING), id, RUNNING)
  {
  }

  lemma LaunchedOneMore(before: State, st: State, launched: set<string>, id: string)
    requires NewRuns(before, st, launched) && id !in launched && id in st.records
    ensures NewRuns(before, Launch(st, id), launched + {id})
    ensures Launch(st, id).cancels.Keys == st.cancels.Keys + {id}
  {
  }

  /** Starts come in order of priority, and the newer one of two that are equal first. */
  ghost predicate StartsInOrder(st: State, steps: seq<Step>) {
    forall i, j | 0 <= i < j < |steps| ::
      && steps[i].StartQueued? && steps[j].StartQueued? && steps[i].id in st.records && steps[j].id in st.records
      && var a, b := st.records[steps[i].id], st.records[steps[j].id];
         a.priority > b.priority || (a.priority == b.priority && InTime(true, a.createdAt, b.createdAt))
  }

  ghost predicate StartsOf(ds: seq<Download>, j: nat, steps: seq<Step>) {
    |steps| == j <= |ds| && forall i | 0 <= i < j :: steps[i] == StartQueued(ds[i].id)
  }

  lemma StartsOfMore(ds: seq<Download>, j: nat, steps: seq<Step>)
    requires j < |ds|
    ensures StartsOf(ds, j, steps) ==> StartsOf(ds, j + 1, steps + [StartQueued(ds[j].id)])
  {
  }

  lemma StartedInOrder(st: State, ds: seq<Download>, steps: seq<Step>)
    requires ByPriorityDown(ds) && Unchanged(st, ds, 0) && StartsOf(ds, |ds|, steps)
    ensures StartsInOrder(st, steps)
  {
    forall i, j | 0 <= i < j < |steps|
      ensures st.records[steps[i].id] == Untimed(ds[i]) && st.records[steps[j].id] == Untimed(ds[j])
      ensures ds[i].priority > ds[j].priority || (ds[i].priority == ds[j].priority && InTime(true, ds[i].createdAt, ds[j].createdAt))
    {
    }
  }

  /** From the j-th on, the downloads of a page are still queued. */
  ghost predicate QueuedFrom(st: State, ds: seq<Download>, j: nat) {
    forall i | j <= i < |ds| :: IsQueued(st, ds[i].id)
  }

  /** The first j downloads of a page have been started. */
  ghost predicate StartedFirst(before: State, st: State, ds: seq<Download>, j: nat)
    requires j <= |ds|
  {
    StartedAll(before, st, IdSet(ds[..j]))
  }

  lemma StartedNext(before: State, st: State, ds: seq<Download>, j: nat)
    requires j < |ds| && DistinctIds(ds) && QueuedFrom(st, ds, j)
    ensures QueuedFrom(st, ds, j + 1) && QueuedFrom(StartNext(st, ds[j].id), ds, j + 1)
    ensures StartedFirst(before, st, ds, j) ==> StartedFirst(before, StartNext(st, ds[j].id), ds, j + 1)
  {
    forall i | j < i < |ds| ensures IsQueued(StartNext(st, ds[j].id), ds[i].id) {
      StartTouchesOne(st, ds[j].id, ds[i].id);
    }
    if StartedFirst(before, st, ds, j) {
      NextId(ds, j);
      StartedOneMore(before, st, IdSet(ds[..j]), ds[j].id);
    }
  }

  method StartNth(svc: DownloadService, ds: seq<Download>, j: nat, now: Nanos, ghost before: State, ghost sofar: seq<Step>, ctx: Context := Free)
    returns (ok: bool, ghost steps: seq<Step>)
    requires svc.Valid() && Complete(svc.repo.kv) && DistinctIds(ds) && j < |ds| && QueuedFrom(svc.View(), ds, j)
    requires OfTick(sofar) && svc.View() == After(before, sofar)
    modifies svc, svc.repo
    ensures svc.Valid() && Complete(svc.repo.kv) && QueuedFrom(svc.View(), ds, j + 1)
    ensures OtherRowsKept(old(svc.repo.kv), svc.repo.kv)
    ensures ok && StartedFirst(before, old(svc.View()), ds, j) ==> StartedFirst(before, svc.View(), ds, j + 1)
    ensures ok && StartsOf(ds, j, sofar) ==> StartsOf(ds, j + 1, steps)
    ensures OfTick(steps) && svc.View() == After(before, steps)
    ensures ctx == Fixed(false) ==> ok
  {
    StartedNext(before, svc.View(), ds, j);
    StartsOfMore(ds, j, sofar);
    ghost var more;
    ok, more := StartOne(svc, ds[j].id, now, ctx);
    AfterAppend(before, sofar, more);
    steps := sofar + more;
  }

  method StartAll(svc: DownloadService, ds: seq<Download>, now: Nanos, ctx: Context := Free) returns (clean: bool, ghost steps: seq<Step>)
    requires svc.Valid() && Complete(svc.repo.kv) && DistinctIds(ds) && QueuedFrom(svc.View(), ds, 0)
    modifies svc, svc.repo
    ensures svc.Valid() && Complete(svc.repo.kv)
    ensures OtherRowsKept(old(svc.repo.kv), svc.repo.kv)
    ensures clean ==> StartedAll(old(svc.View()), svc.View(), IdSet(ds)) && StartsOf(ds, |ds|, steps)
    ensures OfTick(steps) && svc.View() == After(old(svc.View()), steps)
    ensures ctx == Fixed(false) ==> clean
  {
    ghost var before := svc.View();
    clean, steps := true, [];
    NothingStarted(before);
    for j := 0 to |ds|
      invariant svc.Valid() && Complete(svc.repo.kv) && QueuedFrom(svc.View(), ds, j)
      invariant ctx == Fixed(false) ==> clean
      invariant clean ==> StartedFirst(before, svc.View(), ds, j) && StartsOf(ds, j, steps)
      invariant OtherRowsKept(old(svc.repo.kv), svc.repo.kv)
      invariant OfTick(steps) && svc.View() == After(before, steps)
    {
      var ok;
      ok, steps := StartNth(svc, ds, j, now, before, steps, ctx);
      clean := clean && ok;
    }
    assert ds[..|ds|] == ds;
  }

  lemma NothingStarted(st: State)
    ensures StartedAll(st, st, {})
  {
    assert {} - st.cancels.Keys == {};
    assert WithStatus(st.records, {}, RUNNING) == st.records;
  }

  lemma NextId(ds: seq<Download>, j: nat)
    requires DistinctIds(ds) && j < |ds|
    ensures IdSet(ds[..j + 1]) == IdSet(ds[..j]) + {ds[j].id} && ds[j].id !in IdSet(ds[..j])
  {
    IdSetLast(ds[..j + 1]);
    assert ds[..j + 1][..j] == ds[..j];
  }

  /** Fills the free slots of a queue. */
  method FillQueue(svc: DownloadService, queue: string, n: nat, now: Nanos, ctx: Context := Free) returns (clean: bool, ghost steps: seq<Step>)
    requires svc.Valid() && Complete(svc.repo.kv) && queue != "" && n > 0
    modifies svc, svc.repo
    ensures svc.Valid() && Complete(svc.repo.kv)
    ensures OtherRowsKept(old(svc.repo.kv), svc.repo.kv)
    ensures clean ==> Filled(old(svc.View()), svc.View(), queue, n) && StartsInOrder(old(svc.View()), steps)
    ensures OfTick(steps) && svc.View() == After(old(svc.View()), steps)
    ensures ctx == Fixed(false) ==> clean
  {
    var list := ListQueued(svc, queue, n, ctx);
    if list.Failure? {
      return false, [];
    }
    AllQueued(svc.View(), queue, list.value);
    ghost var before := svc.View();
    clean, steps := StartAll(svc, list.value, now, ctx);
    if clean {
      StartedInOrder(before, list.value, steps);
    }
  }

  lemma AllQueued(st: State, queue: string, ds: seq<Download>)
    requires IdSet(ds) <= InState(st.records, queue, QUEUED)
    ensures QueuedFrom(st, ds, 0)
  {
    forall i | 0 <= i < |ds| ensures IsQueued(st, ds[i].id) {
      assert ds[i].id in IdSet(ds);
    }
  }

  lemma NothingFilled(st: State, queue: string)
    ensures Filled(st, st, queue, 0)
  {
    NothingStarted(st);
    assert AreNewest(st.records, queue, 0, {});
  }

  /** One queue that is not paused. */
  method ServeQueue(svc: DownloadService, q: Queue, now: Nanos, ctx: Context := Free) returns (clean: bool, ghost steps: seq<Step>)
    requires svc.Valid() && Complete(svc.repo.kv) && q.id != ""
    modifies svc, svc.repo
    ensures svc.Valid() && Complete(svc.repo.kv)
    ensures clean ==> StartsInOrder(old(svc.View()), steps)
    ensures clean ==> Served(old(svc.View()), svc.View(), q)
    ensures clean ==>
              var records := old(svc.View()).records;
              StatsSaved(svc.repo.kv, QueueStats(q.id, |InState(records, q.id, QUEUED)|, |InState(records, q.id, RUNNING)|,
                                                 |InState(records, q.id, COMPLETED)|, |InState(records, q.id, FAILED)|))
    ensures OfTick(steps) && svc.View() == After(old(svc.View()), steps)
    ensures ctx == Fixed(false) ==> clean
  {
    ghost var before := svc.View();
    var concurrency := if q.concurrency <= 0 then 1 else q.concurrency;
    var running, counted := CountAndSave(svc, q.id, ctx);
    var toStart := concurrency - running;
    assert counted ==> Slots(before.records, q) == if toStart <= 0 then 0 else toStart;
    if toStart <= 0 {
      NothingFilled(before, q.id);
      return counted, [];
    }
    ghost var saved := svc.repo.kv;
    clean, steps := FillQueue(svc, q.id, toStart, now, ctx);
    clean := clean && counted;
    if clean {
      StatsStaySaved(saved, svc.repo.kv, StatsOf(before.records, q.id));
    }
  }

  // ---- Stale downloads ----

  predicate IsStale(d: Download, now: Nanos, staleAfter: int) {
    d.updatedAt.Zero? || now - d.updatedAt.ns > staleAfter
  }

  ghost function StaleRunning(kv: KV, now: Nanos, staleAfter: int): set<string> {
    set k | k in kv && kv[k].Record? && kv[k].d.status == RUNNING
            && (kv[k].d.updatedAt.Zero? || now - kv[k].d.updatedAt.ns > staleAfter) :: kv[k].d.id
  }

  ghost function StaleIds(ds: seq<Download>, now: Nanos, staleAfter: int): set<string> {
    set i | 0 <= i < |ds| && IsStale(ds[i], now, staleAfter) :: ds[i].id
  }

  ghost predicate AllStored(kv: KV, ds: seq<Download>) {
    forall i | 0 <= i < |ds| :: HasRecord(kv, ds[i].id) && RecordOf(kv, ds[i].id) == ds[i]
  }

  ghost function RunningAnywhere(records: map<string, Download>): set<string> {
    set id | id in records && records[id].status == RUNNING
  }

  /** The running downloads as the created-at or status index lists them. */
  lemma RunningScan(kv: KV)
    requires Consistent(kv)
    ensures var s := FullScan(kv, RUNNING_ANYWHERE);
            && AllStored(kv, s)
            && (forall i | 0 <= i < |s| :: s[i].status == RUNNING)
            && (forall i, j | 0 <= i < j < |s| :: s[i].id != s[j].id)
            && (forall id | id in RunningAnywhere(ById(kv)) :: exists i :: 0 <= i < |s| && s[i].id == id)
  {
    var s := FullScan(kv, RUNNING_ANYWHERE);
    AccessPathIndependence(kv, RUNNING_ANYWHERE);
    forall i | 0 <= i < |s|
      ensures HasRecord(kv, s[i].id) && RecordOf(kv, s[i].id) == s[i] && s[i].status == RUNNING
    {
      assert s[i] in Matching(kv, RUNNING_ANYWHERE);
      MatchingIsStored(kv, RUNNING_ANYWHERE, s[i]);
    }
    forall i, j | 0 <= i < j < |s| ensures s[i].id != s[j].id {
      assert Before(s[i], s[j]);
      BeforeTotal(s[i], s[i]);
    }
    forall id | id in RunningAnywhere(ById(kv)) ensures exists i :: 0 <= i < |s| && s[i].id == id {
      Lookup(kv, id);
      assert RecordOf(kv, id) in Matching(kv, RUNNING_ANYWHERE);
      var i :| 0 <= i < |s| && s[i] == RecordOf(kv, id);
    }
  }

  lemma MatchingIsStored(kv: KV, o: Options, d: Download)
    requires WellFormed(kv) && d in Matching(kv, o)
    ensures HasRecord(kv, d.id) && RecordOf(kv, d.id) == d && Matches(d, o)
  {
    var k :| k in kv && kv[k].Record? && Matches(kv[k].d, o) && kv[k].d == d;
    assert k == KDownload(d.id);
  }

  /** A page of running downloads: with no more of them than the limit, it has them all. */
  lemma RunningPage(kv: KV, ds: seq<Download>)
    requires Consistent(kv)
    requires multiset(ds) == multiset(Page(FullScan(kv, RUNNING_ANYWHERE), STALE_LIMIT, 0))
    ensures DistinctIds(ds) && AllStored(kv, ds) && (forall i | 0 <= i < |ds| :: ds[i].status == RUNNING)
    ensures |RunningAnywhere(ById(kv))| <= 1000 ==> RunningAnywhere(ById(kv)) <= IdSet(ds)
  {
    var s := FullScan(kv, RUNNING_ANYWHERE);
    RunningScan(kv);
    var m := if STALE_LIMIT < |s| then STALE_LIMIT else |s|;
    assert s[..|s|] == s;
    assert Page(s, STALE_LIMIT, 0) == s[..m];
    DistinctPermuted(s[..m], ds);
    SameMembers(s[..m], ds);
    forall i | 0 <= i < |ds| ensures HasRecord(kv, ds[i].id) && RecordOf(kv, ds[i].id) == ds[i] && ds[i].status == RUNNING {
      assert ds[i] in s[..m];
    }
    forall id | id in IdSet(s) ensures id in RunningAnywhere(ById(kv)) {
      var i :| 0 <= i < |s| && s[i].id == id;
      Lookup(kv, id);
    }
    assert RunningAnywhere(ById(kv)) == IdSet(s);
    IdSetSize(s);
  }

  /** Requeues one of the running downloads if it is stale. */
  method RequeueOne(svc: DownloadService, d: Download, now: Nanos, staleAfter: int, ctx: Context := Free) returns (ok: bool, ghost steps: seq<Step>)
    requires svc.Valid() && Complete(svc.repo.kv) && d.createdAt.At? && d.status == RUNNING
    requires d.id in svc.View().records && svc.View().records[d.id] == Untimed(d)
    modifies svc.repo
    ensures svc.Valid() && Complete(svc.repo.kv)
    ensures svc.View() == if ok then RequeueNext(old(svc.View()), d, now, staleAfter) else old(svc.View())
    ensures OfTick(steps) && svc.View() == After(old(svc.View()), steps)
    ensures ctx == Fixed(false) ==> ok
  {
    RequeuePersists(svc.View(), d);
    if !IsStale(d, now, staleAfter) {
      return true, [];
    }
    var r := svc.Persist(d.(status := QUEUED), now, ctx);
    ok := r.Ok?;
    steps := if ok then [Requeue(d.id)] else [];
  }

  function RequeueNext(st: State, d: Download, now: Nanos, staleAfter: int): State {
    if IsStale(d, now, staleAfter) then Next(st, Requeue(d.id)) else st
  }

  lemma RequeuePersists(st: State, d: Download)
    requires d.id in st.records && st.records[d.id] == Untimed(d) && d.status == RUNNING
    ensures st.(records := Persist(st.records, Untimed(d.(status := QUEUED)))) == Next(st, Requeue(d.id))
    ensures After(st, [Requeue(d.id)]) == Next(st, Requeue(d.id)) && After(st, []) == st
  {
    AfterOne(st, Requeue(d.id));
  }

  /** The downloads of a page, from the i-th on, are as they were read. */
  ghost predicate Unchanged(st: State, ds: seq<Download>, i: nat) {
    forall j | i <= j < |ds| :: ds[j].id in st.records && st.records[ds[j].id] == Untimed(ds[j])
  }

  ghost predicate RequeuedAll(before: State, after: State, ids: set<string>) {
    after == before.(records := WithStatus(before.records, ids, QUEUED))
  }

  lemma RequeuedOneMore(before: State, st: State, ds: seq<Download>, i: nat, now: Nanos, staleAfter: int)
    requires i < |ds| && ds[i].status == RUNNING && Unchanged(st, ds, i)
    requires RequeuedAll(before, st, StaleIds(ds[..i], now, staleAfter))
    ensures RequeuedAll(before, RequeueNext(st, ds[i], now, staleAfter), StaleIds(ds[..i + 1], now, staleAfter))
  {
    StaleStep(ds, i, now, staleAfter);
    if IsStale(ds[i], now, staleAfter) {
      RequeuedToo(before, st, StaleIds(ds[..i], now, staleAfter), ds[i].id);
    }
  }

  lemma RequeuedToo(before: State, st: State, ids: set<string>, id: string)
    requires RequeuedAll(before, st, ids) && id in st.records && st.records[id].status == RUNNING
    ensures RequeuedAll(before, Next(st, Requeue(id)), ids + {id})
  {
  }

  lemma UnchangedNext(st: State, ds: seq<Download>, i: nat, now: Nanos, staleAfter: int)
    requires i < |ds| && DistinctIds(ds) && Unchanged(st, ds, i)
    ensures Unchanged(st, ds, i + 1) && Unchanged(RequeueNext(st, ds[i], now, staleAfter), ds, i + 1)
  {
  }

  /** The state after the first i downloads of a page, as far as every call succeeded. */
  ghost predicate RequeuedFirst(before: State, st: State, ds: seq<Download>, i: nat, now: Nanos, staleAfter: int)
    requires i <= |ds|
  {
    RequeuedAll(before, st, StaleIds(ds[..i], now, staleAfter))
  }

  method RequeueNth(svc: DownloadService, ds: seq<Download>, i: nat, now: Nanos, staleAfter: int,
                    ghost before: State, ghost sofar: seq<Step>, ctx: Context := Free)
    returns (ok: bool, ghost steps: seq<Step>)
    requires svc.Valid() && Complete(svc.repo.kv) && DistinctIds(ds) && Unchanged(svc.View(), ds, i)
    requires i < |ds| && ds[i].createdAt.At? && ds[i].status == RUNNING
    requires OfTick(sofar) && svc.View() == After(before, sofar)
    modifies svc.repo
    ensures svc.Valid() && Complete(svc.repo.kv) && Unchanged(svc.View(), ds, i + 1)
    ensures ok && RequeuedFirst(before, old(svc.View()), ds, i, now, staleAfter)
            ==> RequeuedFirst(before, svc.View(), ds, i + 1, now, staleAfter)
    ensures OfTick(steps) && svc.View() == After(before, steps)
    ensures ctx == Fixed(false) ==> ok
  {
    ghost var st := svc.View();
    UnchangedNext(st, ds, i, now, staleAfter);
    if RequeuedFirst(before, st, ds, i, now, staleAfter) {
      RequeuedOneMore(before, st, ds, i, now, staleAfter);
    }
    ghost var more;
    ok, more := RequeueOne(svc, ds[i], now, staleAfter, ctx);
    AfterAppend(before, sofar, more);
    steps := sofar + more;
  }

  method RequeuePage(svc: DownloadService, ds: seq<Download>, now: Nanos, staleAfter: int, ctx: Context := Free)
    returns (clean: bool, ghost steps: seq<Step>)
    requires svc.Valid() && Complete(svc.repo.kv) && DistinctIds(ds) && Unchanged(svc.View(), ds, 0)
    requires forall i | 0 <= i < |ds| :: ds[i].createdAt.At? && ds[i].status == RUNNING
    modifies svc.repo
    ensures svc.Valid() && Complete(svc.repo.kv)
    ensures clean ==> RequeuedAll(old(svc.View()), svc.View(), StaleIds(ds, now, staleAfter))
    ensures OfTick(steps) && svc.View() == After(old(svc.View()), steps)
    ensures ctx == Fixed(false) ==> clean
  {
    ghost var before := svc.View();
    clean, steps := true, [];
    NoneStale(before);
    for i := 0 to |ds|
      invariant svc.Valid() && Complete(svc.repo.kv) && Unchanged(svc.View(), ds, i)
      invariant ctx == Fixed(false) ==> clean
      invariant clean ==> RequeuedFirst(before, svc.View(), ds, i, now, staleAfter)
      invariant OfTick(steps) && svc.View() == After(before, steps)
    {
      var ok;
      ok, steps := RequeueNth(svc, ds, i, now, staleAfter, before, steps, ctx);
      clean := clean && ok;
    }
    assert ds[..|ds|] == ds;
  }

  lemma NoneStale(st: State)
    ensures RequeuedAll(st, st, {})
  {
    assert WithStatus(st.records, {}, QUEUED) == st.records;
  }

  lemma StaleStep(ds: seq<Download>, i: nat, now: Nanos, staleAfter: int)
    requires i < |ds|
    ensures StaleIds(ds[..i + 1], now, staleAfter)
         == StaleIds(ds[..i], now, staleAfter) + (if IsStale(ds[i], now, staleAfter) then {ds[i].id} else {})
  {
    var a, b := ds[..i + 1], ds[..i];
    assert forall j | 0 <= j < i :: a[j] == b[j] == ds[j];
    forall id | id in StaleIds(a, now, staleAfter)
      ensures id in StaleIds(b, now, staleAfter) || (IsStale(ds[i], now, staleAfter) && id == ds[i].id)
    {
      var j :| 0 <= j < |a| && IsStale(a[j], now, staleAfter) && a[j].id == id;
      assert j < i ==> b[j].id == id;
    }
    forall id | id in StaleIds(b, now, staleAfter) ensures id in StaleIds(a, now, staleAfter) {
      var j :| 0 <= j < |b| && IsStale(b[j], now, staleAfter) && b[j].id == id;
      assert a[j].id == id;
    }
    assert IsStale(a[i], now, staleAfter) ==> a[i].id in StaleIds(a, now, staleAfter);
  }

  /** Only stale running downloads go back, and all of them if no more than the limit are running. */
  ghost predicate Recovered(kv: KV, before: State, after: State, now: Nanos, staleAfter: int) {
    exists ids :: RequeuedAll(before, after, ids) && ids <= StaleRunning(kv, now, staleAfter)
      && (|RunningAnywhere(before.records)| <= 1000 ==> ids == StaleRunning(kv, now, staleAfter))
  }

  lemma StaleIdsAreStale(kv: KV, ds: seq<Download>, now: Nanos, staleAfter: int)
    requires WellFormed(kv) && AllStored(kv, ds) && forall i | 0 <= i < |ds| :: ds[i].status == RUNNING
    ensures StaleIds(ds, now, staleAfter) <= StaleRunning(kv, now, staleAfter)
    ensures RunningAnywhere(ById(kv)) <= IdSet(ds) ==> StaleIds(ds, now, staleAfter) == StaleRunning(kv, now, staleAfter)
  {
    forall id | id in StaleIds(ds, now, staleAfter) ensures id in StaleRunning(kv, now, staleAfter) {
      var i :| 0 <= i < |ds| && IsStale(ds[i], now, staleAfter) && ds[i].id == id;
      assert kv[KDownload(id)].d == ds[i];
    }
    if RunningAnywhere(ById(kv)) <= IdSet(ds) {
      forall id | id in StaleRunning(kv, now, staleAfter) ensures id in StaleIds(ds, now, staleAfter) {
        var k :| k in kv && kv[k].Record? && kv[k].d.status == RUNNING && kv[k].d.id == id
                 && (kv[k].d.updatedAt.Zero? || now - kv[k].d.updatedAt.ns > staleAfter);
        Lookup(kv, id);
        assert k == KDownload(id) && id in RunningAnywhere(ById(kv));
        var i :| 0 <= i < |ds| && ds[i].id == id;
        assert ds[i] == kv[k].d;
      }
    }
  }

  lemma PageUnchanged(svc: DownloadService, ds: seq<Download>)
    requires svc.Valid() && AllStored(svc.repo.kv, ds)
    ensures Unchanged(svc.View(), ds, 0) && forall i | 0 <= i < |ds| :: ds[i].createdAt.At?
  {
    forall i | 0 <= i < |ds|
      ensures ds[i].id in svc.View().records && svc.View().records[ds[i].id] == Untimed(ds[i]) && ds[i].createdAt.At?
    {
      Lookup(svc.repo.kv, ds[i].id);
      IdOfRecord(svc.repo.kv, ds[i].id);
    }
  }

  /** Running downloads that have not been updated for a while go back to their queue. */
  method RequeueStale(svc: DownloadService, now: Nanos, staleAfter: int, ctx: Context := Free) returns (clean: bool, ghost steps: seq<Step>)
    requires svc.Valid() && Complete(svc.repo.kv)
    modifies svc.repo
    ensures svc.Valid() && Complete(svc.repo.kv)
    ensures clean ==> Recovered(old(svc.repo.kv), old(svc.View()), svc.View(), now, staleAfter)
    ensures OfTick(steps) && svc.View() == After(old(svc.View()), steps)
    ensures ctx == Fixed(false) ==> clean
  {
    var list := svc.repo.ListDownloads(RUNNING_ANYWHERE, STALE_LIMIT, 0, ctx);
    if list.Failure? {
      return false, [];
    }
    RunningPage(svc.repo.kv, list.value);
    StaleIdsAreStale(svc.repo.kv, list.value, now, staleAfter);
    PageUnchanged(svc, list.value);
    clean, steps := RequeuePage(svc, list.value, now, staleAfter, ctx);
  }

  /** The queues served one after the other. */
  ghost predicate Ticked(before: State, after: State, queues: seq<Queue>)
    decreases |queues|
  {
    if queues == [] then after == before
    else
      var earlier, last := queues[..|queues| - 1], queues[|queues| - 1];
      exists mid :: Ticked(before, mid, earlier) && LastTurn(mid, after, last)
  }

  ghost predicate LastTurn(mid: State, after: State, q: Queue) {
    if q.paused then after == mid else Served(mid, after, q)
  }

  method ServeQueues(svc: DownloadService, queues: seq<Queue>, now: Nanos, ctx: Context := Free) returns (clean: bool, ghost steps: seq<Step>)
    requires svc.Valid() && Complete(svc.repo.kv) && forall i | 0 <= i < |queues| :: queues[i].id != ""
    modifies svc, svc.repo
    ensures svc.Valid() && Complete(svc.repo.kv)
    ensures clean ==> Ticked(old(svc.View()), svc.View(), queues)
    ensures OfTick(steps) && svc.View() == After(old(svc.View()), steps)
    ensures ctx == Fixed(false) ==> clean
  {
    clean, steps := true, [];
    for i := 0 to |queues|
      invariant svc.Valid() && Complete(svc.repo.kv)
      invariant ctx == Fixed(false) ==> clean
      invariant clean ==> Ticked(old(svc.View()), svc.View(), queues[..i])
      invariant OfTick(steps) && svc.View() == After(old(svc.View()), steps)
    {
      assert queues[..i + 1][..i] == queues[..i];
      ghost var st := svc.View();
      if queues[i].paused {
        assert clean ==> LastTurn(st, st, queues[i]);
        continue;
      }
      var ok, more := ServeQueue(svc, queues[i], now, ctx);
      assert ok ==> LastTurn(st, svc.View(), queues[i]);
      AfterAppend(old(svc.View()), steps, more);
      steps := steps + more;
      clean := clean && ok;
    }
    assert queues[..|queues|] == queues;
  }

  /** One tick. It is clean when no repository call failed; the code goes on with what it has when
      one does. Clean or not, it is a run of requeue and start steps. */
  method Tick(svc: DownloadService, queues: seq<Queue>, now: Nanos, staleAfter: int, ctx: Context := Free)
    returns (clean: bool, ghost mid: State, ghost steps: seq<Step>)
    requires svc.Valid() && Complete(svc.repo.kv) && forall i | 0 <= i < |queues| :: queues[i].id != ""
    modifies svc, svc.repo
    ensures svc.Valid() && Complete(svc.repo.kv)
    ensures clean ==> Recovered(old(svc.repo.kv), old(svc.View()), mid, now, staleAfter) && Ticked(mid, svc.View(), queues)
    ensures OfTick(steps) && svc.View() == After(old(svc.View()), steps)
    ensures ctx == Fixed(false) ==> clean
  {
    ghost var before := svc.View();
    ghost var more;
    clean, steps := RequeueStale(svc, now, staleAfter, ctx);
    mid := svc.View();
    var served;
    served, more := ServeQueues(svc, queues, now, ctx);
    AfterAppend(before, steps, more);
    steps := steps + more;
    clean := clean && served;
  }
}
