/**
 What a tick of the scheduler achieves, for whatever queues and downloads
 (internal/service/workers.go:76-108).
 */
module TickLaws {
  import opened Text
  import opened Models
  import opened Listing
  import opened Lifecycle
  import opened Scheduler

  /** The downloads of a queue, and whether they have cancel entries, are the same in two states. */
  ghost predicate SameQueue(a: State, b: State, queue: string) {
    && (forall id :: OfQueue(a, id, queue) <==> OfQueue(b, id, queue))
    && (forall id | OfQueue(a, id, queue) :: a.records[id] == b.records[id] && (id in a.cancels <==> id in b.cancels))
  }

  predicate OfQueue(st: State, id: string, queue: string) { id in st.records && st.records[id].queueID == queue }

  lemma SameQueueCounts(a: State, b: State, queue: string)
    requires SameQueue(a, b, queue)
    ensures forall status :: InState(a.records, queue, status) == InState(b.records, queue, status)
    ensures forall n, picked :: AreNewest(a.records, queue, n, picked) <==> AreNewest(b.records, queue, n, picked)
  {
    forall status ensures InState(a.records, queue, status) == InState(b.records, queue, status) {
      forall id ensures id in InState(a.records, queue, status) <==> id in InState(b.records, queue, status) {
        assert OfQueue(a, id, queue) <==> OfQueue(b, id, queue);
      }
    }
    assert forall id | id in InState(a.records, queue, QUEUED) :: OfQueue(a, id, queue) && a.records[id] == b.records[id];
  }

  /** Starting downloads of other queues. */
  lemma StartedElsewhere(before: State, after: State, picked: set<string>, queue: string)
    requires StartedAll(before, after, picked)
    requires forall id | id in picked :: id in before.records && before.records[id].queueID != queue
    ensures SameQueue(before, after, queue)
  {
    forall id
      ensures OfQueue(before, id, queue) <==> OfQueue(after, id, queue)
      ensures OfQueue(before, id, queue) ==>
                before.records[id] == after.records[id] && (id in before.cancels <==> id in after.cancels)
    {
      assert id in after.cancels.Keys <==> id in before.cancels.Keys || id in picked;
    }
  }

  lemma ServedLeavesOthers(before: State, after: State, q: Queue, queue: string)
    requires LastTurn(before, after, q) && (q.paused || q.id != queue)
    ensures SameQueue(before, after, queue)
  {
    if !q.paused {
      var picked :| AreNewest(before.records, q.id, Slots(before.records, q), picked) && StartedAll(before, after, picked);
      forall id | id in picked ensures id in before.records && before.records[id].queueID != queue {
        assert id in InState(before.records, q.id, QUEUED);
      }
      StartedElsewhere(before, after, picked, queue);
    }
  }

  lemma {:induction false} TickLeavesOthers(before: State, after: State, queues: seq<Queue>, queue: string)
    requires Ticked(before, after, queues)
    requires forall i | 0 <= i < |queues| :: queues[i].paused || queues[i].id != queue
    ensures SameQueue(before, after, queue)
    decreases |queues|
  {
    if queues != [] {
      var n := |queues| - 1;
      var mid :| Ticked(before, mid, queues[..n]) && LastTurn(mid, after, queues[n]);
      TickLeavesOthers(before, mid, queues[..n], queue);
      ServedLeavesOthers(mid, after, queues[n], queue);
      SameQueueTransitive(before, mid, after, queue);
    }
  }

  lemma SameQueueTransitive(a: State, b: State, c: State, queue: string)
    requires SameQueue(a, b, queue) && SameQueue(b, c, queue)
    ensures SameQueue(a, c, queue)
  {
    forall id | OfQueue(a, id, queue)
      ensures OfQueue(c, id, queue) && a.records[id] == c.records[id] && (id in a.cancels <==> id in c.cancels)
    {
      assert OfQueue(b, id, queue);
    }
  }

  ghost predicate DistinctQueues(queues: seq<Queue>) {
    forall i, j | 0 <= i < j < |queues| :: queues[i].id != queues[j].id
  }

  /** The turn of one queue, seen from the whole tick. */
  lemma {:induction false} TurnOf(before: State, after: State, queues: seq<Queue>, i: nat) returns (from: State, to: State)
    requires Ticked(before, after, queues) && DistinctQueues(queues) && i < |queues|
    ensures LastTurn(from, to, queues[i])
    ensures SameQueue(before, from, queues[i].id) && SameQueue(to, after, queues[i].id)
    decreases |queues|
  {
    var n := |queues| - 1;
    var q := queues[i];
    var mid :| Ticked(before, mid, queues[..n]) && LastTurn(mid, after, queues[n]);
    if i == n {
      TickLeavesOthers(before, mid, queues[..n], q.id);
      from, to := mid, after;
    } else {
      from, to := TurnOf(before, mid, queues[..n], i);
      ServedLeavesOthers(mid, after, queues[n], q.id);
      SameQueueTransitive(to, mid, after, q.id);
    }
  }

  /** Of the newest queued downloads that fit, none has a cancel entry. */
  ghost predicate NoneBlocked(st: State, queue: string, n: nat) {
    exists picked :: AreNewest(st.records, queue, n, picked) && picked !! st.cancels.Keys
  }

  lemma NewestUnique(records: map<string, Download>, queue: string, n: nat, a: set<string>, b: set<string>)
    requires AreNewest(records, queue, n, a) && AreNewest(records, queue, n, b)
    ensures a == b
  {
    if a != b {
      if a <= b { SubsetSmaller(a, b); }
      if b <= a { SubsetSmaller(b, a); }
      var x :| x in a && x !in b;
      var y :| y in b && y !in a;
      BeforeTotal(records[x], records[y]);
      assert false;
    }
  }

  lemma SubsetSmaller(a: set<string>, b: set<string>)
    requires a <= b && a != b
    ensures |a| < |b|
  {
    assert b == a + (b - a) && |b| == |a| + |b - a|;
    assert b - a != {};
  }

  lemma RunningAfterStart(records: map<string, Download>, queue: string, launched: set<string>)
    requires launched <= InState(records, queue, QUEUED)
    ensures InState(WithStatus(records, launched, RUNNING), queue, RUNNING) == InState(records, queue, RUNNING) + launched
    ensures InState(records, queue, RUNNING) !! launched
  {
    var was, now := InState(records, queue, RUNNING), InState(WithStatus(records, launched, RUNNING), queue, RUNNING);
    forall id ensures id in now <==> id in was + launched {
      if id in launched { assert id in InState(records, queue, QUEUED); }
    }
    forall id | id in launched ensures id !in was { assert id in InState(records, queue, QUEUED); }
  }

  /** The running downloads of a queue when some of its queued ones have been started. */
  lemma LaunchedRunning(before: State, after: State, queue: string, picked: set<string>)
    requires StartedAll(before, after, picked) && picked <= InState(before.records, queue, QUEUED)
    ensures |InState(after.records, queue, RUNNING)|
         == |InState(before.records, queue, RUNNING)| + |picked - before.cancels.Keys|
  {
    RunningAfterStart(before.records, queue, picked - before.cancels.Keys);
  }

  lemma FilledCounts(before: State, after: State, queue: string, n: nat)
    requires Filled(before, after, queue, n)
    ensures var running := |InState(before.records, queue, RUNNING)|;
            var fits := Fits(before, queue, n);
            var now := |InState(after.records, queue, RUNNING)|;
            running <= now <= running + fits && (now == running + fits <==> NoneBlocked(before, queue, n))
  {
    var picked :| AreNewest(before.records, queue, n, picked) && StartedAll(before, after, picked);
    LaunchedRunning(before, after, queue, picked);
    var launched := picked - before.cancels.Keys;
    if launched != picked {
      SubsetSmaller(launched, picked);
      if NoneBlocked(before, queue, n) {
        var other :| AreNewest(before.records, queue, n, other) && other !! before.cancels.Keys;
        NewestUnique(before.records, queue, n, picked, other);
      }
    }
  }

  /** How many downloads can be started in n slots. */
  ghost function Fits(st: State, queue: string, n: nat): nat {
    var queued := |InState(st.records, queue, QUEUED)|;
    if n < queued then n else queued
  }

  lemma SameQueueSlots(a: State, b: State, q: Queue)
    requires SameQueue(a, b, q.id)
    ensures Slots(a.records, q) == Slots(b.records, q)
    ensures forall n :: Fits(a, q.id, n) == Fits(b, q.id, n)
    ensures forall n :: NoneBlocked(a, q.id, n) ==> NoneBlocked(b, q.id, n)
  {
    SameQueueCounts(a, b, q.id);
    forall n | NoneBlocked(a, q.id, n) ensures NoneBlocked(b, q.id, n) {
      var picked :| AreNewest(a.records, q.id, n, picked) && picked !! a.cancels.Keys;
      forall id | id in picked ensures id !in b.cancels {
        assert id in InState(a.records, q.id, QUEUED);
        assert OfQueue(a, id, q.id);
      }
      assert AreNewest(b.records, q.id, n, picked) && picked !! b.cancels.Keys;
    }
  }

  lemma SameQueueSymmetric(a: State, b: State, queue: string)
    requires SameQueue(a, b, queue)
    ensures SameQueue(b, a, queue)
  {
  }

  /** Without a cancel entry among the queued downloads nothing is passed over. */
  lemma NothingBlocks(before: State, after: State, queue: string, n: nat)
    requires Filled(before, after, queue, n) && InState(before.records, queue, QUEUED) !! before.cancels.Keys
    ensures NoneBlocked(before, queue, n)
  {
    var picked :| AreNewest(before.records, queue, n, picked) && StartedAll(before, after, picked);
    assert picked !! before.cancels.Keys;
  }

  lemma PausedQueueUntouched(before: State, after: State, queues: seq<Queue>, i: nat)
    requires Ticked(before, after, queues) && DistinctQueues(queues) && i < |queues| && queues[i].paused
    ensures SameQueue(before, after, queues[i].id)
  {
    TickLeavesOthers(before, after, queues, queues[i].id);
  }

  /** One queue, seen from the whole tick, in terms of its turn. */
  lemma TurnCounts(before: State, after: State, queues: seq<Queue>, i: nat)
    requires Ticked(before, after, queues) && DistinctQueues(queues) && i < |queues| && !queues[i].paused
    ensures Counts(before, queues[i], |InState(after.records, queues[i].id, RUNNING)|)
  {
    var q := queues[i];
    var from, to := TurnOf(before, after, queues, i);
    SameQueueSlots(before, from, q);
    SameQueueSymmetric(before, from, q.id);
    SameQueueSlots(from, before, q);
    SameQueueCounts(before, from, q.id);
    SameQueueCounts(to, after, q.id);
    FilledCounts(from, to, q.id, Slots(from.records, q));
    if InState(before.records, q.id, QUEUED) !! before.cancels.Keys {
      forall id | id in InState(from.records, q.id, QUEUED) ensures id !in from.cancels {
        assert OfQueue(before, id, q.id);
      }
      NothingBlocks(from, to, q.id, Slots(from.records, q));
    }
  }

  /** `now` downloads of the queue are running after a tick from `before`. */
  ghost predicate Counts(before: State, q: Queue, now: nat) {
    var n := Slots(before.records, q);
    var running, fits := |InState(before.records, q.id, RUNNING)|, Fits(before, q.id, n);
    && running <= now <= running + fits
    && (now == running + fits <==> NoneBlocked(before, q.id, n))
    && (InState(before.records, q.id, QUEUED) !! before.cancels.Keys ==> now == running + fits)
  }

  /** The same on the field of the queue. */
  lemma CountsOnFields(before: State, q: Queue, now: nat)
    requires Counts(before, q, now)
    ensures var most := if q.concurrency <= 0 then 1 else q.concurrency;
            var running := |InState(before.records, q.id, RUNNING)|;
            var queued := |InState(before.records, q.id, QUEUED)|;
            var slots := if running < most then most - running else 0;
            && running <= now <= (if running < most then most else running)
            && (now == running + (if slots < queued then slots else queued) <==> NoneBlocked(before, q.id, slots))
            && (InState(before.records, q.id, QUEUED) !! before.cancels.Keys ==>
                  now == running + (if slots < queued then slots else queued))
  {
    SlotsAre(before.records, q);
  }

  lemma SlotsAre(records: map<string, Download>, q: Queue)
    ensures var most := if q.concurrency <= 0 then 1 else q.concurrency;
            var running := |InState(records, q.id, RUNNING)|;
            Slots(records, q) == if running < most then most - running else 0
  {
  }

  /** After a tick a queue that is not paused runs at most its concurrency, or what it ran before if that was
      more; and it has started exactly as many as fit iff none of the newest ones that fit has a cancel entry.
      A concurrency that is not positive counts as one. `before` is the state after the requeueing. */
  lemma TickFillsQueue(before: State, after: State, queues: seq<Queue>, i: nat)
    requires Ticked(before, after, queues) && DistinctQueues(queues) && i < |queues| && !queues[i].paused
    ensures var q := queues[i];
            var most := if q.concurrency <= 0 then 1 else q.concurrency;
            var running := |InState(before.records, q.id, RUNNING)|;
            var queued := |InState(before.records, q.id, QUEUED)|;
            var slots := if running < most then most - running else 0;
            var now := |InState(after.records, q.id, RUNNING)|;
            && running <= now <= (if running < most then most else running)
            && (now == running + (if slots < queued then slots else queued) <==> NoneBlocked(before, q.id, slots))
  {
    TurnCounts(before, after, queues, i);
    CountsOnFields(before, queues[i], |InState(after.records, queues[i].id, RUNNING)|);
  }

  /** With no cancel entry for any queued download, the tick conserves work:
      running grows by min(max(0, concurrency - running), queued). */
  lemma TickConservesWork(before: State, after: State, queues: seq<Queue>, i: nat)
    requires Ticked(before, after, queues) && DistinctQueues(queues) && i < |queues| && !queues[i].paused
    requires InState(before.records, queues[i].id, QUEUED) !! before.cancels.Keys
    ensures var q := queues[i];
            var most := if q.concurrency <= 0 then 1 else q.concurrency;
            var running := |InState(before.records, q.id, RUNNING)|;
            var queued := |InState(before.records, q.id, QUEUED)|;
            var slots := if running < most then most - running else 0;
            |InState(after.records, q.id, RUNNING)| == running + (if slots < queued then slots else queued)
  {
    TurnCounts(before, after, queues, i);
    CountsOnFields(before, queues[i], |InState(after.records, queues[i].id, RUNNING)|);
  }

  /** Ticks keep a paused or cancelled download as it is once no run of it can still write. */
  lemma TickKeepsPause(st: State, steps: seq<Step>, id: string, status: string)
    requires Sane(st) && !Stray(st, id) && HasStatus(st, id, status) && (status == PAUSED || status == CANCELLED)
    requires OfTick(steps)
    ensures HasStatus(After(st, steps), id, status) && !Stray(After(st, steps), id)
  {
    QuietSteps(st, steps, id, status);
  }

  // ---- Priorities ----

  type Prices = string -> int

  /** The same downloads with other priorities. */
  function Repriced(records: map<string, Download>, price: Prices): map<string, Download> {
    map id | id in records :: records[id].(priority := price(id))
  }

  function RepricedState(st: State, price: Prices): State { st.(records := Repriced(st.records, price)) }

  /** No queued download that is left behind has a higher priority than one that is picked. */
  ghost predicate RespectsPriority(records: map<string, Download>, queue: string, picked: set<string>) {
    forall p, u | p in picked && p in records && u in InState(records, queue, QUEUED) - picked ::
      records[p].priority >= records[u].priority
  }

  lemma RepricedNewest(records: map<string, Download>, price: Prices, queue: string, n: nat, picked: set<string>)
    ensures forall status :: InState(Repriced(records, price), queue, status) == InState(records, queue, status)
    ensures AreNewest(Repriced(records, price), queue, n, picked) <==> AreNewest(records, queue, n, picked)
  {
    forall status ensures InState(Repriced(records, price), queue, status) == InState(records, queue, status) {}
  }

  lemma AllOrNothing(records: map<string, Download>, queue: string, n: nat, picked: set<string>)
    requires AreNewest(records, queue, n, picked)
    ensures n == 0 || n >= |InState(records, queue, QUEUED)| <==> picked == {} || picked == InState(records, queue, QUEUED)
  {
    var queued := InState(records, queue, QUEUED);
    if picked != queued { SubsetSmaller(picked, queued); }
  }

  /** A set of queued downloads respects every assignment of priorities iff it is empty or all of them. */
  lemma RespectsAllIff(records: map<string, Download>, queue: string, picked: set<string>)
    requires picked <= InState(records, queue, QUEUED)
    ensures (forall price: Prices :: RespectsPriority(Repriced(records, price), queue, picked)) <==>
            picked == {} || picked == InState(records, queue, QUEUED)
  {
    var queued := InState(records, queue, QUEUED);
    forall price: Prices ensures InState(Repriced(records, price), queue, QUEUED) == queued {
      RepricedNewest(records, price, queue, 0, {});
    }
    if picked != {} && picked != queued {
      SubsetSmaller(picked, queued);
      assert queued - picked != {} by { assert queued == picked + (queued - picked); }
      var p :| p in picked;
      var u :| u in queued - picked;
      var price: Prices := id => if id == u then 1 else 0;
      assert u in InState(Repriced(records, price), queue, QUEUED) - picked && p in Repriced(records, price);
      assert !RespectsPriority(Repriced(records, price), queue, picked);
    }
  }

  /** What is picked respects priorities, whatever they are, iff no queued download fits or all do. */
  lemma PriorityRespectedIff(records: map<string, Download>, queue: string, n: nat, picked: set<string>)
    requires AreNewest(records, queue, n, picked)
    ensures (forall price: Prices :: RespectsPriority(Repriced(records, price), queue, picked)) <==>
            n == 0 || n >= |InState(records, queue, QUEUED)|
  {
    RespectsAllIff(records, queue, picked);
    AllOrNothing(records, queue, n, picked);
  }

  /** What one turn of a queue has started. */
  ghost function StartedBy(before: State, after: State, queue: string): set<string> {
    set id | id in InState(before.records, queue, QUEUED) && HasStatus(after, id, RUNNING)
  }

  lemma StatusAfterStart(before: State, after: State, picked: set<string>, id: string)
    requires StartedAll(before, after, picked) && picked !! before.cancels.Keys && HasStatus(before, id, QUEUED)
    ensures HasStatus(after, id, if id in picked then RUNNING else QUEUED)
  {
    assert picked - before.cancels.Keys == picked;
  }

  lemma StartedIsPicked(before: State, after: State, queue: string, picked: set<string>)
    requires picked <= InState(before.records, queue, QUEUED) && StartedAll(before, after, picked)
    requires InState(before.records, queue, QUEUED) !! before.cancels.Keys
    ensures StartedBy(before, after, queue) == picked
  {
    forall id | id in InState(before.records, queue, QUEUED) ensures HasStatus(after, id, RUNNING) <==> id in picked {
      StatusAfterStart(before, after, picked, id);
    }
  }

  lemma RepricedStatus(records: map<string, Download>, ids: set<string>, price: Prices)
    ensures Repriced(WithStatus(records, ids, RUNNING), price) == WithStatus(Repriced(records, price), ids, RUNNING)
  {
  }

  lemma StartedUnderAllPrices(before: State, after: State, picked: set<string>, price: Prices)
    requires StartedAll(before, after, picked)
    ensures StartedAll(RepricedState(before, price), RepricedState(after, price), picked)
  {
    var launched := picked - before.cancels.Keys;
    RepricedStatus(before.records, launched, price);
    MakeStartedAll(RepricedState(before, price), RepricedState(after, price), picked, launched);
  }

  /** The turn of a queue is the same turn under all priorities. */
  lemma ServedUnderAllPrices(before: State, after: State, q: Queue, price: Prices)
    requires Served(before, after, q)
    ensures Served(RepricedState(before, price), RepricedState(after, price), q)
  {
    var n := Slots(before.records, q);
    var picked :| AreNewest(before.records, q.id, n, picked) && StartedAll(before, after, picked);
    RepricedNewest(before.records, price, q.id, n, picked);
    assert Slots(Repriced(before.records, price), q) == n;
    StartedUnderAllPrices(before, after, picked, price);
  }

  /** Whatever the priorities, every turn of the queue from these downloads starts the same set. */
  lemma TurnStartsTheSame(before: State, after: State, q: Queue, price: Prices, other: State)
    requires Served(before, after, q) && Served(RepricedState(before, price), other, q)
    requires InState(before.records, q.id, QUEUED) !! before.cancels.Keys
    ensures StartedBy(RepricedState(before, price), other, q.id) == StartedBy(before, after, q.id)
  {
    var n, repriced := Slots(before.records, q), RepricedState(before, price);
    var picked :| AreNewest(before.records, q.id, n, picked) && StartedAll(before, after, picked);
    RepricedNewest(before.records, price, q.id, n, picked);
    assert Slots(repriced.records, q) == n;
    var again :| AreNewest(repriced.records, q.id, n, again) && StartedAll(repriced, other, again);
    NewestUnique(repriced.records, q.id, n, picked, again);
    StartedIsPicked(before, after, q.id, picked);
    StartedIsPicked(repriced, other, q.id, again);
  }

  /** A turn under these priorities leaves no higher priority behind. */
  ghost predicate TurnRespects(before: State, q: Queue, price: Prices, other: State) {
    RespectsPriority(Repriced(before.records, price), q.id, StartedBy(RepricedState(before, price), other, q.id))
  }

  /** Every turn of the queue from these downloads, under all priorities, starts by priority. */
  ghost predicate TurnsByPriority(before: State, q: Queue) {
    forall price: Prices, other | Served(RepricedState(before, price), other, q) :: TurnRespects(before, q, price, other)
  }

  /** The set that one turn starts respects all priorities. */
  ghost predicate StartsByPriority(before: State, after: State, q: Queue) {
    forall price: Prices :: RespectsPriority(Repriced(before.records, price), q.id, StartedBy(before, after, q.id))
  }

  lemma SomeTurnTellsAll(before: State, after: State, q: Queue)
    requires Served(before, after, q) && InState(before.records, q.id, QUEUED) !! before.cancels.Keys
    requires TurnsByPriority(before, q)
    ensures StartsByPriority(before, after, q)
  {
    forall price: Prices ensures RespectsPriority(Repriced(before.records, price), q.id, StartedBy(before, after, q.id)) {
      ServedUnderAllPrices(before, after, q, price);
      TurnStartsTheSame(before, after, q, price, RepricedState(after, price));
      assert TurnRespects(before, q, price, RepricedState(after, price));
    }
  }

  lemma OneTurnTellsAll(before: State, after: State, q: Queue)
    requires Served(before, after, q) && InState(before.records, q.id, QUEUED) !! before.cancels.Keys
    requires StartsByPriority(before, after, q)
    ensures TurnsByPriority(before, q)
  {
    forall price: Prices, other | Served(RepricedState(before, price), other, q) ensures TurnRespects(before, q, price, other) {
      TurnStartsTheSame(before, after, q, price, other);
    }
  }

  /** Every turn of a queue starts by priority, whatever the priorities, iff the queue has no slot or one
      for each queued download; otherwise some turn leaves a higher priority behind. */
  lemma TurnByPriorityIff(before: State, after: State, q: Queue)
    requires Served(before, after, q) && InState(before.records, q.id, QUEUED) !! before.cancels.Keys
    ensures TurnsByPriority(before, q) <==>
            Slots(before.records, q) == 0 || Slots(before.records, q) >= |InState(before.records, q.id, QUEUED)|
  {
    var n := Slots(before.records, q);
    var picked :| AreNewest(before.records, q.id, n, picked) && StartedAll(before, after, picked);
    StartedIsPicked(before, after, q.id, picked);
    PriorityRespectedIff(before.records, q.id, n, picked);
    if TurnsByPriority(before, q) {
      SomeTurnTellsAll(before, after, q);
    }
    if StartsByPriority(before, after, q) {
      OneTurnTellsAll(before, after, q);
    }
  }

  /** Two queued downloads of one queue. */
  function Two(older: Download, newer: Download): State {
    State(map[older.id := older, newer.id := newer], map[], [])
  }

  lemma NewerOfTwo(older: Download, newer: Download, queue: string)
    requires older.id != newer.id && Before(older, newer)
    requires older.status == newer.status == QUEUED && older.queueID == newer.queueID == queue
    ensures InState(Two(older, newer).records, queue, RUNNING) == {}
    ensures AreNewest(Two(older, newer).records, queue, 1, {newer.id})
  {
    assert InState(Two(older, newer).records, queue, QUEUED) == {older.id, newer.id};
  }

  lemma StartedNewer(older: Download, newer: Download)
    requires older.id != newer.id && newer.status == QUEUED
    ensures StartedAll(Two(older, newer), StartNext(Two(older, newer), newer.id), {newer.id})
  {
    var before := Two(older, newer);
    var after := StartNext(before, newer.id);
    assert {newer.id} - before.cancels.Keys == {newer.id};
    assert after.records == WithStatus(before.records, {newer.id}, RUNNING);
    MakeStartedAll(before, after, {newer.id}, {newer.id});
  }

  /** A tick with one slot starts the newer of two downloads, though the older one has the higher priority. */
  lemma LowerPriorityStarts(older: Download, newer: Download, q: Queue)
    requires older.id != newer.id && Before(older, newer) && older.priority > newer.priority
    requires older.status == newer.status == QUEUED && older.queueID == newer.queueID == q.id
    requires !q.paused && Concurrency(q) == 1
    ensures var after := StartNext(Two(older, newer), newer.id);
            Ticked(Two(older, newer), after, [q]) && HasStatus(after, newer.id, RUNNING) && HasStatus(after, older.id, QUEUED)
  {
    var before := Two(older, newer);
    NewerOfTwo(older, newer, q.id);
    StartedNewer(older, newer);
    assert Slots(before.records, q) == 1;
    OneTurn(before, StartNext(before, newer.id), q);
  }

  lemma OneTurn(before: State, after: State, q: Queue)
    requires LastTurn(before, after, q)
    ensures Ticked(before, after, [q])
  {
    assert [q][..0] == [] && Ticked(before, before, []);
  }
}
