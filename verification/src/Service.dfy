/**
 The download service over the repository (internal/service/download.go:72-142, 221-297) and the
 repository writes of its runners (internal/service/runner.go:28-60, 354-419). Every method is tied to
 the lifecycle step that it takes.
 */
module Service {
  import opened Text
  import opened Models
  import opened Keys
  import opened Store
  import opened Consistency
  import opened Repository
  import opened Lifecycle
  import opened Tags

  // ---- The records that a store holds ----

  /** The lifecycle does not look at the time of the last update. */
  function Untimed(d: Download): Download { d.(updatedAt := Zero) }

  ghost function ById(kv: KV): map<string, Download> {
    map id | id in StoredIds(kv) && HasRecord(kv, id) :: Untimed(RecordOf(kv, id))
  }

  ghost function StoredIds(kv: KV): set<string> { set k | k in kv && kv[k].Record? :: kv[k].d.id }

  lemma Lookup(kv: KV, id: string)
    requires WellFormed(kv)
    ensures id in ById(kv) <==> HasRecord(kv, id)
    ensures HasRecord(kv, id) ==> ById(kv)[id] == Untimed(RecordOf(kv, id)) && RecordOf(kv, id).id == id
  {
    if HasRecord(kv, id) {
      IdOfRecord(kv, id);
    }
  }

  /** The other records of a store that differs from another one in the record of `id` alone. */
  ghost predicate SameBut(kv: KV, next: KV, id: string) {
    forall i | i != id :: HasRecord(next, i) == HasRecord(kv, i) && (HasRecord(kv, i) ==> RecordOf(next, i) == RecordOf(kv, i))
  }

  lemma SameButById(kv: KV, next: KV, id: string)
    requires WellFormed(kv) && WellFormed(next) && SameBut(kv, next, id)
    ensures ById(next) - {id} == ById(kv) - {id}
  {
    forall i | i != id
      ensures i in ById(next) <==> i in ById(kv)
      ensures i in ById(kv) ==> ById(next)[i] == ById(kv)[i]
    {
      Lookup(kv, i);
      Lookup(next, i);
    }
  }

  lemma UpdateSameBut(kv: KV, d: Download, now: Nanos)
    requires Live(kv) && HasRecord(kv, d.id)
    ensures SameBut(kv, UpdateNext(kv, d, now), d.id)
    ensures HasRecord(UpdateNext(kv, d, now), d.id) && RecordOf(UpdateNext(kv, d, now), d.id) == Restamp(kv, d, now)
  {
    forall i | i != d.id
      ensures HasRecord(UpdateNext(kv, d, now), i) == HasRecord(kv, i)
      ensures HasRecord(kv, i) ==> RecordOf(UpdateNext(kv, d, now), i) == RecordOf(kv, i)
    {
      UpdateFrame(kv, d, now, i);
    }
    UpdateKeeps(kv, d, now, {});
    assert KDownload(d.id) in Records(UpdateNext(kv, d, now));
  }

  /** A repository update is the lifecycle's single-record update. */
  lemma UpdateById(kv: KV, d: Download, now: Nanos)
    requires Live(kv) && HasRecord(kv, d.id) && d.createdAt.At?
    ensures Live(UpdateNext(kv, d, now)) && (Complete(kv) ==> Complete(UpdateNext(kv, d, now)))
    ensures ById(UpdateNext(kv, d, now)) == Persist(ById(kv), Untimed(d))
  {
    var next := UpdateNext(kv, d, now);
    UpdateKeepsAll(kv, d, now);
    UpdateSameBut(kv, d, now);
    SameButById(kv, next, d.id);
    Lookup(kv, d.id);
    Lookup(next, d.id);
    ReplaceOne(ById(kv), ById(next), d.id);
  }

  lemma ReplaceOne(m: map<string, Download>, n: map<string, Download>, id: string)
    requires m - {id} == n - {id} && id in n
    ensures n == m[id := n[id]]
  {
    forall i | i != id ensures i in n <==> i in m ensures i in m ==> n[i] == m[i] {
      assert i in m - {id} <==> i in m;
      assert i in n - {id} <==> i in n;
      if i in m { assert (m - {id})[i] == (n - {id})[i]; }
    }
  }

  lemma DeleteSameBut(kv: KV, id: string)
    requires Live(kv) && HasRecord(kv, id)
    ensures Live(DeleteNext(kv, id)) && SameBut(kv, DeleteNext(kv, id), id) && !HasRecord(DeleteNext(kv, id), id)
  {
    var next := DeleteNext(kv, id);
    DeleteKeeps(kv, id, {});
    forall i ensures HasRecord(next, i) <==> HasRecord(kv, i) && i != id
             ensures HasRecord(next, i) ==> RecordOf(next, i) == RecordOf(kv, i)
    {
      KDownloadInjective(i, id);
      assert KDownload(i) in Records(next) <==> KDownload(i) in Records(kv) && i != id;
      assert i != id && KDownload(i) in Records(kv) ==> Records(next)[KDownload(i)] == Records(kv)[KDownload(i)];
    }
  }

  lemma DeleteById(kv: KV, id: string)
    requires Live(kv) && HasRecord(kv, id)
    ensures Live(DeleteNext(kv, id)) && (Complete(kv) ==> Complete(DeleteNext(kv, id)))
    ensures ById(DeleteNext(kv, id)) == ById(kv) - {id}
  {
    var next := DeleteNext(kv, id);
    DeleteKeeps(kv, id, {});
    DeleteSameBut(kv, id);
    SameButById(kv, next, id);
    Lookup(next, id);
    assert ById(next) - {id} == ById(next);
  }

  lemma EditPersists(st: State, d: Download, n: Download)
    requires d.id in st.records && st.records[d.id] == Untimed(d) && n == d.(priority := n.priority, tags := n.tags)
    ensures st.(records := Persist(st.records, Untimed(n))) == Next(st, Edit(d.id, n.priority, n.tags))
  {
  }

  lemma StatusPersists(st: State, d: Download, status: string, at: Instant)
    requires d.id in st.records && st.records[d.id] == Untimed(d)
    ensures st.(records := Persist(st.records, Untimed(d.(status := status, updatedAt := at)))) == Next(st, Step.SetStatus(d.id, status))
  {
  }

  // ---- The service ----

  class DownloadService {
    const repo: BadgerRepository
    var cancels: map<string, nat>
    var runs: seq<RunState>

    constructor (repo: BadgerRepository)
      requires Live(repo.kv)
      ensures this.repo == repo && Valid() && View() == State(ById(repo.kv), map[], [])
    {
      this.repo := repo;
      cancels := map[];
      runs := [];
    }

    ghost predicate Valid()
      reads this, repo
    {
      Live(repo.kv) && forall r | 0 <= r < |runs| :: CopyFits(runs[r])
    }

    ghost function View(): State
      reads this, repo
    {
      State(ById(repo.kv), cancels, runs)
    }

    /** An update sees to it that no index entry goes missing that was there. */
    method Persist(d: Download, now: Nanos, ctx: Context := Free) returns (r: Outcome)
      requires Valid() && d.createdAt.At?
      modifies repo
      ensures Valid() && (Complete(old(repo.kv)) ==> Complete(repo.kv))
      ensures OtherRowsKept(old(repo.kv), repo.kv)
      ensures r.Ok? ==> d.id in old(View()).records
                        && View() == old(View()).(records := Lifecycle.Persist(old(View()).records, Untimed(d)))
      ensures r.Err? ==> repo.kv == old(repo.kv) && (r.error == Cancelled || d.id !in View().records)
      ensures ctx.Fixed? ==> (r == Err(Cancelled) <==> ctx.done)
    {
      Lookup(repo.kv, d.id);
      if HasRecord(repo.kv, d.id) {
        IdOfRecord(repo.kv, d.id);
        UpdateById(repo.kv, d, now);
        UpdateKeepsOtherRows(repo.kv, d, now);
      }
      r := repo.UpdateDownload(d, now, ctx);
    }

    method Get(id: string, ctx: Context := Free) returns (r: Result<Download>)
      requires Valid()
      ensures match r
              case Success(d) => id in View().records && View().records[id] == Untimed(d) && d.id == id && d.createdAt.At?
              case Failure(e) => e == Cancelled || (e == NotFound && id !in View().records)
      ensures ctx.Fixed? ==> (r == Failure(Cancelled) <==> ctx.done)
    {
      Lookup(repo.kv, id);
      r := repo.GetDownload(id, ctx);
      if r.Success? {
        IdOfRecord(repo.kv, id);
      }
    }

    /** Reads the record and writes it back with a new status, in one transaction. */
    method UpdateStatus(id: string, status: string, now: Nanos, ctx: Context := Free) returns (r: Outcome)
      requires Valid()
      modifies repo
      ensures Valid() && (Complete(old(repo.kv)) ==> Complete(repo.kv))
      ensures OtherRowsKept(old(repo.kv), repo.kv)
      ensures r.Ok? ==> id in old(View()).records && View() == Next(old(View()), Step.SetStatus(id, status))
      ensures r.Err? ==> repo.kv == old(repo.kv)
      ensures r == Err(NotFound) ==> id !in View().records
      ensures ctx == Fixed(false) ==> (r.Ok? <==> id in old(View()).records)
    {
      var d := Get(id, ctx);
      if d.Failure? {
        return Err(d.error);
      }
      StatusPersists(View(), d.value, status, At(now));
      r := Persist(d.value.(status := status, updatedAt := At(now)), now, ctx);
    }

    /** Cancels the run that is registered for the id, and forgets it. */
    method Signal(id: string)
      requires Valid()
      modifies this
      ensures Valid() && View() == Next(old(View()), Step.Signal(id))
    {
      if id in cancels {
        var run := cancels[id];
        if run < |runs| {
          runs := runs[run := runs[run].(cancelled := true)];
        }
        cancels := cancels - {id};
      }
    }

    method Start(id: string, now: Nanos, ctx: Context := Free) returns (r: Outcome)
      requires Valid()
      modifies this, repo
      ensures Valid() && (Complete(old(repo.kv)) ==> Complete(repo.kv))
      ensures OtherRowsKept(old(repo.kv), repo.kv)
      ensures r.Ok? ==> View() == Next(old(View()), Step.Start(id)) && (id in old(cancels) || id in old(View()).records)
      ensures r.Err? ==> View() == old(View()) && id !in cancels
      ensures r == Err(NotFound) ==> id !in View().records
      ensures ctx == Fixed(false) ==> (r.Ok? <==> id in old(cancels) || id in old(View()).records)
    {
      if id in cancels {
        return Ok;
      }
      r := Resume(id, now, ctx);
    }

    method Resume(id: string, now: Nanos, ctx: Context := Free) returns (r: Outcome)
      requires Valid()
      modifies this, repo
      ensures Valid() && (Complete(old(repo.kv)) ==> Complete(repo.kv))
      ensures OtherRowsKept(old(repo.kv), repo.kv)
      ensures r.Ok? ==> id in old(View()).records && View() == Next(old(View()), Step.Resume(id))
      ensures r.Err? ==> View() == old(View())
      ensures r == Err(NotFound) ==> id !in View().records
      ensures ctx == Fixed(false) ==> (r.Ok? <==> id in old(View()).records)
    {
      ghost var before := View();
      r := UpdateStatus(id, RUNNING, now, ctx);
      if r.Err? {
        return;
      }
      Register(id);
      LaunchIsTwoSteps(before, id);
    }

    /** Registers the cancel function of a new run, and spawns it. */
    method Register(id: string)
      requires Valid()
      modifies this
      ensures Valid() && View() == Next(old(View()), Step.Register(id))
    {
      cancels := cancels[id := |runs|];
      runs := runs + [RunState(id, false, Fetching, None, 0)];
    }

    method Pause(id: string, now: Nanos, ctx: Context := Free) returns (r: Outcome)
      requires Valid()
      modifies this, repo
      ensures Valid() && (Complete(old(repo.kv)) ==> Complete(repo.kv))
      ensures r.Ok? ==> id in old(View()).records && View() == Stopped(old(View()), id, PAUSED)
      ensures r.Err? ==> View() == Next(old(View()), Step.Signal(id))
      ensures ctx == Fixed(false) ==> (r.Ok? <==> id in old(View()).records)
    {
      Signal(id);
      r := UpdateStatus(id, PAUSED, now, ctx);
    }

    method Cancel(id: string, now: Nanos, ctx: Context := Free) returns (r: Outcome)
      requires Valid()
      modifies this, repo
      ensures Valid() && (Complete(old(repo.kv)) ==> Complete(repo.kv))
      ensures r.Ok? ==> id in old(View()).records && View() == Stopped(old(View()), id, CANCELLED)
      ensures r.Err? ==> View() == Next(old(View()), Step.Signal(id))
      ensures ctx == Fixed(false) ==> (r.Ok? <==> id in old(View()).records)
    {
      Signal(id);
      r := UpdateStatus(id, CANCELLED, now, ctx);
    }

    method Drop(id: string, ctx: Context := Free) returns (r: Outcome)
      requires Valid() && id in View().records
      modifies repo
      ensures Valid() && (Complete(old(repo.kv)) ==> Complete(repo.kv))
      ensures ById(repo.kv) == if r.Ok? then ById(old(repo.kv)) - {id} else ById(old(repo.kv))
      ensures ctx == Fixed(false) ==> r.Ok?
    {
      Lookup(repo.kv, id);
      DeleteById(repo.kv, id);
      r := repo.DeleteDownload(id, ctx);
    }

    /** A remove does not cancel the run of the id. */
    method Remove(id: string, ctx: Context := Free) returns (r: Outcome)
      requires Valid()
      modifies repo
      ensures Valid() && (Complete(old(repo.kv)) ==> Complete(repo.kv))
      ensures r.Ok? ==> id in old(View()).records && View() == Next(old(View()), Step.Remove(id))
      ensures r.Err? ==> View() == old(View())
      ensures ctx == Fixed(false) ==> (r.Ok? <==> id in old(View()).records)
    {
      var d := Get(id, ctx);
      if d.Failure? {
        return Err(d.error);
      }
      r := Drop(id, ctx);
    }

    /** Stores an edited copy of the record that was read. */
    method WriteBack(d: Download, priority: int, tags: seq<string>, now: Nanos, ctx: Context := Free) returns (r: Outcome)
      requires Valid() && d.createdAt.At?
      requires d.id in View().records && View().records[d.id] == Untimed(d)
      modifies repo
      ensures Valid() && (Complete(old(repo.kv)) ==> Complete(repo.kv))
      ensures r.Ok? ==> View() == Next(old(View()), Edit(d.id, priority, tags))
      ensures r.Err? ==> repo.kv == old(repo.kv)
      ensures ctx == Fixed(false) ==> r.Ok?
    {
      var n := d.(priority := priority, tags := tags);
      EditPersists(View(), d, n);
      r := Persist(n, now, ctx);
    }

    method SetPriority(id: string, priority: int, now: Nanos, ctx: Context := Free) returns (r: Outcome)
      requires Valid()
      modifies repo
      ensures Valid() && (Complete(old(repo.kv)) ==> Complete(repo.kv))
      ensures r.Ok? ==> id in old(View()).records
                        && View() == Next(old(View()), Edit(id, priority, old(View()).records[id].tags))
      ensures r.Err? ==> repo.kv == old(repo.kv)
      ensures ctx == Fixed(false) ==> (r.Ok? <==> id in old(View()).records)
    {
      var d := Get(id, ctx);
      if d.Failure? {
        return Err(d.error);
      }
      r := WriteBack(d.value, priority, d.value.tags, now, ctx);
    }

    method AddTags(id: string, tags: seq<string>, now: Nanos, ctx: Context := Free) returns (r: Outcome)
      requires Valid()
      modifies repo
      ensures Valid() && (Complete(old(repo.kv)) ==> Complete(repo.kv))
      ensures r.Ok? ==> id in old(View()).records
                        && var d := old(View()).records[id];
                           View() == Next(old(View()), Edit(id, d.priority, Added(d.tags, tags)))
      ensures r.Err? ==> repo.kv == old(repo.kv)
      ensures ctx == Fixed(false) ==> (r.Ok? <==> id in old(View()).records)
    {
      var d := Get(id, ctx);
      if d.Failure? {
        return Err(d.error);
      }
      var more := AddMissing(d.value.tags, tags);
      r := WriteBack(d.value, d.value.priority, more, now, ctx);
    }

    method RemoveTags(id: string, tags: seq<string>, now: Nanos, ctx: Context := Free) returns (r: Outcome)
      requires Valid()
      modifies repo
      ensures Valid() && (Complete(old(repo.kv)) ==> Complete(repo.kv))
      ensures r.Ok? ==> id in old(View()).records
                        && var d := old(View()).records[id];
                           View() == Next(old(View()), Edit(id, d.priority, Removed(d.tags, tags)))
      ensures r.Err? ==> repo.kv == old(repo.kv)
      ensures ctx == Fixed(false) ==> (r.Ok? <==> id in old(View()).records)
    {
      var d := Get(id, ctx);
      if d.Failure? {
        return Err(d.error);
      }
      var fewer := DropListed(d.value.tags, tags);
      r := WriteBack(d.value, d.value.priority, fewer, now, ctx);
    }

    // ---- Runners ----

    /** A run reads its download. Its context is done iff the run was cancelled. */
    method FetchRecord(run: nat) returns (r: Outcome)
      requires Valid() && run < |runs| && runs[run].phase.Fetching?
      modifies this
      ensures Valid() && View() == Next(old(View()), Act(run, Fetch))
      ensures r == if old(runs)[run].cancelled then Err(Cancelled)
                   else if old(runs)[run].id in old(View()).records then Ok else Err(NotFound)
    {
      var d := Get(runs[run].id, Fixed(runs[run].cancelled));
      if d.Failure? {
        runs := runs[run := runs[run].(phase := Leaving)];
        return Err(d.error);
      }
      runs := runs[run := runs[run].(phase := Working, copy := Some(Untimed(d.value)))];
      r := Ok;
    }

    /** A run, or its monitor, moves on and stores its whole copy, unless its context was cancelled. */
    method StoreCopy(run: nat, action: Action, now: Nanos) returns (r: Outcome)
      requires Valid() && run < |runs| && !action.Fetch? && !action.Exit? && !action.Message?
      modifies this, repo
      ensures Valid() && (Complete(old(repo.kv)) ==> Complete(repo.kv))
      ensures View() == Next(old(View()), Act(run, action))
      ensures r.Err? ==> View().records == old(View()).records
    {
      var writes := Stores(runs[run].(cancelled := false), action);
      var q := RunAfter(runs[run], action, map[]);
      runs := runs[run := q];
      if !writes {
        return Ok;
      }
      r := Persist(q.copy.value, now, Fixed(q.cancelled));
    }

    /** The end of a run's goroutine drops the cancel entry of its id, whoever put it there. */
    method EndRun(run: nat)
      requires Valid() && run < |runs| && runs[run].phase.Leaving?
      modifies this
      ensures Valid() && View() == Next(old(View()), Act(run, Exit))
    {
      cancels := cancels - {runs[run].id};
      runs := runs[run := runs[run].(phase := Exited)];
    }
  }

  /** A run's copy comes from the store. */
  ghost predicate CopyFits(r: RunState) {
    r.copy.Some? ==> r.copy.value.id == r.id && r.copy.value.createdAt.At? && r.copy.value.updatedAt.Zero?
  }
}
