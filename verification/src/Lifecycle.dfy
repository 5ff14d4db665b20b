/**
 The lifecycle of downloads: service calls, worker actions and the repository transactions of the
 runners, as atomic steps that interleave (internal/service/download.go:72-142, 277-297,
 internal/service/runner.go:28-94, 335-419, internal/repository/repository.go:354-364, 513-527).
 */
module Lifecycle {
  import opened Text
  import opened Models

  /** Where the goroutine of a run is: about to read its download, at work, or past its last write. */
  datatype Phase = Fetching | Working | Leaving | Exited

  /** One run of a download. `copy` is the record it read, which all its writes store whole; `pending`
      counts the progress messages that its monitor has yet to write. The monitor is a goroutine of its
      own and may outlive the run. */
  datatype RunState = RunState(id: string, cancelled: bool, phase: Phase, copy: Option<Download>, pending: nat)

  /** `cancels` holds the run whose context a Pause or Cancel of an id would end. */
  datatype State = State(records: map<string, Download>, cancels: map<string, nat>, runs: seq<RunState>)

  /** What a run does: read its record, store its copy, report progress, store the copy for one reported
      message, finish, fail, and end, dropping the cancel entry of its id. */
  datatype Action = Fetch | Save | Message | Monitor | Conclude | Fail | Exit

  /** Start and Resume are one step here when nothing comes between their parts: the check, the status
      (`SetStatus`) and the registration (`Register`), which are steps of their own otherwise. */
  datatype Step =
    | Start(id: string)
    | Resume(id: string)
    | Register(id: string)                    // last part of Start and Resume: a cancel entry and a run
    | Signal(id: string)                      // first half of Pause and Cancel
    | SetStatus(id: string, status: string)   // second half of Pause and Cancel, and status changes
    | Remove(id: string)
    | Edit(id: string, priority: int, tags: seq<string>)
    | Create(d: Download)
    | BulkWrite(d: Download)                  // last phase of a bulk update, which does not look first
    | WriteBack(d: Download)                  // an update with a copy that was read some time ago
    | Requeue(id: string)                     // tick: a running download that looks stale
    | StartQueued(id: string)                 // tick: a queued download is started
    | Act(run: nat, action: Action)

  // ---- Transactions ----

  /** A single-record update: it fails when the record is missing. */
  function Persist(records: map<string, Download>, d: Download): map<string, Download> {
    if d.id in records then records[d.id := d] else records
  }

  function UpdateStatus(records: map<string, Download>, id: string, status: string): map<string, Download> {
    if id in records then records[id := records[id].(status := status)] else records
  }

  function SetRun(st: State, run: nat, r: RunState): State {
    if run < |st.runs| then st.(runs := st.runs[run := r]) else st
  }

  /** Sets the status, registers a cancel function over whatever was there, and spawns a run. */
  function Launch(st: State, id: string): State {
    if id !in st.records then st
    else RegisterNext(st.(records := UpdateStatus(st.records, id, RUNNING)), id)
  }

  /** Registers a cancel function over whatever was there, and spawns a run. */
  function RegisterNext(st: State, id: string): State {
    State(st.records, st.cancels[id := |st.runs|], st.runs + [RunState(id, false, Fetching, None, 0)])
  }

  function StartNext(st: State, id: string): State { if id in st.cancels then st else Launch(st, id) }

  function SignalNext(st: State, id: string): State {
    if id !in st.cancels then st
    else
      var run := st.cancels[id];
      var off := st.(cancels := st.cancels - {id});
      if run < |st.runs| then SetRun(off, run, st.runs[run].(cancelled := true)) else off
  }

  /** The run after an action, with what it will store if its context is alive. */
  function RunAfter(r: RunState, action: Action, records: map<string, Download>): RunState {
    match action
    case Fetch =>
      if !r.phase.Fetching? then r
      // a cancelled context or a missing record ends the run, and what it then reports is not stored
      else if r.cancelled || r.id !in records then r.(phase := Leaving)
      else r.(phase := Working, copy := Some(records[r.id]))
    case Save => r
    case Message => if r.phase.Working? then r.(pending := r.pending + 1) else r
    case Monitor => if r.pending > 0 then r.(pending := r.pending - 1) else r
    case Conclude => Finished(r, COMPLETED)
    case Fail => Finished(r, FAILED)
    case Exit => if r.phase.Leaving? then r.(phase := Exited) else r
  }

  function Finished(r: RunState, status: string): RunState {
    if r.phase.Working? && r.copy.Some? then r.(copy := Some(r.copy.value.(status := status)), phase := Leaving) else r
  }

  /** Whether the action stores the copy, provided that the context is alive. */
  predicate Stores(r: RunState, action: Action) {
    !r.cancelled && r.copy.Some? &&
    ((action.Monitor? && r.pending > 0) || (r.phase.Working? && (action.Save? || action.Conclude? || action.Fail?)))
  }

  function RunNext(st: State, run: nat, action: Action): State {
    if run >= |st.runs| then st
    else
      var r := st.runs[run];
      var q := RunAfter(r, action, st.records);
      State(if Stores(r, action) && q.copy.Some? then Persist(st.records, q.copy.value) else st.records,
            if action.Exit? && r.phase.Leaving? then st.cancels - {r.id} else st.cancels,
            st.runs[run := q])
  }

  function Next(st: State, step: Step): State {
    match step
    case Start(id) => StartNext(st, id)
    case Resume(id) => Launch(st, id)
    case Register(id) => RegisterNext(st, id)
    case Signal(id) => SignalNext(st, id)
    case SetStatus(id, status) => st.(records := UpdateStatus(st.records, id, status))
    case Remove(id) => st.(records := st.records - {id})
    case Edit(id, priority, tags) =>
      if id in st.records then st.(records := st.records[id := st.records[id].(priority := priority, tags := tags)]) else st
    case Create(d) => st.(records := st.records[d.id := d])
    case BulkWrite(d) => st.(records := st.records[d.id := d])
    case WriteBack(d) => st.(records := Persist(st.records, d))
    case Requeue(id) =>
      if id in st.records && st.records[id].status == RUNNING then st.(records := UpdateStatus(st.records, id, QUEUED)) else st
    case StartQueued(id) => if id in st.records && st.records[id].status == QUEUED then StartNext(st, id) else st
    case Act(run, action) => RunNext(st, run, action)
  }

  function After(st: State, steps: seq<Step>): State {
    if steps == [] then st else Next(After(st, steps[..|steps| - 1]), steps[|steps| - 1])
  }

  const EMPTY := State(map[], map[], [])

  // ---- Sanity of every state ----

  /** Copies are of the run's own download, and a run past its work holds a final status. */
  ghost predicate Sane(st: State) {
    && (forall id | id in st.records :: st.records[id].id == id)
    && (forall r | 0 <= r < |st.runs| :: SaneRun(st.runs[r]))
  }

  predicate SaneRun(r: RunState) {
    && (r.copy.Some? ==> r.copy.value.id == r.id)
    && (r.phase.Working? ==> r.copy.Some?)
    && (r.phase.Fetching? ==> r.pending == 0)
    && (r.pending > 0 ==> r.copy.Some?)
    && (r.pending > 0 && !r.phase.Working? ==> r.copy.value.status == COMPLETED || r.copy.value.status == FAILED)
  }

  lemma RunAfterSane(r: RunState, action: Action, records: map<string, Download>)
    requires SaneRun(r) && (r.id in records ==> records[r.id].id == r.id)
    ensures var q := RunAfter(r, action, records);
            SaneRun(q) && q.id == r.id && q.cancelled == r.cancelled && (Stores(r, action) ==> q.copy.Some?)
  {
  }

  lemma NextSane(st: State, step: Step)
    requires Sane(st)
    ensures Sane(Next(st, step))
  {
    if step.Act? && step.run < |st.runs| {
      RunAfterSane(st.runs[step.run], step.action, st.records);
    }
  }

  lemma {:induction false} AfterSane(st: State, steps: seq<Step>)
    requires Sane(st)
    ensures Sane(After(st, steps))
  {
    if steps != [] {
      AfterSane(st, steps[..|steps| - 1]);
      NextSane(After(st, steps[..|steps| - 1]), steps[|steps| - 1]);
    }
  }

  // ---- What a run writes ----

  /** With a live context and its download still there, a run at work stores its copy: as it is, completed, or
      failed; and its monitor stores it as it is, as long as there are messages. */
  lemma LiveRunWrites(st: State, run: nat)
    requires Sane(st) && run < |st.runs| && !st.runs[run].cancelled && st.runs[run].id in st.records
    ensures st.runs[run].phase.Working? ==>
              var id, copy := st.runs[run].id, st.runs[run].copy.value;
              && RunNext(st, run, Save).records == st.records[id := copy]
              && RunNext(st, run, Conclude).records == st.records[id := copy.(status := COMPLETED)]
              && RunNext(st, run, Fail).records == st.records[id := copy.(status := FAILED)]
    ensures st.runs[run].pending > 0 ==>
              && RunNext(st, run, Monitor).records == st.records[st.runs[run].id := st.runs[run].copy.value]
              && RunNext(st, run, Monitor).runs[run].pending == st.runs[run].pending - 1
  {
    assert SaneRun(st.runs[run]);
  }

  /** A run that reads its record gets to work with it iff its context is live and the record is there. */
  lemma FetchOutcome(st: State, run: nat)
    requires Sane(st) && run < |st.runs| && st.runs[run].phase.Fetching?
    ensures var r, next := st.runs[run], RunNext(st, run, Fetch);
            && (next.runs[run].phase.Working? <==> !r.cancelled && r.id in st.records)
            && (next.runs[run].phase.Working? ==> next.runs[run].copy == Some(st.records[r.id]))
            && (!next.runs[run].phase.Working? ==> next.runs[run].phase.Leaving?)
  {
  }

  /** The calls on one download: what each makes of its record. */
  lemma CallsChange(st: State, id: string, status: string, priority: int, tags: seq<string>)
    ensures id !in Next(st, Remove(id)).records
    ensures id in st.records ==>
              && Next(st, SetStatus(id, status)).records == st.records[id := st.records[id].(status := status)]
              && Next(st, Edit(id, priority, tags)).records
                 == st.records[id := st.records[id].(priority := priority, tags := tags)]
  {
  }

  /** None of them touches another record, an entry or a run, and an id that is missing stays so. */
  lemma CallsKeepOthers(st: State, id: string, step: Step)
    requires step == Remove(id) || (step.SetStatus? && step.id == id) || (step.Edit? && step.id == id)
    ensures Next(st, step).records - {id} == st.records - {id}
    ensures id !in st.records ==> id !in Next(st, step).records
    ensures Next(st, step).cancels == st.cancels && Next(st, step).runs == st.runs
  {
  }

  /** A cancelled run writes nothing, nor does one whose download is gone, and none writes another download; reading,
      reporting and ending write nothing at all. */
  lemma OtherwiseNothing(st: State, run: nat, action: Action)
    requires Sane(st) && run < |st.runs|
    ensures st.runs[run].cancelled || st.runs[run].id !in st.records || action.Fetch? || action.Message? || action.Exit? ==>
              RunNext(st, run, action).records == st.records
    ensures RunNext(st, run, action).records - {st.runs[run].id} == st.records - {st.runs[run].id}
  {
    assert SaneRun(st.runs[run]);
  }

  // ---- Stickiness ----

  /** A run of the id whose context is alive and which may still store something. */
  predicate MayWrite(r: RunState, id: string) {
    r.id == id && !r.cancelled && (r.phase.Fetching? || r.phase.Working? || r.pending > 0)
  }

  ghost predicate Stray(st: State, id: string) { exists r | 0 <= r < |st.runs| :: MayWrite(st.runs[r], id) }

  /** Steps that are meant to change the status of the id, or its existence. */
  predicate Addresses(step: Step, id: string) {
    match step
    case Start(i) => i == id
    case Resume(i) => i == id
    case Register(i) => i == id
    case SetStatus(i, _) => i == id
    case Remove(i) => i == id
    case Create(d) => d.id == id
    case BulkWrite(d) => d.id == id
    case WriteBack(d) => d.id == id
    case _ => false
  }

  ghost predicate NoneAddresses(steps: seq<Step>, id: string) {
    forall i | 0 <= i < |steps| :: !Addresses(steps[i], id)
  }

  predicate HasStatus(st: State, id: string, status: string) {
    id in st.records && st.records[id].status == status
  }

  /** With no stray run, no step but one that addresses the id touches its status, and none makes a
      stray run. Ticks act only on running and queued downloads. */
  lemma QuietStep(st: State, step: Step, id: string, status: string)
    requires Sane(st) && !Stray(st, id) && HasStatus(st, id, status)
    requires status != RUNNING && status != QUEUED && !Addresses(step, id)
    ensures HasStatus(Next(st, step), id, status) && !Stray(Next(st, step), id)
  {
  }

  lemma {:induction false} QuietSteps(st: State, steps: seq<Step>, id: string, status: string)
    requires Sane(st) && !Stray(st, id) && HasStatus(st, id, status)
    requires status != RUNNING && status != QUEUED && NoneAddresses(steps, id)
    ensures HasStatus(After(st, steps), id, status) && !Stray(After(st, steps), id) && Sane(After(st, steps))
  {
    if steps != [] {
      var n := |steps| - 1;
      QuietSteps(st, steps[..n], id, status);
      NextSane(After(st, steps[..n]), steps[n]);
      QuietStep(After(st, steps[..n]), steps[n], id, status);
    }
  }

  /** Steps by which a stray run overwrites the status of its download. */
  function Overwrite(r: RunState, run: nat): seq<Step> {
    if r.phase.Fetching? then [Act(run, Fetch), Act(run, Fail)]
    else if r.phase.Working? then [Act(run, Fail)]
    else [Act(run, Monitor)]
  }

  lemma AfterOne(st: State, step: Step)
    ensures After(st, [step]) == Next(st, step)
  {
    assert [step][..0] == [];
  }

  lemma AfterTwo(st: State, a: Step, b: Step)
    ensures After(st, [a, b]) == Next(Next(st, a), b)
  {
    AfterOne(st, a);
    assert [a, b][..1] == [a];
  }

  /** One step of a run that is at work, or whose monitor is, stores a final status. */
  lemma FinalStatusStored(st: State, id: string, run: nat, action: Action)
    requires Sane(st) && id in st.records && run < |st.runs| && MayWrite(st.runs[run], id)
    requires if st.runs[run].phase.Working? then action.Fail? else action.Monitor? && st.runs[run].pending > 0
    ensures HasStatus(RunNext(st, run, action), id, FAILED) || HasStatus(RunNext(st, run, action), id, COMPLETED)
  {
    assert SaneRun(st.runs[run]);
  }

  lemma StrayFetches(st: State, id: string, run: nat)
    requires id in st.records && run < |st.runs| && MayWrite(st.runs[run], id) && st.runs[run].phase.Fetching?
    ensures var next := RunNext(st, run, Fetch);
            && next.records == st.records && |next.runs| == |st.runs|
            && MayWrite(next.runs[run], id) && next.runs[run].phase.Working?
  {
  }

  lemma StrayReader(st: State, id: string, run: nat)
    requires Sane(st) && id in st.records && run < |st.runs| && MayWrite(st.runs[run], id) && st.runs[run].phase.Fetching?
    ensures var next := After(st, [Act(run, Fetch), Act(run, Fail)]);
            HasStatus(next, id, FAILED) || HasStatus(next, id, COMPLETED)
  {
    AfterTwo(st, Act(run, Fetch), Act(run, Fail));
    NextSane(st, Act(run, Fetch));
    StrayFetches(st, id, run);
    FinalStatusStored(RunNext(st, run, Fetch), id, run, Fail);
  }

  lemma StrayOverwrites(st: State, id: string, run: nat)
    requires Sane(st) && id in st.records && run < |st.runs| && MayWrite(st.runs[run], id)
    ensures var next := After(st, Overwrite(st.runs[run], run));
            HasStatus(next, id, FAILED) || HasStatus(next, id, COMPLETED)
  {
    var r := st.runs[run];
    if r.phase.Fetching? {
      StrayReader(st, id, run);
    } else {
      var action := if r.phase.Working? then Fail else Monitor;
      AfterOne(st, Act(run, action));
      FinalStatusStored(st, id, run, action);
    }
  }

  /** Exactly when is a paused or cancelled status sticky: it survives every interleaving of steps that
      do not address the id if and only if no run of the id with a live context can still write. */
  lemma StickyIff(st: State, id: string, status: string)
    requires Sane(st) && HasStatus(st, id, status) && (status == PAUSED || status == CANCELLED)
    ensures (forall steps | NoneAddresses(steps, id) :: HasStatus(After(st, steps), id, status)) <==> !Stray(st, id)
  {
    if Stray(st, id) {
      var run :| 0 <= run < |st.runs| && MayWrite(st.runs[run], id);
      StrayOverwrites(st, id, run);
      assert NoneAddresses(Overwrite(st.runs[run], run), id);
      assert !HasStatus(After(st, Overwrite(st.runs[run], run)), id, status);
    } else {
      forall steps | NoneAddresses(steps, id) ensures HasStatus(After(st, steps), id, status) {
        QuietSteps(st, steps, id, status);
      }
    }
  }

  // ---- Guarded runs ----

  /** Start and Resume launch a run only when the id has none whose goroutine is still alive. */
  ghost predicate Guarded(st: State, step: Step) {
    match step
    case Start(id) => id in st.cancels || NoneAlive(st, id)
    case StartQueued(id) => id in st.cancels || NoneAlive(st, id)
    case Resume(id) => NoneAlive(st, id)
    case Register(id) => NoneAlive(st, id)
    case _ => true
  }

  ghost predicate NoneAlive(st: State, id: string) {
    forall r | 0 <= r < |st.runs| && st.runs[r].id == id :: st.runs[r].phase.Exited?
  }

  /** At most one run of an id is alive; if its context is alive too, a Pause will find it. */
  ghost predicate Registered(st: State) {
    && (forall i, j | 0 <= i < j < |st.runs| && st.runs[i].id == st.runs[j].id ::
          st.runs[i].phase.Exited? || st.runs[j].phase.Exited?)
    && (forall r | 0 <= r < |st.runs| && !st.runs[r].phase.Exited? && !st.runs[r].cancelled ::
          st.runs[r].id in st.cancels && st.cancels[st.runs[r].id] == r)
    && (forall id | id in st.cancels ::
          st.cancels[id] < |st.runs| && st.runs[st.cancels[id]].id == id && !st.runs[st.cancels[id]].phase.Exited?)
  }

  lemma LaunchRegistered(st: State, id: string)
    requires Registered(st) && NoneAlive(st, id)
    ensures Registered(Launch(st, id)) && Registered(RegisterNext(st, id))
  {
  }

  /** What an action leaves of a run: only its exit ends it. */
  lemma RunAfterShape(r: RunState, action: Action, records: map<string, Download>)
    ensures var q := RunAfter(r, action, records);
            && q.id == r.id && q.cancelled == r.cancelled
            && (q.phase.Exited? <==> r.phase.Exited? || (action.Exit? && r.phase.Leaving?))
  {
  }

  lemma ReplacedRegistered(st: State, run: nat, q: RunState, next: State)
    requires Registered(st) && run < |st.runs| && next.runs == st.runs[run := q]
    requires q.id == st.runs[run].id && q.cancelled == st.runs[run].cancelled
    requires q.phase.Exited? <== st.runs[run].phase.Exited?
    requires next.cancels == if q.phase.Exited? && !st.runs[run].phase.Exited? then st.cancels - {q.id} else st.cancels
    ensures Registered(next)
  {
  }

  lemma RunNextRegistered(st: State, run: nat, action: Action)
    requires Registered(st)
    ensures Registered(RunNext(st, run, action))
  {
    if run < |st.runs| {
      var q := RunAfter(st.runs[run], action, st.records);
      RunAfterShape(st.runs[run], action, st.records);
      ReplacedRegistered(st, run, q, RunNext(st, run, action));
    }
  }

  lemma NextRegistered(st: State, step: Step)
    requires Registered(st) && Guarded(st, step)
    ensures Registered(Next(st, step))
  {
    match step
    case Start(id) => if id !in st.cancels { LaunchRegistered(st, id); }
    case StartQueued(id) => if id !in st.cancels { LaunchRegistered(st, id); }
    case Resume(id) => LaunchRegistered(st, id);
    case Register(id) => LaunchRegistered(st, id);
    case Act(run, action) => RunNextRegistered(st, run, action);
    case _ =>
  }

  ghost predicate GuardedRun(steps: seq<Step>) {
    steps == [] ||
    (GuardedRun(steps[..|steps| - 1]) && Guarded(After(EMPTY, steps[..|steps| - 1]), steps[|steps| - 1]))
  }

  lemma {:induction false} GuardedRunRegistered(steps: seq<Step>)
    requires GuardedRun(steps)
    ensures Registered(After(EMPTY, steps)) && Sane(After(EMPTY, steps))
  {
    if steps != [] {
      var n := |steps| - 1;
      GuardedRunRegistered(steps[..n]);
      NextRegistered(After(EMPTY, steps[..n]), steps[n]);
      NextSane(After(EMPTY, steps[..n]), steps[n]);
    }
  }

  /** A run that ended on its own while its monitor still has messages to write. */
  predicate IsLeftover(r: RunState, id: string) {
    r.id == id && !r.cancelled && r.phase.Exited? && r.pending > 0
  }

  ghost predicate LeftoverMonitor(st: State, id: string) {
    exists r | 0 <= r < |st.runs| :: IsLeftover(st.runs[r], id)
  }

  /** The state in which a Pause or Cancel returns: signal, then status. */
  function Stopped(st: State, id: string, status: string): State {
    Next(Next(st, Signal(id)), SetStatus(id, status))
  }

  lemma SignalFindsTheRun(st: State, id: string)
    requires Registered(st)
    ensures Stray(Next(st, Signal(id)), id) <==> LeftoverMonitor(st, id)
  {
    var next := Next(st, Signal(id));
    if LeftoverMonitor(st, id) {
      var r :| 0 <= r < |st.runs| && IsLeftover(st.runs[r], id);
      assert MayWrite(next.runs[r], id);
    }
    if Stray(next, id) {
      var r :| 0 <= r < |next.runs| && MayWrite(next.runs[r], id);
      assert IsLeftover(st.runs[r], id);
    }
  }

  lemma StatusKeepsStray(st: State, id: string, status: string)
    ensures Stray(Next(st, SetStatus(id, status)), id) <==> Stray(st, id)
  {
  }

  /** In a guarded run a Pause or Cancel that finds its download is sticky if and only if no run of it that
      ended by itself has progress messages left to write. */
  lemma PauseIsStickyIff(steps: seq<Step>, id: string, status: string)
    requires GuardedRun(steps) && id in After(EMPTY, steps).records && (status == PAUSED || status == CANCELLED)
    ensures var st := After(EMPTY, steps);
            && HasStatus(Stopped(st, id, status), id, status)
            && ((forall later | NoneAddresses(later, id) :: HasStatus(After(Stopped(st, id, status), later), id, status))
                <==> !LeftoverMonitor(st, id))
  {
    var st := After(EMPTY, steps);
    GuardedRunRegistered(steps);
    SignalFindsTheRun(st, id);
    StatusKeepsStray(Next(st, Signal(id)), id, status);
    NextSane(st, Signal(id));
    NextSane(Next(st, Signal(id)), SetStatus(id, status));
    StickyIff(Stopped(st, id, status), id, status);
  }

  // ---- Where stickiness fails ----

  lemma Extend(steps: seq<Step>, step: Step)
    ensures After(EMPTY, steps + [step]) == Next(After(EMPTY, steps), step)
    ensures GuardedRun(steps + [step]) <==> GuardedRun(steps) && Guarded(After(EMPTY, steps), step)
  {
    assert (steps + [step])[..|steps|] == steps;
  }

  /** A state with one download and one run of it. */
  function OneRun(d: Download, cancels: map<string, nat>, r: RunState): State {
    State(map[d.id := d], cancels, [r])
  }

  /** A download at work on the record that it read. */
  function AtWork(n: Download): State {
    OneRun(n, map[n.id := 0], RunState(n.id, false, Working, Some(n), 0))
  }

  function Begun(d: Download, step: Step): seq<Step> { [Create(d), step, Act(0, Fetch)] }

  lemma Started(d: Download, step: Step)
    requires d.status == QUEUED && (step == Start(d.id) || step == StartQueued(d.id))
    ensures GuardedRun([Create(d), step])
    ensures After(EMPTY, [Create(d), step])
         == OneRun(d.(status := RUNNING), map[d.id := 0], RunState(d.id, false, Fetching, None, 0))
  {
    Extend([], Create(d));
    assert [] + [Create(d)] == [Create(d)];
    Extend([Create(d)], step);
    assert [Create(d)] + [step] == [Create(d), step];
    assert After(EMPTY, [Create(d)]) == State(map[d.id := d], map[], []);
  }

  lemma Fetched(d: Download, step: Step)
    requires d.status == QUEUED && (step == Start(d.id) || step == StartQueued(d.id))
    ensures GuardedRun(Begun(d, step))
    ensures After(EMPTY, Begun(d, step)) == AtWork(d.(status := RUNNING))
  {
    Started(d, step);
    Extend([Create(d), step], Act(0, Fetch));
    assert [Create(d), step] + [Act(0, Fetch)] == Begun(d, step);
  }

  function Leftover(d: Download): seq<Step> {
    Begun(d, StartQueued(d.id)) + [Act(0, Message), Act(0, Conclude), Act(0, Exit)]
  }

  /** A run at work reports one message, finishes and ends. */
  lemma FinishState(n: Download)
    ensures Next(Next(Next(AtWork(n), Act(0, Message)), Act(0, Conclude)), Act(0, Exit)) == Abandoned(n.(status := COMPLETED))
  {
    var f := n.(status := COMPLETED);
    var a := Next(AtWork(n), Act(0, Message));
    assert a == OneRun(n, map[n.id := 0], RunState(n.id, false, Working, Some(n), 1));
    var b := Next(a, Act(0, Conclude));
    assert b == OneRun(f, map[n.id := 0], RunState(n.id, false, Leaving, Some(f), 1));
  }

  lemma ExtendThree(steps: seq<Step>, a: Step, b: Step, c: Step)
    requires GuardedRun(steps) && a.Act? && b.Act? && c.Act?
    ensures GuardedRun(steps + [a, b, c])
    ensures After(EMPTY, steps + [a, b, c]) == Next(Next(Next(After(EMPTY, steps), a), b), c)
  {
    Extend(steps, a);
    Extend(steps + [a], b);
    Extend(steps + [a] + [b], c);
    assert steps + [a] + [b] + [c] == steps + [a, b, c];
  }

  /** A run that has ended with a message left for its monitor. */
  function Abandoned(n: Download): State { OneRun(n, map[], RunState(n.id, false, Exited, Some(n), 1)) }

  lemma LeftoverState(d: Download)
    requires d.status == QUEUED
    ensures GuardedRun(Leftover(d)) && After(EMPTY, Leftover(d)) == Abandoned(d.(status := COMPLETED))
  {
    Fetched(d, StartQueued(d.id));
    FinishState(d.(status := RUNNING));
    ExtendThree(Begun(d, StartQueued(d.id)), Act(0, Message), Act(0, Conclude), Act(0, Exit));
  }

  /** A message that the monitor writes after its run has ended undoes a Pause. */
  lemma MonitorUndoesPause(d: Download)
    requires d.status == QUEUED
    ensures GuardedRun(Leftover(d))
    ensures HasStatus(After(Stopped(After(EMPTY, Leftover(d)), d.id, PAUSED), [Act(0, Monitor)]), d.id, COMPLETED)
  {
    var n := d.(status := COMPLETED);
    LeftoverState(d);
    var st := Stopped(After(EMPTY, Leftover(d)), d.id, PAUSED);
    assert st == OneRun(d.(status := PAUSED), map[], RunState(d.id, false, Exited, Some(n), 1));
    AfterOne(st, Act(0, Monitor));
  }

  /** The state after a Pause and a Resume that comes before the paused run has ended. */
  function Overlapping(d: Download): State {
    Next(Stopped(After(EMPTY, Begun(d, Start(d.id))), d.id, PAUSED), Resume(d.id))
  }

  function Overlapped(n: Download): State {
    State(map[n.id := n], map[n.id := 1],
          [RunState(n.id, true, Working, Some(n), 0), RunState(n.id, false, Fetching, None, 0)])
  }

  lemma OverlappingState(d: Download)
    requires d.status == QUEUED
    ensures Overlapping(d) == Overlapped(d.(status := RUNNING))
  {
    Fetched(d, Start(d.id));
    var n := d.(status := RUNNING);
    var st := Next(AtWork(n), Signal(d.id));
    assert st == OneRun(n, map[], RunState(d.id, true, Working, Some(n), 0));
  }

  lemma LateExit(n: Download)
    ensures Next(Next(Overlapped(n), Act(0, Fail)), Act(0, Exit))
         == State(map[n.id := n], map[],
                  [RunState(n.id, true, Exited, Some(n.(status := FAILED)), 0), RunState(n.id, false, Fetching, None, 0)])
  {
    var failed := Next(Overlapped(n), Act(0, Fail));
    assert failed.runs[0] == RunState(n.id, true, Leaving, Some(n.(status := FAILED)), 0);
  }

  /** Without the guard: a run that is paused and resumed before it has ended takes the new run's cancel
      entry with it when it ends, and the next Pause no longer stops the new run. */
  lemma LateExitUndoesPause(d: Download)
    requires d.status == QUEUED
    ensures var ended := Next(Next(Overlapping(d), Act(0, Fail)), Act(0, Exit));
            HasStatus(After(Stopped(ended, d.id, PAUSED), [Act(1, Fetch), Act(1, Fail)]), d.id, FAILED)
  {
    var n := d.(status := RUNNING);
    OverlappingState(d);
    LateExit(n);
    var st := Stopped(Next(Next(Overlapping(d), Act(0, Fail)), Act(0, Exit)), d.id, PAUSED);
    assert st.runs[1] == RunState(d.id, false, Fetching, None, 0) && HasStatus(st, d.id, PAUSED);
    AfterTwo(st, Act(1, Fetch), Act(1, Fail));
  }

  // ---- Calls that overlap ----

  /** Resume is its two parts, and so is a Start that passes its check. */
  lemma LaunchIsTwoSteps(st: State, id: string)
    requires id in st.records
    ensures Next(st, Resume(id)) == Next(Next(st, SetStatus(id, RUNNING)), Register(id))
    ensures id !in st.cancels ==> Next(st, Start(id)) == Next(st, Resume(id))
  {
  }

  /** A Pause that comes between the two parts finds no run to stop, and the run that is registered after it
      overwrites the status. */
  lemma PauseInsideStart(st: State, id: string)
    requires Sane(st) && id in st.records && id !in st.cancels
    ensures var paused := Stopped(Next(st, SetStatus(id, RUNNING)), id, PAUSED);
            var run := |st.runs|;
            && HasStatus(paused, id, PAUSED)
            && (HasStatus(After(Next(paused, Register(id)), [Act(run, Fetch), Act(run, Fail)]), id, FAILED)
                || HasStatus(After(Next(paused, Register(id)), [Act(run, Fetch), Act(run, Fail)]), id, COMPLETED))
  {
    var paused := Stopped(Next(st, SetStatus(id, RUNNING)), id, PAUSED);
    NextSane(st, SetStatus(id, RUNNING));
    NextSane(Next(st, SetStatus(id, RUNNING)), Signal(id));
    NextSane(Next(Next(st, SetStatus(id, RUNNING)), Signal(id)), SetStatus(id, PAUSED));
    NextSane(paused, Register(id));
    StrayReader(Next(paused, Register(id)), id, |st.runs|);
  }

  /** A write of the copy that a tick has listed is a requeue iff the record is still that copy up to
      its status, which is running; a Pause that came between is overwritten. */
  lemma WriteBackIsRequeueIff(st: State, d: Download)
    requires d.id in st.records && d.status == RUNNING
    ensures Next(st, WriteBack(d.(status := QUEUED))) == Next(st, Requeue(d.id)) <==>
            st.records[d.id] == d || st.records[d.id] == d.(status := QUEUED)
    ensures HasStatus(Next(Stopped(st, d.id, PAUSED), WriteBack(d.(status := QUEUED))), d.id, QUEUED)
  {
    var r := st.records[d.id];
    var written := Next(st, WriteBack(d.(status := QUEUED)));
    assert written.records[d.id] == d.(status := QUEUED);
    if r.status == RUNNING {
      assert Next(st, Requeue(d.id)).records[d.id] == r.(status := QUEUED);
    } else {
      assert Next(st, Requeue(d.id)).records[d.id] == r;
    }
    assert written == st.(records := st.records[d.id := d.(status := QUEUED)]);
  }

  // ---- Removal ----

  /** Once a delete has committed, no single-record update brings the record back, whatever runs are
      still alive: only a create or the blind write of a bulk update can. */
  lemma {:induction false} RemovalIsPermanent(st: State, steps: seq<Step>, id: string)
    requires Sane(st) && id !in st.records
    requires forall i | 0 <= i < |steps| :: !Recreates(steps[i], id)
    ensures id !in After(st, steps).records
  {
    if steps != [] {
      var n := |steps| - 1;
      RemovalIsPermanent(st, steps[..n], id);
      AfterSane(st, steps[..n]);
      StaysMissing(After(st, steps[..n]), steps[n], id);
    }
  }

  predicate Recreates(step: Step, id: string) {
    (step.Create? || step.BulkWrite?) && step.d.id == id
  }

  lemma StaysMissing(st: State, step: Step, id: string)
    requires Sane(st) && id !in st.records
    ensures id in Next(st, step).records <==> Recreates(step, id)
  {
  }
}
