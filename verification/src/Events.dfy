/**
 The in-memory publisher (internal/events/publisher.go). A channel is a number into a table of
 bounded buffers; the steps of the model are the critical sections of the code and the receives.
 */
module Events {
  import opened Text

  const CAPACITY := 64

  type Kind = string

  datatype Event = Event(kind: Kind, payload: int)

  /** A channel of capacity 64, and how far its cancel function has got. */
  datatype Channel = Channel(kinds: seq<Kind>, buffer: seq<Event>, removed: bool, closed: bool)

  type Subs = map<Kind, seq<nat>>

  /** `panicked` is set by a send on a closed channel and by closing one twice. */
  datatype State = State(subs: Subs, channels: seq<Channel>, panicked: bool)

  const EMPTY := State(map[], [], false)

  function Listeners(subs: Subs, kind: Kind): seq<nat> { if kind in subs then subs[kind] else [] }

  // ---- Steps ----

  /** A non-blocking send: a full buffer drops the event. */
  function Offer(buffer: seq<Event>, e: Event): seq<Event> {
    if |buffer| < CAPACITY then buffer + [e] else buffer
  }

  function Send(st: State, ch: nat, e: Event): State {
    if ch >= |st.channels| then st
    else if st.channels[ch].closed then st.(panicked := true)
    else st.(channels := st.channels[ch := st.channels[ch].(buffer := Offer(st.channels[ch].buffer, e))])
  }

  function SendAll(st: State, list: seq<nat>, e: Event): State {
    if list == [] then st else Send(SendAll(st, list[..|list| - 1], e), list[|list| - 1], e)
  }

  function Enlist(subs: Subs, kinds: seq<Kind>, ch: nat): Subs {
    if kinds == [] then subs
    else
      var n := |kinds| - 1;
      var before := Enlist(subs, kinds[..n], ch);
      before[kinds[n] := Listeners(before, kinds[n]) + [ch]]
  }

  function RemoveFirst(list: seq<nat>, ch: nat): seq<nat> {
    if list == [] then []
    else if list[0] == ch then list[1..]
    else [list[0]] + RemoveFirst(list[1..], ch)
  }

  function Delist(subs: Subs, kinds: seq<Kind>, ch: nat): Subs {
    if kinds == [] then subs
    else
      var n := |kinds| - 1;
      var before := Delist(subs, kinds[..n], ch);
      if kinds[n] in before then before[kinds[n] := RemoveFirst(before[kinds[n]], ch)] else before
  }

  datatype Step =
    | Publish(e: Event)
    | Subscribe(kinds: seq<Kind>)
    | CancelRemove(ch: nat)
    | CancelClose(ch: nat)
    | Receive(ch: nat)

  function Next(st: State, step: Step): State {
    match step
    case Publish(e) => SendAll(st, Listeners(st.subs, e.kind), e)
    case Subscribe(kinds) =>
      st.(subs := Enlist(st.subs, kinds, |st.channels|), channels := st.channels + [Channel(kinds, [], false, false)])
    case CancelRemove(ch) =>
      if ch >= |st.channels| then st
      else st.(subs := Delist(st.subs, st.channels[ch].kinds, ch),
               channels := st.channels[ch := st.channels[ch].(removed := true)])
    case CancelClose(ch) =>
      if ch >= |st.channels| then st
      else if st.channels[ch].closed then st.(panicked := true)
      else st.(channels := st.channels[ch := st.channels[ch].(closed := true)])
    case Receive(ch) =>
      if ch >= |st.channels| || st.channels[ch].buffer == [] then st
      else st.(channels := st.channels[ch := st.channels[ch].(buffer := st.channels[ch].buffer[1..])])
  }

  function Run(steps: seq<Step>): State {
    if steps == [] then EMPTY else Next(Run(steps[..|steps| - 1]), steps[|steps| - 1])
  }

  // ---- The publisher ----

  class InMemoryPublisher {
    var subs: Subs
    var channels: seq<Channel>
    var panicked: bool

    constructor ()
      ensures View() == EMPTY
    {
      subs, channels, panicked := map[], [], false;
    }

    function View(): State
      reads this
    {
      State(subs, channels, panicked)
    }

    method Publish(e: Event)
      modifies this
      ensures View() == Next(old(View()), Step.Publish(e))
    {
      ghost var start := View();
      var kinds := subs.Keys;
      while kinds != {}
        invariant kinds <= subs.Keys && subs == start.subs
        invariant View() == if e.kind in kinds then start else SendAll(start, Listeners(start.subs, e.kind), e)
        decreases kinds
      {
        var t :| t in kinds;
        kinds := kinds - {t};
        if t == e.kind {
          var chans := subs[t];
          for i := 0 to |chans|
            invariant View() == SendAll(start, chans[..i], e) && subs == start.subs
          {
            SendAllStep(start, chans, i, e);
            SendTo(chans[i], e);
          }
          assert chans[..|chans|] == chans;
        }
      }
    }

    method SendTo(ch: nat, e: Event)
      modifies this
      ensures View() == Send(old(View()), ch, e)
    {
      if ch < |channels| {
        if channels[ch].closed {
          panicked := true;
        } else if |channels[ch].buffer| < CAPACITY {
          channels := channels[ch := channels[ch].(buffer := channels[ch].buffer + [e])];
        }
      }
    }

    method Subscribe(kinds: seq<Kind>) returns (ch: nat)
      modifies this
      ensures View() == Next(old(View()), Step.Subscribe(kinds)) && ch == |old(channels)|
    {
      ch := |channels|;
      channels := channels + [Channel(kinds, [], false, false)];
      for i := 0 to |kinds|
        invariant subs == Enlist(old(subs), kinds[..i], ch)
        invariant channels == old(channels) + [Channel(kinds, [], false, false)] && panicked == old(panicked)
      {
        assert kinds[..i + 1][..i] == kinds[..i];
        subs := subs[kinds[i] := Listeners(subs, kinds[i]) + [ch]];
      }
      assert kinds[..|kinds|] == kinds;
    }

    /** The first half of a cancel: under the lock, take the channel off its lists. */
    method CancelRemove(ch: nat)
      requires ch < |channels|
      modifies this
      ensures View() == Next(old(View()), Step.CancelRemove(ch))
    {
      var kinds := channels[ch].kinds;
      channels := channels[ch := channels[ch].(removed := true)];
      for j := 0 to |kinds|
        invariant subs == Delist(old(subs), kinds[..j], ch)
        invariant channels == old(channels)[ch := old(channels)[ch].(removed := true)] && panicked == old(panicked)
      {
        assert kinds[..j + 1][..j] == kinds[..j];
        if kinds[j] in subs {
          var list := Splice(subs[kinds[j]], ch);
          subs := subs[kinds[j] := list];
        }
      }
      assert kinds[..|kinds|] == kinds;
    }

    /** The second half: close the channel, after the lock is released. */
    method CancelClose(ch: nat)
      requires ch < |channels|
      modifies this
      ensures View() == Next(old(View()), Step.CancelClose(ch))
    {
      if channels[ch].closed {
        panicked := true;
      } else {
        channels := channels[ch := channels[ch].(closed := true)];
      }
    }

    /** The subscriber's end of the channel: the oldest buffered event, if there is one. */
    method Receive(ch: nat) returns (e: Option<Event>)
      requires ch < |channels|
      modifies this
      ensures View() == Next(old(View()), Step.Receive(ch))
      ensures e == if old(channels)[ch].buffer == [] then None else Some(old(channels)[ch].buffer[0])
    {
      if channels[ch].buffer == [] {
        return None;
      }
      e := Some(channels[ch].buffer[0]);
      channels := channels[ch := channels[ch].(buffer := channels[ch].buffer[1..])];
    }
  }

  lemma SendAllStep(st: State, list: seq<nat>, i: nat, e: Event)
    requires i < |list|
    ensures SendAll(st, list[..i + 1], e) == Send(SendAll(st, list[..i], e), list[i], e)
  {
    assert list[..i + 1][..i] == list[..i];
  }

  /** Takes out the first occurrence. */
  method Splice(list: seq<nat>, ch: nat) returns (r: seq<nat>)
    ensures r == RemoveFirst(list, ch)
  {
    for i := 0 to |list|
      invariant RemoveFirst(list, ch) == list[..i] + RemoveFirst(list[i..], ch)
    {
      assert list[i..][1..] == list[i + 1..];
      if list[i] == ch {
        return list[..i] + list[i + 1..];
      }
      assert list[..i + 1] == list[..i] + [list[i]];
    }
    assert list[|list|..] == [] && list[..|list|] == list;
    r := list;
  }

  // ---- What holds on every run ----

  /** How often the channel is to stand in the list of this kind: once for each mention of the kind by
      its Subscribe, until it is cancelled. */
  function Mentions(st: State, ch: nat, kind: Kind): nat {
    if ch < |st.channels| && !st.channels[ch].removed then multiset(st.channels[ch].kinds)[kind] else 0
  }

  /** The lists hold each live subscription as often as it mentions their kind, and nothing else; a
      closed channel has been taken off the lists. */
  ghost predicate Orderly(st: State) {
    && (forall kind, ch: nat :: multiset(Listeners(st.subs, kind))[ch] == Mentions(st, ch, kind))
    && (forall ch | 0 <= ch < |st.channels| :: st.channels[ch].closed ==> st.channels[ch].removed)
  }

  /** A cancel function may be called any number of times, and calls may overlap: each closes the channel
      after it has taken it off the lists. */
  ghost predicate Paired(st: State, step: Step) {
    match step
    case Publish(_) => true
    case Subscribe(_) => true
    case CancelRemove(ch) => ch < |st.channels|
    case CancelClose(ch) => ch < |st.channels| && st.channels[ch].removed
    case Receive(ch) => ch < |st.channels|
  }

  ghost predicate PairedRun(steps: seq<Step>) {
    steps == [] ||
    (PairedRun(steps[..|steps| - 1]) && Paired(Run(steps[..|steps| - 1]), steps[|steps| - 1]))
  }

  /** No cancel function is called twice. */
  predicate CalledOnce(steps: seq<Step>) {
    forall i, j | 0 <= i < j < |steps| :: !(steps[i].CancelClose? && steps[i] == steps[j])
  }

  lemma {:induction false} RemoveFirstRemoves(list: seq<nat>, ch: nat)
    ensures multiset(RemoveFirst(list, ch)) == multiset(list) - multiset{ch}
  {
    if list != [] {
      assert list == [list[0]] + list[1..];
      RemoveFirstRemoves(list[1..], ch);
    }
  }

  lemma LastMention<T>(list: seq<T>, x: T)
    requires list != []
    ensures multiset(list)[x] == multiset(list[..|list| - 1])[x] + (if list[|list| - 1] == x then 1 else 0)
  {
    assert list == list[..|list| - 1] + [list[|list| - 1]];
  }

  lemma {:induction false} EnlistAdds(subs: Subs, kinds: seq<Kind>, ch: nat, kind: Kind, x: nat)
    ensures multiset(Listeners(Enlist(subs, kinds, ch), kind))[x]
         == multiset(Listeners(subs, kind))[x] + (if x == ch then multiset(kinds)[kind] else 0)
  {
    if kinds != [] {
      EnlistAdds(subs, kinds[..|kinds| - 1], ch, kind, x);
      LastMention(kinds, kind);
    }
  }

  lemma DelistOne(subs: Subs, k: Kind, ch: nat, kind: Kind, x: nat)
    requires k == kind ==> multiset(Listeners(subs, kind))[ch] > 0
    ensures k == kind ==> k in subs
    ensures var next := if k in subs then subs[k := RemoveFirst(subs[k], ch)] else subs;
            multiset(Listeners(next, kind))[x] == multiset(Listeners(subs, kind))[x] - (if x == ch && k == kind then 1 else 0)
  {
    if k == kind {
      RemoveFirstRemoves(Listeners(subs, kind), ch);
    }
  }

  lemma {:induction false} DelistRemoves(subs: Subs, kinds: seq<Kind>, ch: nat, kind: Kind)
    requires multiset(kinds)[kind] <= multiset(Listeners(subs, kind))[ch]
    ensures forall x :: multiset(Listeners(Delist(subs, kinds, ch), kind))[x]
                     == multiset(Listeners(subs, kind))[x] - (if x == ch then multiset(kinds)[kind] else 0)
  {
    if kinds != [] {
      var n := |kinds| - 1;
      LastMention(kinds, kind);
      DelistRemoves(subs, kinds[..n], ch, kind);
      forall x ensures multiset(Listeners(Delist(subs, kinds, ch), kind))[x]
                    == multiset(Listeners(subs, kind))[x] - (if x == ch then multiset(kinds)[kind] else 0)
      {
        DelistOne(Delist(subs, kinds[..n], ch), kinds[n], ch, kind, x);
      }
    }
  }

  lemma {:induction false} RemoveFirstAbsent(list: seq<nat>, ch: nat)
    requires ch !in list
    ensures RemoveFirst(list, ch) == list
  {
    if list != [] {
      assert list == [list[0]] + list[1..];
      RemoveFirstAbsent(list[1..], ch);
    }
  }

  lemma {:induction false} DelistNothing(subs: Subs, kinds: seq<Kind>, ch: nat)
    requires forall kind :: ch !in Listeners(subs, kind)
    ensures Delist(subs, kinds, ch) == subs
  {
    if kinds != [] {
      var k := kinds[|kinds| - 1];
      DelistNothing(subs, kinds[..|kinds| - 1], ch);
      assert ch !in Listeners(subs, k);
      RemoveFirstAbsent(Listeners(subs, k), ch);
    }
  }

  /** One event offered several times over. */
  function OfferTimes(buffer: seq<Event>, e: Event, n: nat): seq<Event> {
    if n == 0 then buffer else Offer(OfferTimes(buffer, e, n - 1), e)
  }

  function Offered(c: Channel, e: Event, n: nat): Channel { c.(buffer := OfferTimes(c.buffer, e, n)) }

  /** Sending to open channels offers the event to each as often as it is listed. */
  lemma {:induction false} SendAllOffers(st: State, list: seq<nat>, e: Event)
    requires forall i | 0 <= i < |list| :: list[i] < |st.channels| && !st.channels[list[i]].closed
    ensures var next := SendAll(st, list, e);
            && next == st.(channels := next.channels) && |next.channels| == |st.channels|
            && forall ch | 0 <= ch < |st.channels| :: next.channels[ch] == Offered(st.channels[ch], e, multiset(list)[ch])
  {
    if list != [] {
      var n := |list| - 1;
      SendAllOffers(st, list[..n], e);
      forall ch: nat ensures multiset(list)[ch] == multiset(list[..n])[ch] + (if list[n] == ch then 1 else 0) {
        LastMention(list, ch);
      }
    }
  }

  lemma PublishOffers(st: State, e: Event)
    requires Orderly(st)
    ensures var next := Next(st, Publish(e));
            && next == st.(channels := next.channels) && |next.channels| == |st.channels|
            && forall ch | 0 <= ch < |st.channels| ::
                 next.channels[ch] == Offered(st.channels[ch], e, Mentions(st, ch, e.kind))
  {
    var list := Listeners(st.subs, e.kind);
    forall i | 0 <= i < |list| ensures list[i] < |st.channels| && !st.channels[list[i]].closed {
      assert list[i] in multiset(list);
    }
    SendAllOffers(st, list, e);
  }

  /** Changing buffers, or closing channels that are off the lists, leaves the lists in order. */
  lemma BuffersDoNotMatter(st: State, next: State)
    requires Orderly(st) && next == st.(channels := next.channels) && |next.channels| == |st.channels|
    requires forall ch | 0 <= ch < |st.channels| ::
               && next.channels[ch].kinds == st.channels[ch].kinds && next.channels[ch].removed == st.channels[ch].removed
               && (next.channels[ch].closed ==> next.channels[ch].removed)
    ensures Orderly(next)
  {
    forall kind, ch: nat ensures Mentions(next, ch, kind) == Mentions(st, ch, kind) {}
  }

  lemma SubscribeOrderly(st: State, kinds: seq<Kind>)
    requires Orderly(st)
    ensures Orderly(Next(st, Subscribe(kinds)))
  {
    var n := |st.channels|;
    var next := Next(st, Subscribe(kinds));
    forall kind, ch: nat ensures multiset(Listeners(next.subs, kind))[ch] == Mentions(next, ch, kind) {
      EnlistAdds(st.subs, kinds, n, kind, ch);
      assert Mentions(st, n, kind) == 0;
      assert ch != n ==> Mentions(next, ch, kind) == Mentions(st, ch, kind);
    }
  }

  lemma RemoveOrderly(st: State, c: nat)
    requires Orderly(st) && c < |st.channels|
    ensures Orderly(Next(st, CancelRemove(c)))
  {
    var next := Next(st, CancelRemove(c));
    var kinds := st.channels[c].kinds;
    if st.channels[c].removed {
      forall kind ensures c !in Listeners(st.subs, kind) { OffTheLists(st, c, kind); }
      DelistNothing(st.subs, kinds, c);
      assert next == st;
    } else {
      forall kind, ch: nat ensures multiset(Listeners(next.subs, kind))[ch] == Mentions(next, ch, kind) {
        assert Mentions(st, c, kind) == multiset(kinds)[kind];
        DelistRemoves(st.subs, kinds, c, kind);
        assert ch != c ==> Mentions(next, ch, kind) == Mentions(st, ch, kind);
      }
    }
  }

  lemma OffTheLists(st: State, ch: nat, kind: Kind)
    requires Orderly(st) && ch < |st.channels| && st.channels[ch].removed
    ensures ch !in Listeners(st.subs, kind)
  {
    assert multiset(Listeners(st.subs, kind))[ch] == Mentions(st, ch, kind);
  }

  /** Every paired step keeps the lists in order, and panics iff it closes a channel a second time:
      publishing, subscribing and receiving never do. */
  lemma StepOrderly(st: State, step: Step)
    requires Orderly(st) && Paired(st, step)
    ensures Orderly(Next(st, step))
    ensures Next(st, step).panicked <==> st.panicked || (step.CancelClose? && st.channels[step.ch].closed)
  {
    match step
    case Publish(e) => PublishOffers(st, e); BuffersDoNotMatter(st, Next(st, step));
    case Subscribe(kinds) => SubscribeOrderly(st, kinds);
    case CancelRemove(ch) => RemoveOrderly(st, ch);
    case CancelClose(ch) => if !st.channels[ch].closed { BuffersDoNotMatter(st, Next(st, step)); }
    case Receive(ch) => BuffersDoNotMatter(st, Next(st, step));
  }

  /** A channel is closed once its cancel function has been called. */
  lemma {:induction false} ClosedIff(steps: seq<Step>, ch: nat)
    requires PairedRun(steps)
    ensures Orderly(Run(steps))
    ensures ch < |Run(steps).channels| && Run(steps).channels[ch].closed <==>
            exists i :: 0 <= i < |steps| && steps[i] == CancelClose(ch)
  {
    if steps != [] {
      var n := |steps| - 1;
      var st := Run(steps[..n]);
      ClosedIff(steps[..n], ch);
      StepOrderly(st, steps[n]);
      ClosedNext(st, steps[n], ch);
      assert forall i | 0 <= i < n :: steps[..n][i] == steps[i];
      if i :| 0 <= i < |steps| && steps[i] == CancelClose(ch) {
        assert i < n ==> steps[..n][i] == CancelClose(ch);
      }
    }
  }

  lemma ClosedNext(st: State, step: Step, ch: nat)
    requires Orderly(st) && Paired(st, step)
    ensures ch < |Next(st, step).channels| && Next(st, step).channels[ch].closed <==>
            step == CancelClose(ch) || (ch < |st.channels| && st.channels[ch].closed)
  {
    if step.Publish? {
      PublishOffers(st, step.e);
    }
  }

  /** Whatever kinds subscriptions name and however often, and however the calls of cancel functions
      overlap: the program panics iff some cancel function is called a second time. */
  lemma {:induction false} PanicsIff(steps: seq<Step>)
    requires PairedRun(steps)
    ensures Run(steps).panicked <==> !CalledOnce(steps)
  {
    if steps != [] {
      var n := |steps| - 1;
      PanicsIff(steps[..n]);
      LastCall(steps);
      if steps[n].CancelClose? {
        ClosedIff(steps[..n], steps[n].ch);
      } else {
        ClosedIff(steps[..n], 0);
      }
      StepOrderly(Run(steps[..n]), steps[n]);
    }
  }

  lemma LastCall(steps: seq<Step>)
    requires steps != []
    ensures var n := |steps| - 1;
            CalledOnce(steps) <==>
            CalledOnce(steps[..n]) && !(steps[n].CancelClose? && exists i :: 0 <= i < n && steps[..n][i] == steps[n])
  {
    var n := |steps| - 1;
    assert forall i | 0 <= i < n :: steps[..n][i] == steps[i];
    if i :| 0 <= i < n && steps[..n][i] == steps[n] {
      assert steps[i] == steps[n];
    }
  }

  /** On every run that calls each cancel function at most once, nothing is sent on a closed channel, none
      is closed twice; and on every run a cancelled channel stands in no list. */
  lemma RunOrderly(steps: seq<Step>)
    requires PairedRun(steps)
    ensures Orderly(Run(steps)) && (CalledOnce(steps) ==> !Run(steps).panicked)
    ensures forall ch: nat, kind | ch < |Run(steps).channels| && Run(steps).channels[ch].removed ::
              ch !in Listeners(Run(steps).subs, kind)
  {
    ClosedIff(steps, 0);
    PanicsIff(steps);
    forall ch: nat, kind | ch < |Run(steps).channels| && Run(steps).channels[ch].removed
      ensures ch !in Listeners(Run(steps).subs, kind)
    {
      OffTheLists(Run(steps), ch, kind);
    }
  }

  // ---- Each subscriber has a mailbox of its own ----

  /** One subscription by itself: what it asked for, whether it still listens, and its events. */
  datatype Mail = Mail(kinds: seq<Kind>, open: bool, buffer: seq<Event>, received: seq<Event>)

  function Subscriptions(steps: seq<Step>): nat {
    if steps == [] then 0
    else Subscriptions(steps[..|steps| - 1]) + (if steps[|steps| - 1].Subscribe? then 1 else 0)
  }

  /** How often the subscription is to get what a step publishes. */
  function Times(m: Option<Mail>, step: Step): nat {
    if m.Some? && m.value.open && step.Publish? then multiset(m.value.kinds)[step.e.kind] else 0
  }

  /** The ch-th subscription, told without lists: a bounded mailbox for the events of its kinds. */
  function MailOf(steps: seq<Step>, ch: nat): Option<Mail> {
    if steps == [] then None
    else
      var before, step := MailOf(steps[..|steps| - 1], ch), steps[|steps| - 1];
      if step.Subscribe? && Subscriptions(steps[..|steps| - 1]) == ch then Some(Mail(step.kinds, true, [], []))
      else NextMail(before, step, ch)
  }

  function NextMail(m: Option<Mail>, step: Step, ch: nat): Option<Mail> {
    if m.None? then None
    else if step.Publish? then Some(m.value.(buffer := OfferTimes(m.value.buffer, step.e, Times(m, step))))
    else if step == CancelRemove(ch) then Some(m.value.(open := false))
    else if step == Receive(ch) && m.value.buffer != [] then
      Some(m.value.(buffer := m.value.buffer[1..], received := m.value.received + [m.value.buffer[0]]))
    else m
  }

  ghost predicate SameMail(st: State, ch: nat, m: Option<Mail>) {
    if ch < |st.channels|
    then m.Some? && st.channels[ch].kinds == m.value.kinds && st.channels[ch].buffer == m.value.buffer
         && st.channels[ch].removed == !m.value.open
    else m.None?
  }

  lemma SameMailNext(st: State, step: Step, ch: nat, m: Option<Mail>)
    requires Orderly(st) && SameMail(st, ch, m) && !step.Subscribe?
    ensures |Next(st, step).channels| == |st.channels| && SameMail(Next(st, step), ch, NextMail(m, step, ch))
  {
    if step.Publish? {
      PublishOffers(st, step.e);
      assert ch < |st.channels| ==> Mentions(st, ch, step.e.kind) == Times(m, step);
    }
  }

  /** The shared lists deliver to each subscriber exactly what its own mailbox would hold. */
  lemma {:induction false} ListsRefineMailboxes(steps: seq<Step>, ch: nat)
    requires PairedRun(steps)
    ensures |Run(steps).channels| == Subscriptions(steps) && SameMail(Run(steps), ch, MailOf(steps, ch))
  {
    if steps != [] {
      var n := |steps| - 1;
      ListsRefineMailboxes(steps[..n], ch);
      if !steps[n].Subscribe? {
        RunOrderly(steps[..n]);
        SameMailNext(Run(steps[..n]), steps[n], ch, MailOf(steps[..n], ch));
      }
    }
  }

  // ---- What a subscriber gets ----

  function Copies(e: Event, n: nat): (r: seq<Event>)
    ensures |r| == n && forall x | x in r :: x == e
  {
    if n == 0 then [] else Copies(e, n - 1) + [e]
  }

  /** How many of the copies offered still fit. */
  function Room(m: Option<Mail>, step: Step): (n: nat)
    ensures n <= Times(m, step)
  {
    var times := Times(m, step);
    if times == 0 || |m.value.buffer| >= CAPACITY then 0
    else if |m.value.buffer| + times <= CAPACITY then times
    else CAPACITY - |m.value.buffer|
  }

  function Delivered(m: Option<Mail>, step: Step): seq<Event> {
    if step.Publish? then Copies(step.e, Room(m, step)) else []
  }

  /** The published events that the subscription listens for while it is open, each as often as the
      subscription mentions its kind. */
  function Heard(steps: seq<Step>, ch: nat): seq<Event> {
    if steps == [] then []
    else
      var n := |steps| - 1;
      Heard(steps[..n], ch) + (if steps[n].Publish? then Copies(steps[n].e, Times(MailOf(steps[..n], ch), steps[n])) else [])
  }

  /** Those of them that met a full buffer. */
  function Dropped(steps: seq<Step>, ch: nat): seq<Event> {
    if steps == [] then []
    else
      var n := |steps| - 1;
      var m := MailOf(steps[..n], ch);
      Dropped(steps[..n], ch) + (if steps[n].Publish? then Copies(steps[n].e, Times(m, steps[n]) - Room(m, steps[n])) else [])
  }

  ghost predicate Subsequence(a: seq<Event>, b: seq<Event>) {
    if a == [] then true
    else if b == [] then false
    else
      || (a[|a| - 1] == b[|b| - 1] && Subsequence(a[..|a| - 1], b[..|b| - 1]))
      || Subsequence(a, b[..|b| - 1])
  }

  function Stream(m: Option<Mail>): seq<Event> { if m.None? then [] else m.value.received + m.value.buffer }

  /** Before its Subscribe a subscription has heard nothing. */
  lemma {:induction false} NotYetSubscribed(steps: seq<Step>, ch: nat)
    ensures MailOf(steps, ch).None? ==> Heard(steps, ch) == [] && Dropped(steps, ch) == []
    ensures Subscriptions(steps) <= ch ==> MailOf(steps, ch).None?
  {
    if steps != [] {
      NotYetSubscribed(steps[..|steps| - 1], ch);
    }
  }

  lemma {:induction false} OfferTimesFills(buffer: seq<Event>, e: Event, n: nat)
    ensures OfferTimes(buffer, e, n)
         == buffer + Copies(e, if |buffer| >= CAPACITY then 0 else if |buffer| + n <= CAPACITY then n else CAPACITY - |buffer|)
  {
    if n > 0 {
      OfferTimesFills(buffer, e, n - 1);
    }
  }

  /** One step adds to a stream the copies for which there is room. */
  lemma StreamStep(m: Option<Mail>, step: Step, ch: nat)
    ensures Stream(NextMail(m, step, ch)) == Stream(m) + Delivered(m, step)
  {
    if m.Some? && step.Publish? {
      OfferTimesFills(m.value.buffer, step.e, Times(m, step));
    }
    if step == Receive(ch) && m.Some? && m.value.buffer != [] {
      assert m.value.buffer == [m.value.buffer[0]] + m.value.buffer[1..];
    }
  }

  lemma SubsequenceStep(a: seq<Event>, b: seq<Event>, e: Event)
    requires Subsequence(a, b)
    ensures Subsequence(a, b + [e]) && Subsequence(a + [e], b + [e])
  {
    assert (b + [e])[..|b|] == b && (a + [e])[..|a|] == a;
  }

  /** A stream may grow along with what is heard, or what is heard alone. */
  lemma {:induction false} SubsequenceGrows(a: seq<Event>, b: seq<Event>, e: Event, m: nat, n: nat)
    requires Subsequence(a, b) && m <= n
    ensures Subsequence(a + Copies(e, m), b + Copies(e, n))
  {
    if n == 0 {
      assert a + [] == a && b + [] == b;
    } else {
      assert b + Copies(e, n) == b + Copies(e, n - 1) + [e];
      if m < n {
        SubsequenceGrows(a, b, e, m, n - 1);
        SubsequenceStep(a + Copies(e, m), b + Copies(e, n - 1), e);
      } else {
        SubsequenceGrows(a, b, e, m - 1, n - 1);
        assert a + Copies(e, m) == a + Copies(e, m - 1) + [e];
        SubsequenceStep(a + Copies(e, m - 1), b + Copies(e, n - 1), e);
      }
    }
  }

  /** The stream of a subscriber, received and still buffered, keeps the order of publication; an event
      is missing from it only if its buffer held 64 events when it was published. */
  lemma {:induction false} StreamIsOrdered(steps: seq<Step>, ch: nat)
    ensures Subsequence(Stream(MailOf(steps, ch)), Heard(steps, ch))
    ensures |Stream(MailOf(steps, ch))| + |Dropped(steps, ch)| == |Heard(steps, ch)|
  {
    if steps != [] {
      var n := |steps| - 1;
      var m := MailOf(steps[..n], ch);
      StreamIsOrdered(steps[..n], ch);
      NotYetSubscribed(steps[..n], ch);
      StreamStep(m, steps[n], ch);
      assert Stream(MailOf(steps, ch)) == Stream(m) + Delivered(m, steps[n]);
      if steps[n].Publish? {
        SubsequenceGrows(Stream(m), Heard(steps[..n], ch), steps[n].e, Room(m, steps[n]), Times(m, steps[n]));
      }
      assert Stream(m) + [] == Stream(m) && Heard(steps[..n], ch) + [] == Heard(steps[..n], ch);
    }
  }

  /** A buffer holds 64 events at most, and copies are dropped only when they leave it with 64. */
  lemma {:induction false} DropsOnlyAt64(steps: seq<Step>, ch: nat)
    ensures MailOf(steps, ch).Some? ==> |MailOf(steps, ch).value.buffer| <= 64
    ensures steps != [] && |Dropped(steps, ch)| > |Dropped(steps[..|steps| - 1], ch)| ==>
              MailOf(steps, ch).Some? && |MailOf(steps, ch).value.buffer| == 64
  {
    if steps != [] {
      var n := |steps| - 1;
      var m := MailOf(steps[..n], ch);
      DropsOnlyAt64(steps[..n], ch);
      if m.Some? && steps[n].Publish? {
        OfferTimesFills(m.value.buffer, steps[n].e, Times(m, steps[n]));
      }
    }
  }

  /** With nothing dropped the stream is all that was heard. */
  lemma {:induction false} NothingDropped(a: seq<Event>, b: seq<Event>)
    requires Subsequence(a, b) && |a| == |b|
    ensures a == b
  {
    if a != [] {
      SubsequenceShorter(a, b[..|b| - 1]);
      NothingDropped(a[..|a| - 1], b[..|b| - 1]);
    }
  }

  lemma {:induction false} SubsequenceShorter(a: seq<Event>, b: seq<Event>)
    ensures Subsequence(a, b) ==> |a| <= |b|
  {
    if a != [] && b != [] {
      SubsequenceShorter(a[..|a| - 1], b[..|b| - 1]);
      SubsequenceShorter(a, b[..|b| - 1]);
    }
  }

  /** A subscriber whose buffer never fills gets every event it listens for. */
  lemma DrainedSubscriberMissesNothing(steps: seq<Step>, ch: nat)
    requires Dropped(steps, ch) == []
    ensures Stream(MailOf(steps, ch)) == Heard(steps, ch)
  {
    StreamIsOrdered(steps, ch);
    NothingDropped(Stream(MailOf(steps, ch)), Heard(steps, ch));
  }

  // ---- Subscriptions that name each kind once ----

  predicate NoRepeats<T(==)>(list: seq<T>) { forall i, j | 0 <= i < j < |list| :: list[i] != list[j] }

  /** All events published, each once, that are of one of the kinds. */
  function Published(steps: seq<Step>, kinds: seq<Kind>): seq<Event> {
    if steps == [] then []
    else
      var step := steps[|steps| - 1];
      Published(steps[..|steps| - 1], kinds) + (if step.Publish? && step.e.kind in kinds then [step.e] else [])
  }

  lemma {:induction false} MentionedOnce<T>(list: seq<T>, x: T)
    requires NoRepeats(list)
    ensures multiset(list)[x] == if x in list then 1 else 0
  {
    if list != [] {
      var n := |list| - 1;
      LastMention(list, x);
      MentionedOnce(list[..n], x);
      assert list == list[..n] + [list[n]];
      assert x in list[..n] ==> x != list[n];
    }
  }

  /** What a subscription with distinct kinds hears is a part of what is published, nothing twice. */
  lemma {:induction false} HeardIsPublished(steps: seq<Step>, ch: nat, kinds: seq<Kind>)
    requires NoRepeats(kinds) && (MailOf(steps, ch).Some? ==> MailOf(steps, ch).value.kinds == kinds)
    ensures Subsequence(Heard(steps, ch), Published(steps, kinds))
  {
    if steps != [] {
      var n := |steps| - 1;
      var m, step := MailOf(steps[..n], ch), steps[n];
      if step.Subscribe? && Subscriptions(steps[..n]) == ch {
        NotYetSubscribed(steps[..n], ch);
        assert Heard(steps, ch) == [];
      } else {
        HeardIsPublished(steps[..n], ch, kinds);
        if step.Publish? {
          MentionedOnce(kinds, step.e.kind);
          var one := if step.e.kind in kinds then 1 else 0;
          SubsequenceGrows(Heard(steps[..n], ch), Published(steps[..n], kinds), step.e, Times(m, step), one);
          assert Copies(step.e, 1) == [step.e];
        }
        assert Heard(steps[..n], ch) + [] == Heard(steps[..n], ch);
        assert Published(steps[..n], kinds) + [] == Published(steps[..n], kinds);
      }
    }
  }

  lemma {:induction false} SubsequenceTransitive(a: seq<Event>, b: seq<Event>, c: seq<Event>)
    requires Subsequence(a, b) && Subsequence(b, c)
    ensures Subsequence(a, c)
  {
    if a != [] {
      var shorter := c[..|c| - 1];
      if b[|b| - 1] == c[|c| - 1] && Subsequence(b[..|b| - 1], shorter) {
        if a[|a| - 1] == b[|b| - 1] && Subsequence(a[..|a| - 1], b[..|b| - 1]) {
          SubsequenceTransitive(a[..|a| - 1], b[..|b| - 1], shorter);
        } else {
          SubsequenceTransitive(a, b[..|b| - 1], shorter);
        }
      } else {
        SubsequenceTransitive(a, b, shorter);
      }
    }
  }

  /** With distinct kinds a stream is an order-preserving part of the matching events published. */
  lemma DistinctKindsStream(steps: seq<Step>, ch: nat)
    requires MailOf(steps, ch).Some? && NoRepeats(MailOf(steps, ch).value.kinds)
    ensures Subsequence(Stream(MailOf(steps, ch)), Published(steps, MailOf(steps, ch).value.kinds))
  {
    StreamIsOrdered(steps, ch);
    HeardIsPublished(steps, ch, MailOf(steps, ch).value.kinds);
    SubsequenceTransitive(Stream(MailOf(steps, ch)), Heard(steps, ch), Published(steps, MailOf(steps, ch).value.kinds));
  }

  /** A subscription and the first event of one of its kinds. */
  function FirstEvent(kinds: seq<Kind>, kind: Kind): seq<Step> { [Subscribe(kinds), Publish(Event(kind, 0))] }

  lemma FirstEventHeard(kinds: seq<Kind>, kind: Kind)
    ensures PairedRun(FirstEvent(kinds, kind))
    ensures MailOf(FirstEvent(kinds, kind), 0).Some? && MailOf(FirstEvent(kinds, kind), 0).value.kinds == kinds
    ensures |Stream(MailOf(FirstEvent(kinds, kind), 0))|
         == if multiset(kinds)[kind] <= CAPACITY then multiset(kinds)[kind] else CAPACITY
  {
    var first, publish := [Subscribe(kinds)], Publish(Event(kind, 0));
    assert first[..0] == [] && FirstEvent(kinds, kind)[..1] == first;
    var m := Some(Mail(kinds, true, [], []));
    assert MailOf(first, 0) == m;
    StreamStep(m, publish, 0);
    assert MailOf(FirstEvent(kinds, kind), 0) == NextMail(m, publish, 0);
  }

  lemma {:induction false} MentionsAtLeastTwo<T>(list: seq<T>, i: nat, j: nat)
    requires i < j < |list| && list[i] == list[j]
    ensures multiset(list)[list[i]] >= 2
  {
    assert list == list[..j] + [list[j]] + list[j + 1..];
    assert list[..j][i] == list[i] && list[i] in multiset(list[..j]);
  }

  lemma PublishedOnce(kinds: seq<Kind>, kind: Kind)
    ensures |Published(FirstEvent(kinds, kind), kinds)| <= 1
  {
    var first := [Subscribe(kinds)];
    assert first[..0] == [] && FirstEvent(kinds, kind)[..1] == first;
    assert Published(first, kinds) == [];
  }

  /** Exactly the subscriptions with distinct kinds have, on every run, a stream that is an
      order-preserving part of the matching events published; any other one gets some event more than once. */
  lemma DistinctKindsIff(kinds: seq<Kind>)
    ensures NoRepeats(kinds) <==>
            forall steps, ch | PairedRun(steps) && MailOf(steps, ch).Some? && MailOf(steps, ch).value.kinds == kinds ::
              Subsequence(Stream(MailOf(steps, ch)), Published(steps, kinds))
  {
    if NoRepeats(kinds) {
      forall steps, ch | PairedRun(steps) && MailOf(steps, ch).Some? && MailOf(steps, ch).value.kinds == kinds
        ensures Subsequence(Stream(MailOf(steps, ch)), Published(steps, kinds))
      {
        DistinctKindsStream(steps, ch);
      }
    } else {
      var i, j :| 0 <= i < j < |kinds| && kinds[i] == kinds[j];
      var steps := FirstEvent(kinds, kinds[i]);
      FirstEventHeard(kinds, kinds[i]);
      MentionsAtLeastTwo(kinds, i, j);
      PublishedOnce(kinds, kinds[i]);
      SubsequenceShorter(Stream(MailOf(steps, 0)), Published(steps, kinds));
      assert !Subsequence(Stream(MailOf(steps, 0)), Published(steps, kinds));
    }
  }

  /** A kind that is named n times has its first event delivered n times, as far as the buffer goes. */
  lemma RepeatedKindHearsTwice(kinds: seq<Kind>, kind: Kind)
    requires multiset(kinds)[kind] <= CAPACITY
    ensures Stream(MailOf(FirstEvent(kinds, kind), 0)) == Copies(Event(kind, 0), multiset(kinds)[kind])
  {
    var first, publish := [Subscribe(kinds)], Publish(Event(kind, 0));
    assert first[..0] == [] && FirstEvent(kinds, kind)[..1] == first;
    StreamStep(MailOf(first, 0), publish, 0);
  }
}
