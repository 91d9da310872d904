/** The library as imperative code on the shared records. The small methods are the code's critical
    sections: each is one step of the transition system, whatever mutexes other calls hold. The large
    ones are whole calls that meet no contention: every mutex is free when the call starts (other
    multi-waits may sleep), and the call runs without interference until it returns or sleeps. */
module PeventsCalls {
  import opened Pevents
  import opened PeventsInvariant
  import opened PeventsPatch
  import opened PeventsSteps
  import opened PeventsFifo

  datatype Option<T> = None | Some(value: T)

  /** No mutex is held. */
  predicate Quiescent(s: Sys) {
    && (forall e | 0 <= e < |s.events| :: s.events[e].holder.Free?)
    && (forall w | 0 <= w < |s.waiters| :: s.waiters[w].lock.Unlocked?)
  }

  /** No mutex is held except that of event `e`. */
  predicate OnlyOwned(s: Sys, e: nat) {
    && (forall f | 0 <= f < |s.events| && f != e :: s.events[f].holder.Free?)
    && (forall w | 0 <= w < |s.waiters| :: s.waiters[w].lock.Unlocked?)
  }

  /** Call `w` holds its own waiter's mutex, and no other mutex is held. */
  predicate OnlyCall(s: Sys, w: nat) {
    && w < |s.waiters| && s.waiters[w].lock.ByCall?
    && (forall e | 0 <= e < |s.events| :: s.events[e].holder.Free?)
    && (forall v | 0 <= v < |s.waiters| && v != w :: s.waiters[v].lock.Unlocked?)
  }

  /** Position `j` can be taken by a scan that nobody interferes with: its event is signalled, and
      no earlier position of the same call has taken an auto-reset signal from it. */
  predicate Available(evs: seq<nat>, j: nat, events: seq<Event>)
    requires j < |evs| && evs[j] < |events|
  {
    events[evs[j]].state && (events[evs[j]].autoReset ==> evs[j] !in evs[..j])
  }

  predicate AllExist(evs: seq<nat>, events: seq<Event>) {
    forall j | 0 <= j < |evs| :: evs[j] < |events|
  }

  /** How many of the first `n` positions such a scan takes. */
  function Taken(evs: seq<nat>, n: nat, events: seq<Event>): (k: nat)
    requires n <= |evs| && AllExist(evs, events)
    ensures k <= n && (k == n <==> forall j | 0 <= j < n :: Available(evs, j, events))
  {
    if n == 0 then 0
    else Taken(evs, n - 1, events) + if Available(evs, n - 1, events) then 1 else 0
  }

  /** The state of each event after a wait-all scanned `n` positions. */
  predicate StatesAfter(evs: seq<nat>, n: nat, was: seq<Event>, events: seq<Event>)
    requires n <= |evs|
  {
    && |events| == |was|
    && forall e | 0 <= e < |was| ::
         && events[e].autoReset == was[e].autoReset && events[e].alive == was[e].alive
         && events[e].state == (was[e].state && !(was[e].autoReset && e in evs[..n]))
  }

  /** The states after a wait-any took the signal of `e`. */
  predicate StatesTaking(e: nat, was: seq<Event>, events: seq<Event>) {
    && |events| == |was|
    && forall f | 0 <= f < |was| ::
         && events[f].autoReset == was[f].autoReset && events[f].alive == was[f].alive
         && events[f].state == (was[f].state && !(f == e && was[f].autoReset))
  }

  /** A scan that met no interference: `wt` is its waiter, `was` the events when it started. */
  predicate ScanSoFar(evs: seq<nat>, was: seq<Event>, wt: Waiter, events: seq<Event>)
    requires AllExist(evs, was)
  {
    && wt.events == evs && wt.scanned <= |evs| && |events| == |was|
    && if wt.waitAll then
         && wt.phase.Scan? && wt.status == |evs| - Taken(evs, wt.scanned, was)
         && StatesAfter(evs, wt.scanned, was, events)
       else if wt.phase.Scan? then
         && wt.status == -1 && StatesAfter([], 0, was, events)
         && (forall j | 0 <= j < wt.scanned :: !was[evs[j]].state)
       else
         && wt.phase == Finish(Success) && wt.scanned == wt.status + 1 && 0 <= wt.status
         && was[evs[wt.status]].state && (forall j | 0 <= j < wt.status :: !was[evs[j]].state)
         && StatesTaking(evs[wt.status], was, events)
  }

  /** What one uninterrupted round does to the waiter and to the states. */
  predicate ScanRound(wt: Waiter, events: seq<Event>, wt': Waiter, events': seq<Event>)
    requires wt.scanned < |wt.events|
  {
    var e := wt.events[wt.scanned];
    && e < |events| && StatesTaking(e, events, events')
    && wt'.events == wt.events && wt'.waitAll == wt.waitAll && wt'.timeout == wt.timeout
    && wt'.scanned == wt.scanned + 1
    && if !events[e].state then wt'.phase == Scan && wt'.status == wt.status
       else if wt.waitAll then wt'.phase == Scan && wt'.status == wt.status - 1
       else wt'.phase == Finish(Success) && wt'.status == wt.scanned
  }

  lemma ScanStarts(evs: seq<nat>, events: seq<Event>, wt: Waiter)
    requires forall e | e in evs :: e < |events|
    requires wt == NewWaiter(evs, wt.waitAll, wt.timeout)
    ensures AllExist(evs, events) && ScanSoFar(evs, events, wt, events)
  {
    forall j | 0 <= j < |evs| ensures evs[j] < |events| {
      assert evs[j] in evs;
    }
  }

  lemma ScanGoesOn(evs: seq<nat>, was: seq<Event>, wt: Waiter, events: seq<Event>, wt': Waiter, events': seq<Event>)
    requires AllExist(evs, was) && ScanSoFar(evs, was, wt, events)
    requires wt.phase.Scan? && wt.scanned < |evs| && ScanRound(wt, events, wt', events')
    ensures ScanSoFar(evs, was, wt', events')
  {
    var n := wt.scanned;
    assert evs[..n+1] == evs[..n] + [evs[n]];
  }

  /** `SetEvent` owns the mutex of `e`, and no other mutex is held. */
  predicate Draining(s: Sys, e: nat) {
    && e < |s.events| && OnlyOwned(s, e)
    && s.events[e].holder.Setter? && s.events[e].holder.at.Drain?
  }

  /** The next entry's waiter can be locked at once, and its mutex is free again afterwards. */
  lemma NextEntry(s: Sys, e: nat)
    requires Inv(s) && Draining(s, e) && s.events[e].given < |s.events[e].waits|
    ensures Enabled(s, LockWaiter(e)) && Enabled(Apply(s, LockWaiter(e)), ServeEntry(e))
  {
    assert EventOk(s, e);
    NamedIsLive(s, e, Out(s.events[e])[0]);
  }

  function LockedAndServed(s: Sys, e: nat): Sys
    requires Enabled(s, LockWaiter(e)) && Enabled(Apply(s, LockWaiter(e)), ServeEntry(e))
  {
    Apply(Apply(s, LockWaiter(e)), ServeEntry(e))
  }

  /** The event after locking, serving and unlocking the next waiter. */
  lemma ServedEvent(s: Sys, e: nat)
    requires Inv(s) && Draining(s, e) && s.events[e].given < |s.events[e].waits|
    requires Enabled(s, LockWaiter(e)) && Enabled(Apply(s, LockWaiter(e)), ServeEntry(e))
    ensures
      var ev := s.events[e];
      var live := s.waiters[ev.waits[ev.given].waiter].stillWaiting;
      && LockedAndServed(s, e).events == s.events[e := ev.(
           state := if live then !ev.autoReset else ev.state, given := ev.given + 1,
           holder := Setter(ev.holder.latched, if ev.autoReset then Pop(live) else Drain))]
      && SameCalls(s.waiters, LockedAndServed(s, e).waiters)
      && forall w | 0 <= w < |s.waiters| :: LockedAndServed(s, e).waiters[w].lock.Unlocked?
  {
  }

  /** What that does to the queues: the head is served, or nothing happens. */
  lemma ServedQueues(s: Sys, e: nat)
    requires Inv(s) && Draining(s, e) && s.events[e].given < |s.events[e].waits|
    requires Enabled(s, LockWaiter(e)) && Enabled(Apply(s, LockWaiter(e)), ServeEntry(e))
    ensures
      var x := s.events[e].waits[s.events[e].given];
      var wt := s.waiters[x.waiter];
      SpecStep(Queues(s), if wt.stillWaiting then Hand(e, x, wt.waitAll) else Stutter, Queues(LockedAndServed(s, e)))
  {
    FifoStep(s, LockWaiter(e));
    StepInv(s, LockWaiter(e));
    FifoStep(Apply(s, LockWaiter(e)), ServeEntry(e));
  }

  /** Is the waiter of the next entry still waiting? */
  predicate NextIsLive(s: Sys, e: nat)
    requires e < |s.events| && HasNext(s, s.events[e])
  {
    s.waiters[s.events[e].waits[s.events[e].given].waiter].stillWaiting
  }

  /** No event but `e` has changed, and `e` is still the same kind of event. */
  predicate OnlyAt(e: nat, events: seq<Event>, events': seq<Event>) {
    && e < |events| == |events'| && events' == events[e := events'[e]]
    && events'[e].autoReset == events[e].autoReset && events'[e].alive == events[e].alive
  }

  /** The calls are the same, of the same kind. */
  predicate SameCalls(ws: seq<Waiter>, ws': seq<Waiter>) {
    |ws'| == |ws| && forall w | 0 <= w < |ws| :: ws'[w].waitAll == ws[w].waitAll
  }

  /** The head of the queue of `e` received the signal. */
  predicate HeadServed(s: Sys, e: nat, s': Sys) {
    && e < |s.events| && Queues(s)[e] != [] && Queues(s)[e][0].waiter < |s.waiters|
    && var x := Queues(s)[e][0];
       SpecStep(Queues(s), Hand(e, x, s.waiters[x.waiter].waitAll), Queues(s'))
  }

  /** The front entry of an auto-reset event was processed: either it was the head of the queue and
      the call is over, or it had expired and nothing can be noticed. */
  predicate FrontDone(s: Sys, e: nat, served: bool, s': Sys) {
    && OnlyAt(e, s.events, s'.events) && |s'.events[e].waits| < |s.events[e].waits|
    && SameCalls(s.waiters, s'.waiters)
    && if served then
         Quiescent(s') && !s'.events[e].state && HeadServed(s, e, s')
       else
         Draining(s', e) && Queues(s') == Queues(s)
  }

  /** The state after processing the front entry of an auto-reset event. */
  function AfterFront(s: Sys, e: nat): Sys
    requires Enabled(s, LockWaiter(e)) && Enabled(Apply(s, LockWaiter(e)), ServeEntry(e))
    requires Enabled(LockedAndServed(s, e), PopEntry(e))
  {
    Apply(LockedAndServed(s, e), PopEntry(e))
  }

  lemma FrontEnabled(s: Sys, e: nat)
    requires Inv(s) && Draining(s, e) && s.events[e].autoReset && s.events[e].waits != []
    ensures HasNext(s, s.events[e]) && s.events[e].given == 0
    ensures Enabled(s, LockWaiter(e)) && Enabled(Apply(s, LockWaiter(e)), ServeEntry(e))
    ensures Inv(LockedAndServed(s, e)) && Enabled(LockedAndServed(s, e), PopEntry(e))
    ensures LockedAndServed(s, e).events[e].holder
         == Setter(s.events[e].holder.latched, Pop(NextIsLive(s, e)))
  {
    assert EventOk(s, e);
    NextEntry(s, e);
    ServedEvent(s, e);
    StepInv(s, LockWaiter(e));
    StepInv(Apply(s, LockWaiter(e)), ServeEntry(e));
  }

  lemma FrontQueues(s: Sys, e: nat)
    requires Inv(s) && Draining(s, e) && s.events[e].autoReset && s.events[e].waits != []
    requires Enabled(s, LockWaiter(e)) && Enabled(Apply(s, LockWaiter(e)), ServeEntry(e))
    requires Inv(LockedAndServed(s, e)) && Enabled(LockedAndServed(s, e), PopEntry(e)) && HasNext(s, s.events[e])
    ensures
      var x := s.events[e].waits[s.events[e].given];
      var wt := s.waiters[x.waiter];
      SpecStep(Queues(s), if wt.stillWaiting then Hand(e, x, wt.waitAll) else Stutter, Queues(AfterFront(s, e)))
  {
    ServedQueues(s, e);
    FifoStep(LockedAndServed(s, e), PopEntry(e));
  }

  lemma FrontShape(s: Sys, e: nat)
    requires Inv(s) && Draining(s, e) && s.events[e].autoReset && s.events[e].waits != []
    requires Enabled(s, LockWaiter(e)) && Enabled(Apply(s, LockWaiter(e)), ServeEntry(e))
    requires Enabled(LockedAndServed(s, e), PopEntry(e)) && HasNext(s, s.events[e]) && s.events[e].given == 0
    ensures
      var s' := AfterFront(s, e);
      && OnlyAt(e, s.events, s'.events) && SameCalls(s.waiters, s'.waiters)
      && |s'.events[e].waits| < |s.events[e].waits|
      && if NextIsLive(s, e) then Quiescent(s') && !s'.events[e].state else Draining(s', e)
  {
    ServedEvent(s, e);
  }

  lemma FrontIsDone(s: Sys, e: nat)
    requires Inv(s) && Draining(s, e) && s.events[e].autoReset && s.events[e].waits != []
    ensures Enabled(s, LockWaiter(e)) && Enabled(Apply(s, LockWaiter(e)), ServeEntry(e))
    ensures Enabled(LockedAndServed(s, e), PopEntry(e)) && HasNext(s, s.events[e])
    ensures LockedAndServed(s, e).events[e].holder
         == Setter(s.events[e].holder.latched, Pop(NextIsLive(s, e)))
    ensures FrontDone(s, e, NextIsLive(s, e), AfterFront(s, e))
  {
    FrontEnabled(s, e);
    FrontQueues(s, e);
    FrontShape(s, e);
  }

  lemma {:induction false} SpecRunsOneMore(qs: seq<seq<Info>>, ops: seq<Op>, m: seq<seq<Info>>, op: Op)
    requires SpecRuns(qs, ops, m) && SpecEnabled(m, op)
    ensures SpecRuns(qs, ops + [op], SpecApply(m, op))
    decreases |ops|
  {
    if ops == [] {
      assert [op][1..] == [];
    } else {
      SpecRunsOneMore(SpecApply(qs, ops[0]), ops[1..], m, op);
      assert (ops + [op])[1..] == ops[1..] + [op];
    }
  }

  /** Nothing but heads of the queue of `e` handed their signal. */
  predicate OnlyHands(ops: seq<Op>, e: nat) {
    forall op | op in ops :: op.Stutter? || (op.Hand? && op.e == e)
  }

  /** The entries a clean-up keeps: those whose waiter still waits or whose mutex is taken. */
  function Unexpired(q: seq<Info>, ws: seq<Waiter>): seq<Info> {
    if q == [] then []
    else
      var x := q[|q|-1];
      Unexpired(q[..|q|-1], ws) +
      if x.waiter < |ws| && ws[x.waiter].lock.Unlocked? && !ws[x.waiter].stillWaiting then [] else [x]
  }

  /** One step of the clean-up: with `j` entries examined, the next one is dropped or kept. */
  lemma UnexpiredStep(q: seq<Info>, j: nat, ws: seq<Waiter>, removed: bool)
    requires j < |q| && q[j].waiter < |ws|
    requires removed == (ws[q[j].waiter].lock.Unlocked? && !ws[q[j].waiter].stillWaiting)
    ensures
      var kept := Unexpired(q[..j], ws);
      var list := kept + q[j..];
      var kept' := Unexpired(q[..j+1], ws);
      && list[|kept|] == q[j] && |kept'| == |kept| + (if removed then 0 else 1)
      && kept' + q[j+1..] == if removed then list[..|kept|] + list[|kept|+1..] else list
  {
    assert q[..j+1][..j] == q[..j];
    var kept := Unexpired(q[..j], ws);
    assert q[j..] == [q[j]] + q[j+1..];
    if removed {
      assert Unexpired(q[..j+1], ws) == kept;
    } else {
      assert Unexpired(q[..j+1], ws) == kept + [q[j]];
    }
  }

  /** The clean-up has examined `j` entries of the list that event `e` had in `was`. */
  predicate SweptTo(was: seq<Event>, ws: seq<Waiter>, e: nat, j: nat, events: seq<Event>) {
    && e < |was| == |events| && j <= |was[e].waits|
    && (was[e].holder.Scanner? || was[e].holder.Destroyer?)
    && var kept := Unexpired(was[e].waits[..j], ws);
       events == was[e := was[e].(
         waits := kept + was[e].waits[j..],
         holder := if was[e].holder.Scanner? then Scanner(was[e].holder.call, |kept|) else Destroyer(|kept|))]
  }

  /** What one call of the helper does to the events. */
  predicate SweptOnce(events: seq<Event>, e: nat, removed: bool, events': seq<Event>)
    requires e < |events| && (events[e].holder.Scanner? || events[e].holder.Destroyer?)
    requires events[e].holder.next < |events[e].waits|
  {
    var ev := events[e];
    var k := ev.holder.next;
    events' == events[e :=
      if removed then ev.(waits := ev.waits[..k] + ev.waits[k+1..]) else ev.(holder := Advance(ev.holder))]
  }

  lemma SweptStep(was: seq<Event>, ws: seq<Waiter>, e: nat, j: nat, events: seq<Event>, removed: bool,
                  events': seq<Event>)
    requires SweptTo(was, ws, e, j, events) && events[e].holder.next < |events[e].waits|
    requires SweptOnce(events, e, removed, events')
    requires j < |was[e].waits| && was[e].waits[j].waiter < |ws|
    requires removed == (ws[was[e].waits[j].waiter].lock.Unlocked? && !ws[was[e].waits[j].waiter].stillWaiting)
    ensures SweptTo(was, ws, e, j + 1, events')
  {
    UnexpiredStep(was[e].waits, j, ws, removed);
  }

  /** The entry the clean-up is at is the next one of the original list. */
  lemma SweptNext(was: seq<Event>, ws: seq<Waiter>, e: nat, j: nat, events: seq<Event>)
    requires SweptTo(was, ws, e, j, events)
    ensures events[e].holder.next < |events[e].waits| <==> j < |was[e].waits|
    ensures j < |was[e].waits| ==> events[e].waits[events[e].holder.next] == was[e].waits[j]
  {
  }

  lemma SweptStart(events: seq<Event>, ws: seq<Waiter>, e: nat)
    requires e < |events| && (events[e].holder.Scanner? || events[e].holder.Destroyer?)
    requires events[e].holder.next == 0
    ensures SweptTo(events, ws, e, 0, events)
  {
    var q := events[e].waits;
    assert q[..0] == [] && Unexpired(q[..0], ws) + q[0..] == q;
  }

  lemma ListedWaiterExists(s: Sys, e: nat, k: nat)
    requires Inv(s) && e < |s.events| && k < |s.events[e].waits|
    requires s.events[e].holder.Scanner? || s.events[e].holder.Destroyer?
    ensures s.events[e].waits[k].waiter < |s.waiters|
  {
    assert EventOk(s, e);
    assert EntryOk(s, e, s.events[e].waits[k]);
  }

  /** Once no running call lists the event, an undisturbed clean-up leaves nothing behind. */
  lemma {:induction false} AllExpired(q: seq<Info>, s: Sys, e: nat)
    requires Inv(s) && Quiescent(s) && !InUse(s, e)
    requires forall k | 0 <= k < |q| :: EntryOk(s, e, q[k])
    ensures Unexpired(q, s.waiters) == []
  {
    if q != [] {
      AllExpired(q[..|q|-1], s, e);
      var x := q[|q|-1];
      assert EntryOk(s, e, x) && RecordOk(s, x.waiter);
      assert s.waiters[x.waiter].events[x.index] in s.waiters[x.waiter].events;
    }
  }

  lemma UnusedIsExpired(s: Sys, e: nat)
    requires Inv(s) && Quiescent(s) && e < |s.events| && !InUse(s, e)
    ensures Unexpired(s.events[e].waits, s.waiters) == []
  {
    assert EventOk(s, e);
    forall k | 0 <= k < |s.events[e].waits| ensures EntryOk(s, e, s.events[e].waits[k]) {
    }
    AllExpired(s.events[e].waits, s, e);
  }

  /** Only reference counts differ. */
  predicate SameFlags(ws: seq<Waiter>, ws': seq<Waiter>) {
    && |ws'| == |ws|
    && forall w | 0 <= w < |ws| :: ws'[w] == ws[w].(refCount := ws'[w].refCount, freed := ws'[w].freed)
  }

  lemma DestroyState(s: Sys, e: nat)
    requires Enabled(s, LockDestroy(e))
    ensures Apply(s, LockDestroy(e)).waiters == s.waiters
  {
  }

  lemma DeleteState(s: Sys, e: nat)
    requires Enabled(s, EndDestroy(e))
    ensures
      && Apply(s, EndDestroy(e)).waiters == s.waiters
      && Apply(s, EndDestroy(e)).events == s.events[e := s.events[e].(holder := Free)]
  {
  }

  class EventLib {
    var events: seq<Event>
    var waiters: seq<Waiter>
    var hist: History              // for the proofs only, like the next
    ghost var trace: seq<Action>   // the actions performed since the initial state

    function Model(): Sys
      reads this
    {
      Sys(events, waiters, hist)
    }

    /** Everything reached so far is a run of the transition system. */
    ghost predicate Valid()
      reads this
    {
      Inv(Model()) && Runs(Init(), trace, Model())
    }

    constructor ()
      ensures Valid() && Model() == Init()
    {
      events, waiters, hist, trace := [], [], Start, [];
      new;
      InitInv();
    }

    /** Record that the fields were changed as action `a` says. */
    ghost method Did(s: Sys, a: Action)
      requires Inv(s) && Runs(Init(), trace, s) && Enabled(s, a) && Model() == Apply(s, a)
      modifies this`trace
      ensures Valid() && trace == old(trace) + [a]
    {
      StepInv(s, a);
      RunsOneMore(Init(), trace, s, a);
      trace := trace + [a];
    }

    /** What another thread does. */
    method Perform(a: Action)
      requires Valid() && Enabled(Model(), a)
      modifies this
      ensures Valid() && trace == old(trace) + [a]
      ensures Enabled(old(Model()), a) && Model() == Apply(old(Model()), a)
    {
      hide Inv, Runs, Apply, Enabled;
      ghost var s := Model();
      var t := Apply(Model(), a);
      events, waiters, hist := t.events, t.waiters, t.hist;
      Did(s, a);
    }

    /** Lines 509-520. */
    method ResetEvent(e: nat)
      requires Valid() && e < |events| && events[e].alive && events[e].holder.Free?
      modifies this
      ensures Valid() && trace == old(trace) + [Action.ResetEvent(e)]
      ensures events == old(events)[e := old(events)[e].(state := false)] && waiters == old(waiters)
      ensures Enabled(old(Model()), Action.ResetEvent(e)) && Model() == Apply(old(Model()), Action.ResetEvent(e))
    {
      ghost var s := Model();
      hist := NoteIf(hist, events[e].state, Discarded(e));
      events := events[e := events[e].(state := false)];
      Did(s, Action.ResetEvent(e));
    }

    /** Lines 388-425 and 456-491 for the next entry: lock its waiter, give up the entry's reference;
        a waiter that is still waiting receives the signal, another may have to be deleted. */
    method ServeNext(e: nat) returns (served: bool)
      requires Valid() && Draining(Model(), e) && events[e].given < |events[e].waits|
      modifies this
      ensures Enabled(old(Model()), LockWaiter(e)) && Enabled(Apply(old(Model()), LockWaiter(e)), ServeEntry(e))
      ensures Model() == LockedAndServed(old(Model()), e)
      ensures Valid()
      ensures served == old(waiters)[old(events)[e].waits[old(events)[e].given].waiter].stillWaiting
    {
      NextEntry(Model(), e);
      LockNext(e);
      served := waiters[events[e].waits[events[e].given].waiter].stillWaiting;
      if served {
        Deliver(e);
      } else {
        Expire(e);
      }
    }

    /** Lines 388-391 and 456-459. */
    method LockNext(e: nat)
      requires Valid() && Enabled(Model(), LockWaiter(e))
      modifies this
      ensures Valid() && trace == old(trace) + [LockWaiter(e)]
      ensures Enabled(old(Model()), LockWaiter(e)) && Model() == Apply(old(Model()), LockWaiter(e))
    {
      hide Inv, Runs;
      ghost var s := Model();
      var i := events[e].waits[events[e].given];
      events := events[e := events[e].(holder := Setter(events[e].holder.latched, Serve))];
      waiters := waiters[i.waiter := waiters[i.waiter].(lock := BySetter(e))];
      Did(s, LockWaiter(e));
    }

    /** Lines 395-407: the waiter has finished; delete it with its last reference. */
    method Expire(e: nat)
      requires Valid() && Enabled(Model(), ServeEntry(e))
      requires !waiters[events[e].waits[events[e].given].waiter].stillWaiting
      modifies this
      ensures Valid() && trace == old(trace) + [ServeEntry(e)]
      ensures Enabled(old(Model()), ServeEntry(e)) && Model() == Apply(old(Model()), ServeEntry(e))
    {
      hide Inv, Runs;
      ghost var s := Model();
      var i := events[e].waits[events[e].given];
      var wt := waiters[i.waiter].(lock := Unlocked);
      wt := wt.(refCount := wt.refCount - 1);
      if wt.refCount == 0 {
        hist := Note(hist, Freed(i.waiter));
      }
      waiters := waiters[i.waiter := wt.(freed := wt.refCount == 0)];
      var at := if events[e].autoReset then Pop(false) else Drain;
      events := events[e := events[e].(given := events[e].given + 1, holder := Setter(events[e].holder.latched, at))];
      Did(s, ServeEntry(e));
    }

    /** Lines 409-425: hand the signal over. */
    method Deliver(e: nat)
      requires Valid() && Enabled(Model(), ServeEntry(e))
      requires waiters[events[e].waits[events[e].given].waiter].stillWaiting
      modifies this
      ensures Valid() && trace == old(trace) + [ServeEntry(e)]
      ensures Enabled(old(Model()), ServeEntry(e)) && Model() == Apply(old(Model()), ServeEntry(e))
    {
      hide Inv, Runs;
      ghost var s := Model();
      var i := events[e].waits[events[e].given];
      var wt := waiters[i.waiter].(lock := Unlocked);
      wt := wt.(refCount := wt.refCount - 1);
      if wt.waitAll {
        wt := wt.(status := wt.status - 1);
      } else {
        wt := wt.(status := i.index, stillWaiting := false);
      }
      waiters := waiters[i.waiter := wt];
      hist := Note(NoteIf(hist, events[e].autoReset && events[e].holder.latched, Lost(e)), Got(e, i.waiter, i.index));
      var at := if events[e].autoReset then Pop(true) else Drain;
      events := events[e := events[e].(state := !events[e].autoReset, given := events[e].given + 1,
                                       holder := Setter(events[e].holder.latched, at))];
      Did(s, ServeEntry(e));
    }

    /** Lines 388-437 for the front entry of an auto-reset event: the call is over once a waiter was
        served. */
    method ServeFront(e: nat) returns (served: bool)
      requires Valid() && Draining(Model(), e) && events[e].autoReset && events[e].waits != []
      modifies this
      ensures Valid() && FrontDone(old(Model()), e, served, Model())
    {
      hide Inv, Runs, FrontDone;
      ghost var s := Model();
      FrontIsDone(s, e);
      served := ServeNext(e);
      PopFront(e, served);
    }

    /** Lines 405 and 431-433. */
    method PopFront(e: nat, served: bool)
      requires Valid() && Enabled(Model(), PopEntry(e)) && events[e].holder.at.served == served
      modifies this
      ensures Valid() && trace == old(trace) + [PopEntry(e)]
      ensures Enabled(old(Model()), PopEntry(e)) && Model() == Apply(old(Model()), PopEntry(e))
    {
      hide Inv, Runs;
      ghost var m := Model();
      var holder := if served then Free else Setter(events[e].holder.latched, Drain);
      events := events[e := events[e].(waits := events[e].waits[1..], given := 0, holder := holder)];
      Did(m, PopEntry(e));
    }

    /** `SetEvent` takes the mutex. */
    method BeginSet(e: nat)
      requires Valid() && Quiescent(Model()) && e < |events| && events[e].alive
      modifies this
      ensures Valid() && Draining(Model(), e) && Queues(Model()) == Queues(old(Model()))
      ensures waiters == old(waiters)
      ensures events == old(events)[e := old(events)[e].(state := true, holder := Setter(old(events)[e].state, Drain))]
    {
      ghost var s := Model();
      LockToSet(e);
      FifoStep(s, LockSet(e));
    }

    /** Lines 377-380. */
    method LockToSet(e: nat)
      requires Valid() && Enabled(Model(), LockSet(e))
      modifies this
      ensures Valid() && trace == old(trace) + [LockSet(e)]
      ensures Enabled(old(Model()), LockSet(e)) && Model() == Apply(old(Model()), LockSet(e))
    {
      hide Inv, Runs;
      ghost var s := Model();
      hist := Note(hist, Set(e));
      events := events[e := events[e].(state := true, holder := Setter(events[e].state, Drain))];
      Did(s, LockSet(e));
    }

    /** `SetEvent` keeps its signal: no entry is left, and nobody who waits was passed over. */
    method EndSet(e: nat)
      requires Valid() && Draining(Model(), e) && events[e].given == |events[e].waits|
      modifies this
      ensures Valid() && Quiescent(Model()) && Queues(Model()) == Queues(old(Model()))
      ensures OnlyAt(e, old(events), events) && events[e].state && events[e].waits == []
      ensures Queues(Model())[e] == []
    {
      ghost var s := Model();
      assert EventOk(s, e);
      LatchedMeansNobodyWaits(s, e);
      Latch(e);
      FifoStep(s, EndDrain(e));
    }

    /** Lines 440-442 and 497-499. */
    method Latch(e: nat)
      requires Valid() && Enabled(Model(), EndDrain(e))
      modifies this
      ensures Valid() && trace == old(trace) + [EndDrain(e)]
      ensures Enabled(old(Model()), EndDrain(e)) && Model() == Apply(old(Model()), EndDrain(e))
    {
      hide Inv, Runs;
      ghost var s := Model();
      hist := NoteIf(hist, events[e].autoReset && events[e].holder.latched, Merged(e));
      events := events[e := events[e].(waits := [], given := 0, holder := Free)];
      Did(s, EndDrain(e));
    }

    /** Lines 375-449 for an auto-reset event: the waiter at the head of the queue gets the signal;
        the event keeps it, with an empty list, exactly if nobody is waiting. */
    method SetAutoEvent(e: nat)
      requires Valid() && Quiescent(Model()) && e < |events| && events[e].alive && events[e].autoReset
      modifies this
      ensures Valid() && Quiescent(Model()) && OnlyAt(e, old(events), events)
      ensures
        var q := Queues(old(Model()));
        if q[e] == [] then events[e].state && events[e].waits == [] && Queues(Model()) == q
        else !events[e].state && HeadServed(old(Model()), e, Model())
    {
      hide Queues;
      ghost var s := Model();
      BeginSet(e);
      while events[e].waits != []
        invariant Valid() && Draining(Model(), e) && OnlyAt(e, s.events, events)
        invariant Queues(Model()) == Queues(s) && SameCalls(s.waiters, waiters)
        decreases |events[e].waits|
      {
        var served := ServeFront(e);
        if served {
          return;
        }
      }
      assert EventOk(Model(), e);
      EndSet(e);
    }

    /** Lines 375-380 and 451-503 for a manual-reset event: everybody in the queue is served, in
        order, and the event stays signalled with an empty list. */
    method SetManualEvent(e: nat) returns (ghost ops: seq<Op>)
      requires Valid() && Quiescent(Model()) && e < |events| && events[e].alive && !events[e].autoReset
      modifies this
      ensures Valid() && Quiescent(Model()) && OnlyAt(e, old(events), events)
      ensures events[e].state && events[e].waits == []
      ensures OnlyHands(ops, e) && SpecRuns(Queues(old(Model())), ops, Queues(Model()))
      ensures Queues(Model())[e] == []
    {
      ghost var s := Model();
      BeginSet(e);
      assert EventOk(Model(), e);
      ops := [];
      while events[e].given < |events[e].waits|
        invariant Valid() && Draining(Model(), e) && OnlyAt(e, s.events, events)
        invariant events[e].given <= |events[e].waits|
        invariant OnlyHands(ops, e) && SpecRuns(Queues(s), ops, Queues(Model()))
        decreases |events[e].waits| - events[e].given
      {
        ops := ServeManual(e, Queues(s), ops);
      }
      EndSet(e);
    }

    /** One round of the loop of line 454. */
    method ServeManual(e: nat, ghost start: seq<seq<Info>>, ghost ops: seq<Op>) returns (ghost ops': seq<Op>)
      requires Valid() && Draining(Model(), e) && !events[e].autoReset && events[e].given < |events[e].waits|
      requires OnlyHands(ops, e) && SpecRuns(start, ops, Queues(Model()))
      modifies this
      ensures Valid() && Draining(Model(), e)
      ensures events == old(events)[e := old(events)[e].(state := events[e].state, given := old(events)[e].given + 1)]
      ensures OnlyHands(ops', e) && SpecRuns(start, ops', Queues(Model()))
    {
      hide Runs, Queues, SpecRuns, SpecApply;
      ghost var s := Model();
      NextEntry(s, e);
      ServedEvent(s, e);
      ServedQueues(s, e);
      assert EventOk(s, e);
      ghost var x := events[e].waits[events[e].given];
      ghost var op := if waiters[x.waiter].stillWaiting then Hand(e, x, waiters[x.waiter].waitAll) else Stutter;
      var served := ServeNext(e);
      SpecRunsOneMore(start, ops, Queues(s), op);
      ops' := ops + [op];
    }

    /** Lines 81-94: drop the reference of an expired entry and delete the waiter with its last. */
    method DropEntry(e: nat)
      requires Valid() && Enabled(Model(), SweepEntry(e, false))
      requires !waiters[events[e].waits[events[e].holder.next].waiter].stillWaiting
      modifies this
      ensures Valid() && trace == old(trace) + [SweepEntry(e, false)] && SameFlags(old(waiters), waiters)
      ensures Enabled(old(Model()), SweepEntry(e, false)) && Model() == Apply(old(Model()), SweepEntry(e, false))
    {
      hide Inv, Runs;
      ghost var s := Model();
      var k := events[e].holder.next;
      var v := events[e].waits[k].waiter;
      var wt := waiters[v];
      wt := wt.(refCount := wt.refCount - 1);
      if wt.refCount == 0 {
        hist := Note(hist, Freed(v));
      }
      waiters := waiters[v := wt.(freed := wt.refCount == 0)];
      events := events[e := events[e].(waits := events[e].waits[..k] + events[e].waits[k+1..])];
      Did(s, SweepEntry(e, false));
    }

    /** Lines 72-79 and 97-100: the mutex is taken, or the waiter is still waiting. */
    method KeepEntry(e: nat, busy: bool)
      requires Valid() && Enabled(Model(), SweepEntry(e, busy))
      requires busy || waiters[events[e].waits[events[e].holder.next].waiter].stillWaiting
      modifies this
      ensures Valid() && trace == old(trace) + [SweepEntry(e, busy)] && waiters == old(waiters)
      ensures Enabled(old(Model()), SweepEntry(e, busy)) && Model() == Apply(old(Model()), SweepEntry(e, busy))
    {
      hide Inv, Runs;
      ghost var s := Model();
      events := events[e := events[e].(holder := Advance(events[e].holder))];
      Did(s, SweepEntry(e, busy));
    }

    /** `RemoveExpiredWaitHelper` for the entry the clean-up has reached. */
    method RemoveIfExpired(e: nat) returns (removed: bool)
      requires Valid() && e < |events| && (events[e].holder.Scanner? || events[e].holder.Destroyer?)
      requires events[e].holder.next < |events[e].waits|
      requires events[e].waits[events[e].holder.next].waiter < |waiters|
      modifies this
      ensures Valid() && SameFlags(old(waiters), waiters) && Queues(Model()) == Queues(old(Model()))
      ensures SweptOnce(old(events), e, removed, events)
      ensures
        var wt := old(waiters)[old(events)[e].waits[old(events)[e].holder.next].waiter];
        removed == (wt.lock.Unlocked? && !wt.stillWaiting)
    {
      ghost var s := Model();
      var wt := waiters[events[e].waits[events[e].holder.next].waiter];
      var busy := !wt.lock.Unlocked?;
      removed := !busy && !wt.stillWaiting;
      if removed {
        DropEntry(e);
      } else {
        KeepEntry(e, busy);
      }
      FifoStep(s, SweepEntry(e, busy));
    }

    /** The `erase(remove_if(...))` of lines 258 and 359: it keeps, in order, exactly the entries whose
        waiter is still waiting or cannot be locked, and the queues do not notice. */
    method RemoveExpiredWaits(e: nat)
      requires Valid() && e < |events| && (events[e].holder.Scanner? || events[e].holder.Destroyer?)
      requires events[e].holder.next == 0
      modifies this
      ensures Valid() && SameFlags(old(waiters), waiters) && Queues(Model()) == Queues(old(Model()))
      ensures SweptTo(old(events), old(waiters), e, |old(events)[e].waits|, events)
      ensures events[e].waits == Unexpired(old(events)[e].waits, old(waiters))
      ensures events[e].holder.next == |events[e].waits|
    {
      ghost var ws, was, qs, j := waiters, events, Queues(Model()), 0;
      SweptStart(was, ws, e);
      while events[e].holder.next < |events[e].waits|
        invariant Valid() && SameFlags(ws, waiters) && Queues(Model()) == qs
        invariant SweptTo(was, ws, e, j, events)
        decreases |was[e].waits| - j
      {
        SweptNext(was, ws, e, j, events);
        ListedWaiterExists(Model(), e, events[e].holder.next);
        ghost var before := events;
        var removed := RemoveIfExpired(e);
        SweptStep(was, ws, e, j, before, removed, events);
        j := j + 1;
      }
      SweptNext(was, ws, e, j, events);
      assert was[e].waits[..j] == was[e].waits;
    }

    /** Lines 254-258 of one round of the scan. */
    method LockAndSweep(w: nat)
      requires Valid() && OnlyCall(Model(), w) && waiters[w].phase.Scan? && waiters[w].scanned < |waiters[w].events|
      modifies this
      ensures Valid() && Enabled(Model(), Poll(w)) && |waiters| == |old(waiters)|
      ensures SameFlags(old(waiters), waiters[w := waiters[w].(phase := Scan)])
      ensures
        var e := waiters[w].events[waiters[w].scanned];
        && e < |old(events)|
        && events == old(events)[e := old(events)[e].(waits := events[e].waits, holder := events[e].holder)]
    {
      var e := waiters[w].events[waiters[w].scanned];
      assert ControlOk(Model(), w);
      LockListed(w);
      RemoveExpiredWaits(e);
    }

    /** Line 254. */
    method LockListed(w: nat)
      requires Valid() && Enabled(Model(), LockScanned(w))
      modifies this
      ensures Valid() && trace == old(trace) + [LockScanned(w)]
      ensures Enabled(old(Model()), LockScanned(w)) && Model() == Apply(old(Model()), LockScanned(w))
    {
      hide Inv, Runs;
      ghost var s := Model();
      var e := waiters[w].events[waiters[w].scanned];
      events := events[e := events[e].(holder := Scanner(w, 0))];
      waiters := waiters[w := waiters[w].(phase := Sweep)];
      Did(s, LockScanned(w));
    }

    /** Lines 260-285 of one round of the scan. */
    method PollEvent(w: nat)
      requires Valid() && Enabled(Model(), Poll(w))
      modifies this
      ensures Valid() && trace == old(trace) + [Poll(w)]
      ensures Enabled(old(Model()), Poll(w)) && Model() == ApplyPoll(old(Model()), w)
    {
      ghost var s := Model();
      var i := waiters[w].scanned;
      var e := waiters[w].events[i];
      var wt := waiters[w].(scanned := i + 1);
      if events[e].state {
        events := events[e := events[e].(state := !events[e].autoReset, holder := Free)];
        if wt.waitAll {
          wt := wt.(status := wt.status - 1, phase := Scan);
        } else {
          wt := wt.(status := i, phase := Finish(Success));
        }
        hist := Note(hist, Got(e, w, i));
      } else {
        events := events[e := events[e].(waits := events[e].waits + [Info(w, i)], holder := Free)];
        wt := wt.(refCount := wt.refCount + 1, phase := Scan);
      }
      waiters := waiters[w := wt];
      Did(s, Poll(w));
    }

    /** One round of the loop of line 249. */
    method ScanNext(w: nat)
      requires Valid() && OnlyCall(Model(), w) && waiters[w].phase.Scan? && waiters[w].scanned < |waiters[w].events|
      modifies this
      ensures Valid() && OnlyCall(Model(), w) && |waiters| == |old(waiters)|
      ensures ScanRound(old(waiters)[w], old(events), waiters[w], events)
    {
      LockAndSweep(w);
      PollEvent(w);
    }

    /** Lines 288-332: the call is done, has run out of time, or goes to sleep. */
    method EndScan(w: nat)
      requires Valid() && OnlyCall(Model(), w) && waiters[w].phase.Scan? && waiters[w].scanned == |waiters[w].events|
      modifies this
      ensures Valid() && events == old(events) && |waiters| == |old(waiters)|
      ensures
        var wt := old(waiters)[w];
        if wt.timeout.Zero? then
          waiters == old(waiters)[w := wt.(phase := Finish(TimedOut))]
        else if Satisfied(wt) then
          waiters == old(waiters)[w := wt.(phase := Finish(Success))]
        else
          waiters == old(waiters)[w := wt.(phase := Asleep, lock := Unlocked)]
    {
      MayWait(w);
      if waiters[w].phase.Check? {
        CheckDone(w);
      }
    }

    /** Lines 288-306. */
    method MayWait(w: nat)
      requires Valid() && Enabled(Model(), Action.EndScan(w))
      modifies this
      ensures Valid() && trace == old(trace) + [Action.EndScan(w)]
      ensures Enabled(old(Model()), Action.EndScan(w)) && Model() == Apply(old(Model()), Action.EndScan(w))
    {
      hide Inv, Runs;
      ghost var s := Model();
      if waiters[w].timeout.Zero? {
        waiters := waiters[w := waiters[w].(phase := Finish(TimedOut))];
      } else {
        waiters := waiters[w := waiters[w].(phase := Check)];
      }
      Did(s, Action.EndScan(w));
    }

    /** Lines 314-325. */
    method CheckDone(w: nat)
      requires Valid() && w < |waiters| && waiters[w].phase.Check?
      modifies this
      ensures Valid() && trace == old(trace) + [Action.CheckDone(w)] && events == old(events)
      ensures Enabled(old(Model()), Action.CheckDone(w)) && Model() == Apply(old(Model()), Action.CheckDone(w))
      ensures waiters == old(waiters)[w :=
                if Satisfied(old(waiters)[w]) then old(waiters)[w].(phase := Finish(Success))
                else old(waiters)[w].(phase := Asleep, lock := Unlocked)]
    {
      ghost var s := Model();
      var done := (waiters[w].waitAll && waiters[w].status == 0) || (!waiters[w].waitAll && waiters[w].status != -1);
      if done {
        waiters := waiters[w := waiters[w].(phase := Finish(Success))];
      } else {
        waiters := waiters[w := waiters[w].(phase := Asleep, lock := Unlocked)];
      }
      Did(s, Action.CheckDone(w));
    }

    /** Lines 318-330: the sleeper has its mutex back, notified, spuriously or out of time. */
    method WakeUp(w: nat, timedOut: bool)
      requires Valid() && Enabled(Model(), Wake(w, timedOut))
      modifies this
      ensures Valid() && trace == old(trace) + [Wake(w, timedOut)]
      ensures Enabled(old(Model()), Wake(w, timedOut)) && Model() == Apply(old(Model()), Wake(w, timedOut))
    {
      hide Inv, Runs;
      ghost var s := Model();
      var phase := if timedOut then Finish(TimedOut) else Check;
      waiters := waiters[w := waiters[w].(phase := phase, lock := ByCall)];
      Did(s, Wake(w, timedOut));
    }

    /** Lines 334-348, whatever mutexes other calls hold. */
    method FinishWait(w: nat)
      requires Valid() && w < |waiters| && waiters[w].phase.Finish?
      modifies this
      ensures Valid() && events == old(events) && |waiters| == |old(waiters)|
      ensures forall v | 0 <= v < |waiters| && v != w :: waiters[v] == old(waiters)[v]
      ensures waiters[w].phase == Done(old(waiters)[w].phase.result, old(waiters)[w].status)
      ensures waiters[w].lock.Unlocked? && !waiters[w].stillWaiting
      ensures waiters[w].refCount == old(waiters)[w].refCount - 1 && waiters[w].freed == (waiters[w].refCount == 0)
    {
      Leave(w);
    }

    /** The same as a step. */
    method Leave(w: nat)
      requires Valid() && Enabled(Model(), Action.FinishWait(w))
      modifies this
      ensures Valid() && trace == old(trace) + [Action.FinishWait(w)]
      ensures Enabled(old(Model()), Action.FinishWait(w)) && Model() == Apply(old(Model()), Action.FinishWait(w))
    {
      hide Inv, Runs;
      ghost var s := Model();
      var wt := waiters[w];
      wt := wt.(phase := Done(wt.phase.result, wt.status), stillWaiting := false);
      wt := wt.(refCount := wt.refCount - 1, lock := Unlocked);
      if wt.refCount == 0 {
        hist := Note(hist, Freed(w));
      }
      waiters := waiters[w := wt.(freed := wt.refCount == 0)];
      Did(s, Action.FinishWait(w));
    }

    /** Lines 217-247. */
    method Enter(evs: seq<nat>, waitAll: bool, timeout: Timeout) returns (w: nat)
      requires Valid() && Enabled(Model(), Action.StartWait(evs, waitAll, timeout))
      modifies this
      ensures Valid() && trace == old(trace) + [Action.StartWait(evs, waitAll, timeout)] && w == |old(waiters)|
      ensures Enabled(old(Model()), Action.StartWait(evs, waitAll, timeout))
      ensures Model() == Apply(old(Model()), Action.StartWait(evs, waitAll, timeout))
    {
      hide Inv, Runs;
      ghost var s := Model();
      w := |waiters|;
      waiters := waiters + [NewWaiter(evs, waitAll, timeout)];
      Did(s, Action.StartWait(evs, waitAll, timeout));
    }

    /** Lines 217-286. */
    method StartWait(evs: seq<nat>, waitAll: bool, timeout: Timeout) returns (w: nat)
      requires Valid() && Quiescent(Model())
      requires forall e | e in evs :: e < |events| && events[e].alive
      modifies this
      ensures Valid() && OnlyCall(Model(), w) && w == |old(waiters)| == |waiters| - 1
      ensures waiters[w].waitAll == waitAll && waiters[w].timeout == timeout
      ensures AllExist(evs, old(events)) && ScanSoFar(evs, old(events), waiters[w], events)
      ensures waiters[w].phase.Scan? ==> waiters[w].scanned == |evs|
    {
      ghost var was := events;
      w := Enter(evs, waitAll, timeout);
      ScanStarts(evs, was, waiters[w]);
      while waiters[w].phase.Scan? && waiters[w].scanned < |evs|
        invariant Valid() && OnlyCall(Model(), w) && |waiters| == w + 1
        invariant waiters[w].waitAll == waitAll && waiters[w].timeout == timeout
        invariant AllExist(evs, was) && ScanSoFar(evs, was, waiters[w], events)
        decreases |evs| - waiters[w].scanned
      {
        ghost var wt, before := waiters[w], events;
        ScanNext(w);
        ScanGoesOn(evs, was, wt, before, waiters[w], events);
      }
    }

    /** Lines 215-348 up to the first sleep. A wait-any takes the first signalled event of the list
        and nothing else. A wait-all takes what it can and succeeds, unless it may not wait, exactly
        if every position was available. */
    method WaitForMultipleEvents(evs: seq<nat>, waitAll: bool, timeout: Timeout) returns (w: nat)
      requires Valid() && Quiescent(Model())
      requires forall e | e in evs :: e < |events| && events[e].alive
      modifies this
      ensures Valid() && Quiescent(Model()) && w == |old(waiters)| == |waiters| - 1
      ensures AllExist(evs, old(events))
      ensures !waitAll ==>
        if exists j :: 0 <= j < |evs| && old(events)[evs[j]].state then
          exists i :: 0 <= i < |evs| && old(events)[evs[i]].state
            && (forall j | 0 <= j < i :: !old(events)[evs[j]].state)
            && waiters[w].phase == Done(Success, i) && StatesTaking(evs[i], old(events), events)
        else
          waiters[w].phase == (if timeout.Zero? then Done(TimedOut, -1) else Asleep)
          && StatesAfter([], 0, old(events), events)
      ensures waitAll ==>
        && StatesAfter(evs, |evs|, old(events), events)
        && var all := forall j | 0 <= j < |evs| :: Available(evs, j, old(events));
           if timeout.Zero? then waiters[w].phase.Done? && waiters[w].phase.returned == TimedOut
           else if all then waiters[w].phase == Done(Success, 0) else waiters[w].phase == Asleep
    {
      ghost var was := events;
      w := StartWait(evs, waitAll, timeout);
      if waiters[w].phase.Scan? {
        EndScan(w);
      }
      if waiters[w].phase.Finish? {
        FinishWait(w);
      }
    }

    /** Lines 104-124. The `SetEvent` of line 119 meets nobody, since nobody knows the event yet. */
    method CreateEvent(manualReset: bool, initialState: bool) returns (e: nat)
      requires Valid()
      modifies this
      ensures Valid() && e == |old(events)| && waiters == old(waiters)
      ensures events == old(events) + [Event(!manualReset, initialState, [], 0, Free, true)]
    {
      ghost var s := Model();
      e := |events|;
      events := events + [Event(!manualReset, false, [], 0, Free, true)];
      Did(s, Action.CreateEvent(manualReset));
      if initialState {
        LockToSet(e);
        Latch(e);
      }
    }

    /** Lines 375-507. */
    method SetEvent(e: nat)
      requires Valid() && Quiescent(Model()) && e < |events| && events[e].alive
      modifies this
      ensures Valid() && Quiescent(Model()) && OnlyAt(e, old(events), events)
      ensures events[e].state == (!events[e].autoReset || Queues(old(Model()))[e] == [])
      ensures events[e].state ==> events[e].waits == []
      ensures events[e].autoReset && !events[e].state ==> HeadServed(old(Model()), e, Model())
      ensures !events[e].autoReset ==> Queues(Model())[e] == []
    {
      if events[e].autoReset {
        SetAutoEvent(e);
      } else {
        ghost var ops := SetManualEvent(e);
      }
    }

    /** Lines 126-206: `None` stands for a call that goes to sleep. */
    method WaitForEvent(e: nat, timeout: Timeout) returns (r: Option<Outcome>)
      requires Valid() && Quiescent(Model()) && e < |events| && events[e].alive
      modifies this
      ensures Valid() && Quiescent(Model()) && waiters == old(waiters)
      ensures events == old(events)[e := old(events)[e].(state := old(events)[e].state && !old(events)[e].autoReset)]
      ensures r == if old(events)[e].state then Some(Success) else if timeout.Zero? then Some(TimedOut) else None
    {
      if !events[e].state {
        return if timeout.Zero? then Some(TimedOut) else None;
      }
      Take(e);
      r := Some(Success);
    }

    /** Lines 163-175 with the state true: an auto-reset event is cleared. */
    method Take(e: nat)
      requires Valid() && Enabled(Model(), TakeSingle(e))
      modifies this
      ensures Valid() && trace == old(trace) + [TakeSingle(e)]
      ensures Enabled(old(Model()), TakeSingle(e)) && Model() == Apply(old(Model()), TakeSingle(e))
    {
      hide Inv, Runs;
      ghost var s := Model();
      hist := Note(hist, Single(e));
      if events[e].autoReset {
        events := events[e := events[e].(state := false)];
      }
      assert events == s.events[e := s.events[e].(state := !s.events[e].autoReset)];
      Did(s, TakeSingle(e));
    }

    /** Lines 352-373: called when no running call lists the event, it leaves no entry behind, so
        that no waiter record is left with a reference that nobody will ever drop. */
    method DestroyEvent(e: nat)
      requires Valid() && Quiescent(Model()) && e < |events| && events[e].alive && !InUse(Model(), e)
      modifies this
      ensures Valid() && Quiescent(Model()) && |events| == |old(events)|
      ensures events == old(events)[e := old(events)[e].(alive := false, waits := [])]
    {
      hide Inv, Runs, Apply, Unexpired, InUse;
      UnusedIsExpired(Model(), e);
      DestroyState(Model(), e);
      BeginDestroy(e);
      RemoveExpiredWaits(e);
      DeleteState(Model(), e);
      Delete(e);
    }

    /** Lines 360-370: the clean-up is over; the event is deleted with the entries it still has. */
    method Delete(e: nat)
      requires Valid() && Enabled(Model(), EndDestroy(e))
      modifies this
      ensures Valid() && trace == old(trace) + [EndDestroy(e)]
      ensures Enabled(old(Model()), EndDestroy(e)) && Model() == Apply(old(Model()), EndDestroy(e))
    {
      hide Inv, Runs;
      ghost var m := Model();
      events := events[e := events[e].(holder := Free)];
      Did(m, EndDestroy(e));
    }

    /** Line 357: from here on the event may no longer be used. */
    method BeginDestroy(e: nat)
      requires Valid() && e < |events| && events[e].alive && events[e].holder.Free? && !InUse(Model(), e)
      modifies this
      ensures Valid() && waiters == old(waiters) && trace == old(trace) + [LockDestroy(e)]
      ensures Enabled(old(Model()), LockDestroy(e)) && Model() == Apply(old(Model()), LockDestroy(e))
      ensures events == old(events)[e := old(events)[e].(holder := Destroyer(0), alive := false)]
    {
      ghost var s := Model();
      events := events[e := events[e].(holder := Destroyer(0), alive := false)];
      Did(s, LockDestroy(e));
    }
  }
}
