/** The inductive invariant of the event library: what holds between any two actions of any run. */
module PeventsInvariant {
  import opened Pevents

  // ---------- Counting ----------

  /** The entries of an event whose reference `SetEvent` has not given up. */
  function Out(ev: Event): seq<Info> {
    if ev.given <= |ev.waits| then ev.waits[ev.given..] else []
  }

  /** How many entries of `q` name the waiter. */
  function Naming(q: seq<Info>, w: nat): nat {
    if q == [] then 0
    else Naming(q[..|q|-1], w) + if q[|q|-1].waiter == w then 1 else 0
  }

  /** How many entries of `q` equal `x`. */
  function Copies(q: seq<Info>, x: Info): nat {
    if q == [] then 0
    else Copies(q[..|q|-1], x) + if q[|q|-1] == x then 1 else 0
  }

  /** How many registered entries name the waiter, over all events. */
  function Registered(events: seq<Event>, w: nat): nat {
    if events == [] then 0
    else Registered(events[..|events|-1], w) + Naming(Out(events[|events|-1]), w)
  }

  /** How often an entry occurs in the history. */
  function Tally(h: History, x: Entry): nat {
    match h
    case Start => 0
    case Then(past, last) => Tally(past, x) + if last == x then 1 else 0
  }

  /** How many signals of the event were consumed, by single waits and by multi-waits. */
  function Takes(h: History, e: nat): nat {
    match h
    case Start => 0
    case Then(past, last) =>
      Takes(past, e) +
      if (last.Got? || last.Single?) && last.event == e then 1 else 0
  }

  lemma {:induction false} NamingAppend(a: seq<Info>, b: seq<Info>, w: nat)
    ensures Naming(a + b, w) == Naming(a, w) + Naming(b, w)
  {
    if b == [] {
      assert a + b == a;
    } else {
      var c := b[..|b|-1];
      NamingAppend(a, c, w);
      assert (a + b)[..|a + b|-1] == a + c;
    }
  }

  lemma {:induction false} CopiesAppend(a: seq<Info>, b: seq<Info>, x: Info)
    ensures Copies(a + b, x) == Copies(a, x) + Copies(b, x)
  {
    if b == [] {
      assert a + b == a;
    } else {
      var c := b[..|b|-1];
      CopiesAppend(a, c, x);
      assert (a + b)[..|a + b|-1] == a + c;
    }
  }

  /** Taking out one entry lowers the counts of that entry and its waiter only. */
  lemma {:induction false} RemoveAt(q: seq<Info>, k: nat)
    requires k < |q|
    ensures forall w: nat :: Naming(q[..k] + q[k+1..], w) == Naming(q, w) - if q[k].waiter == w then 1 else 0
    ensures forall x: Info :: Copies(q[..k] + q[k+1..], x) == Copies(q, x) - if q[k] == x then 1 else 0
  {
    assert q == q[..k] + ([q[k]] + q[k+1..]);
    forall w: nat
      ensures Naming(q[..k] + q[k+1..], w) == Naming(q, w) - if q[k].waiter == w then 1 else 0
    {
      NamingAppend(q[..k], q[k+1..], w);
      NamingAppend(q[..k], [q[k]] + q[k+1..], w);
      NamingAppend([q[k]], q[k+1..], w);
    }
    forall x: Info
      ensures Copies(q[..k] + q[k+1..], x) == Copies(q, x) - if q[k] == x then 1 else 0
    {
      CopiesAppend(q[..k], q[k+1..], x);
      CopiesAppend(q[..k], [q[k]] + q[k+1..], x);
      CopiesAppend([q[k]], q[k+1..], x);
    }
  }

  lemma {:induction false} RemoveFirst(q: seq<Info>)
    requires q != []
    ensures forall w: nat :: Naming(q[1..], w) == Naming(q, w) - if q[0].waiter == w then 1 else 0
    ensures forall x: Info :: Copies(q[1..], x) == Copies(q, x) - if q[0] == x then 1 else 0
  {
    RemoveAt(q, 0);
    assert q[..0] + q[1..] == q[1..];
  }

  lemma {:induction false} AddLast(q: seq<Info>, y: Info)
    ensures forall w: nat :: Naming(q + [y], w) == Naming(q, w) + if y.waiter == w then 1 else 0
    ensures forall x: Info :: Copies(q + [y], x) == Copies(q, x) + if y == x then 1 else 0
  {
    assert (q + [y])[..|q|] == q;
  }

  lemma {:induction false} CopiesNaming(q: seq<Info>, x: Info)
    ensures Copies(q, x) <= Naming(q, x.waiter)
    ensures x in q <==> Copies(q, x) > 0
  {
    if q != [] {
      CopiesNaming(q[..|q|-1], x);
      assert q == q[..|q|-1] + [q[|q|-1]];
    }
  }

  lemma {:induction false} RegisteredUpdate(events: seq<Event>, e: nat, ev: Event, w: nat)
    requires e < |events|
    ensures Registered(events[e := ev], w)
         == Registered(events, w) - Naming(Out(events[e]), w) + Naming(Out(ev), w)
  {
    hide Naming, Out;
    var n := |events| - 1;
    if e == n {
      assert events[e := ev][..n] == events[..n];
    } else {
      RegisteredUpdate(events[..n], e, ev, w);
      assert events[e := ev][..n] == events[..n][e := ev];
    }
  }

  lemma {:induction false} RegisteredAtLeast(events: seq<Event>, e: nat, w: nat)
    requires e < |events|
    ensures Registered(events, w) >= Naming(Out(events[e]), w)
  {
    hide Naming, Out;
    var n := |events| - 1;
    if e < n {
      RegisteredAtLeast(events[..n], e, w);
    }
  }

  // ---------- The invariant ----------

  /** What the owner of the mutex is doing fits the event; a free signalled event has no waiters. */
  predicate EventOk(s: Sys, e: nat)
    requires e < |s.events|
  {
    var ev := s.events[e];
    && (!ev.alive ==> ev.holder.Free? || ev.holder.Destroyer?)
    && match ev.holder
       case Free => ev.given == 0 && (ev.state ==> ev.waits == [])
       case Scanner(w, k) =>
         && ev.given == 0 && k <= |ev.waits| && (ev.state ==> ev.waits == [])
         && w < |s.waiters| && s.waiters[w].phase.Sweep?
         && s.waiters[w].scanned < |s.waiters[w].events|
         && s.waiters[w].events[s.waiters[w].scanned] == e
       case Destroyer(k) =>
         !ev.alive && ev.given == 0 && k <= |ev.waits| && (ev.state ==> ev.waits == [])
       case Setter(latched, at) =>
         && (latched ==> ev.waits == [])
         && match at
            case Drain => ev.state && ev.given <= |ev.waits| && (ev.autoReset ==> ev.given == 0)
            case Serve =>
              && ev.state && (ev.autoReset ==> ev.given == 0)
              && HasNext(s, ev) && s.waiters[ev.waits[ev.given].waiter].lock == BySetter(e)
            case Pop(served) =>
              ev.autoReset && ev.given == 1 <= |ev.waits| && ev.state == !served
  }

  /** A registered entry names a position of its waiter's call that was scanned at this event. */
  predicate EntryOk(s: Sys, e: nat, x: Info) {
    && x.waiter < |s.waiters|
    && x.index < s.waiters[x.waiter].scanned
    && x.index < |s.waiters[x.waiter].events|
    && s.waiters[x.waiter].events[x.index] == e
  }

  predicate HoldsOwnLock(p: Phase) {
    p.Scan? || p.Sweep? || p.Check? || p.Finish?
  }

  /** What the return code can be: a call that may not wait never succeeds as a wait-all, a call
      without a timeout never times out, and a successful wait-any has an event. */
  predicate ResultOk(wt: Waiter) {
    wt.phase.Finish? || wt.phase.Done? ==>
      var r := if wt.phase.Finish? then wt.phase.result else wt.phase.returned;
      && (wt.timeout.Zero? && wt.waitAll ==> r.TimedOut?)
      && (wt.timeout.Infinite? ==> r.Success?)
      && (!wt.waitAll && r.Success? ==> wt.status != -1)
  }

  /** The call's control state, its mutex and the events it lists. */
  predicate ControlOk(s: Sys, w: nat)
    requires w < |s.waiters|
  {
    var wt := s.waiters[w];
    && wt.scanned <= |wt.events|
    && (forall i | 0 <= i < |wt.events| ::
          wt.events[i] < |s.events| && (Active(wt) ==> s.events[wt.events[i]].alive))
    && (wt.lock.ByCall? <==> HoldsOwnLock(wt.phase))
    && (wt.lock.BySetter? ==>
          && wt.lock.event < |s.events|
          && var ev := s.events[wt.lock.event];
             ev.holder.Setter? && ev.holder.at.Serve? && HasNext(s, ev) && ev.waits[ev.given].waiter == w)
    && (wt.phase.Sweep? ==>
          && AtEvent(s, wt)
          && s.events[wt.events[wt.scanned]].holder.Scanner?
          && s.events[wt.events[wt.scanned]].holder.call == w)
    && (wt.phase.Check? || wt.phase.Asleep? ==> wt.scanned == |wt.events| && !wt.timeout.Zero?)
    && ResultOk(wt)
  }

  /** Reference count, status and `StillWaiting` of a waiter record. */
  predicate RecordOk(s: Sys, w: nat)
    requires w < |s.waiters|
  {
    var wt := s.waiters[w];
    && wt.refCount == (if Active(wt) then 1 else 0) + Registered(s.events, w)
    && (wt.freed <==> wt.refCount == 0)
    && (!Active(wt) ==> !wt.stillWaiting && wt.phase.waitIndex == wt.status)
    && (wt.waitAll && Active(wt) ==>
          && wt.stillWaiting
          && wt.status == Registered(s.events, w) + |wt.events| - wt.scanned
          && (wt.phase.Finish? ==> wt.scanned == |wt.events|)
          && (wt.phase == Finish(Success) ==> wt.status == 0))
    && (!wt.waitAll ==>
          && -1 <= wt.status < |wt.events|
          && (wt.phase.Scan? || wt.phase.Sweep? ==> wt.status == -1)
          && (wt.status == -1 && Active(wt) ==> wt.stillWaiting)
          && (wt.status == -1 && wt.phase.Finish? ==> wt.scanned == |wt.events|)
          && (wt.stillWaiting && wt.status != -1 ==> wt.phase.Finish?))
  }

  /** One position of one call: registered once, or satisfied once, or neither yet. */
  predicate SlotOk(s: Sys, w: nat, i: nat)
    requires w < |s.waiters| && i < |s.waiters[w].events|
    requires s.waiters[w].events[i] < |s.events|
  {
    var wt := s.waiters[w];
    var e := wt.events[i];
    var c := Copies(Out(s.events[e]), Info(w, i));
    var g := Tally(s.hist, Got(e, w, i));
    && c + g <= 1
    && (i >= wt.scanned ==> c + g == 0)
    && (wt.waitAll && Active(wt) && i < wt.scanned ==> c + g == 1)
    && (wt.waitAll && !Active(wt) && wt.phase.returned.Success? ==> g == 1)
    && (!wt.waitAll ==> g == if wt.status == i then 1 else 0)
    && (!wt.waitAll && Active(wt) && wt.status == -1 && i < wt.scanned ==> c == 1)
  }

  predicate EventsOk(s: Sys) {
    forall e | 0 <= e < |s.events| :: EventOk(s, e)
  }

  predicate EntriesOk(s: Sys) {
    forall e, k | 0 <= e < |s.events| && s.events[e].given <= k < |s.events[e].waits| ::
      EntryOk(s, e, s.events[e].waits[k])
  }

  predicate ControlsOk(s: Sys) {
    forall w | 0 <= w < |s.waiters| :: ControlOk(s, w)
  }

  predicate RecordsOk(s: Sys) {
    forall w | 0 <= w < |s.waiters| :: RecordOk(s, w)
  }

  predicate SlotsOk(s: Sys)
    requires ControlsOk(s)
  {
    forall w, i | 0 <= w < |s.waiters| && 0 <= i < |s.waiters[w].events| ::
      ControlOk(s, w) && SlotOk(s, w, i)
  }

  /** The history speaks of existing positions, and records each deletion once. */
  ghost predicate HistoryOk(s: Sys) {
    && (forall e: nat, w: nat, i: nat | Tally(s.hist, Got(e, w, i)) > 0 ::
          w < |s.waiters| && i < |s.waiters[w].events| && s.waiters[w].events[i] == e)
    && (forall w: nat :: Tally(s.hist, Freed(w)) == if w < |s.waiters| && s.waiters[w].freed then 1 else 0)
  }

  /** The signals of an auto-reset event are all accounted for. */
  predicate LedgerOk(s: Sys, e: nat)
    requires e < |s.events|
  {
    var ev := s.events[e];
    && Tally(s.hist, Lost(e)) == 0
    && (ev.autoReset ==>
          Tally(s.hist, Set(e)) ==
            Takes(s.hist, e) + Tally(s.hist, Merged(e)) + Tally(s.hist, Discarded(e))
            + (if ev.state then 1 else 0)
            + (if ev.holder.Setter? && ev.holder.latched then 1 else 0))
  }

  predicate EmptyLedger(h: History, e: nat) {
    && Tally(h, Set(e)) == 0 && Takes(h, e) == 0 && Tally(h, Merged(e)) == 0
    && Tally(h, Discarded(e)) == 0 && Tally(h, Lost(e)) == 0
  }

  ghost predicate LedgersOk(s: Sys) {
    && (forall e | 0 <= e < |s.events| :: LedgerOk(s, e))
    && (forall e: nat | e >= |s.events| :: EmptyLedger(s.hist, e))
  }

  ghost predicate Inv(s: Sys) {
    && EventsOk(s) && EntriesOk(s) && ControlsOk(s) && RecordsOk(s) && SlotsOk(s)
    && HistoryOk(s) && LedgersOk(s)
  }
}
