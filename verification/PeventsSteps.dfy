/** Every action keeps the invariant, hence it holds throughout every run. */
module PeventsSteps {
  import opened Pevents
  import opened PeventsInvariant
  import opened PeventsPatch

  const NOBODY := NewWaiter([], false, Zero)
  const NOTHING := Event(false, false, [], 0, Free, false)

  /** The invariant at one waiter and all its positions. */
  predicate CallOk(s: Sys, w: nat)
    requires w < |s.waiters|
  {
    && ControlOk(s, w) && RecordOk(s, w)
    && forall i | 0 <= i < |s.waiters[w].events| :: SlotOk(s, w, i)
  }

  /** The invariant at one event and one waiter. */
  predicate Local(s: Sys, e: nat, w: nat)
    requires e < |s.events| && w < |s.waiters|
  {
    EventOk(s, e) && CallOk(s, w)
  }

  lemma LookAt(s: Sys, w: nat)
    requires Core(s) && w < |s.waiters|
    ensures CallOk(s, w)
  {
    assert ControlOk(s, w) && RecordOk(s, w);
    forall i | 0 <= i < |s.waiters[w].events| ensures SlotOk(s, w, i) {
    }
  }

  // ---------- Actions that rewrite an event only ----------

  predicate EventStep(a: Action) {
    a.LockSet? || a.PopEntry? || a.EndDrain? || a.TakeSingle? || a.ResetEvent? || a.LockDestroy? || a.EndDestroy?
  }

  lemma StepEvent(s: Sys, a: Action)
    requires Core(s) && Enabled(s, a) && EventStep(a)
    ensures Core(Apply(s, a))
  {
    EventPatch(s, a);
    EventPatchOk(s, a);
    hide Core, PatchOk, Apply, Enabled;
    PatchKeeps(s, a.e, Apply(s, a).events[a.e], |s.waiters|, NOBODY, Apply(s, a).hist);
  }

  lemma EventPatch(s: Sys, a: Action)
    requires Enabled(s, a) && EventStep(a)
    ensures a.e < |s.events| == |Apply(s, a).events|
    ensures Apply(s, a) == Patch(s, a.e, Apply(s, a).events[a.e], |s.waiters|, NOBODY, Apply(s, a).hist)
  {
  }

  lemma EventPatchOk(s: Sys, a: Action)
    requires Core(s) && Enabled(s, a) && EventStep(a)
    ensures a.e < |Apply(s, a).events|
    ensures PatchOk(s, a.e, Apply(s, a).events[a.e], |s.waiters|, NOBODY, Apply(s, a).hist)
  {
    hide EntriesOk, ControlsOk, RecordsOk, SlotsOk;
    EventPatch(s, a);
    assert EventOk(s, a.e);
    assert Out(Apply(s, a).events[a.e]) == Out(s.events[a.e]);
  }

  // ---------- Actions that rewrite a call only ----------

  predicate CallStep(a: Action) {
    a.EndScan? || a.CheckDone? || a.Wake? || a.FinishWait?
  }

  lemma EndScanControl(s: Sys, v: nat)
    requires v < |s.waiters| && CallOk(s, v)
    requires Enabled(s, EndScan(v))
    ensures ControlOk(Apply(s, EndScan(v)), v)
  {
  }

  lemma EndScanRecord(s: Sys, v: nat)
    requires v < |s.waiters| && CallOk(s, v)
    requires Enabled(s, EndScan(v))
    ensures RecordOk(Apply(s, EndScan(v)), v)
  {
  }

  lemma EndScanSlot(s: Sys, v: nat, i: nat)
    requires v < |s.waiters| && CallOk(s, v)
    requires Enabled(s, EndScan(v))
    requires i < |s.waiters[v].events|
    ensures SlotOk(Apply(s, EndScan(v)), v, i)
  {
    assert SlotOk(s, v, i);
  }

  lemma CheckDoneControl(s: Sys, v: nat)
    requires v < |s.waiters| && CallOk(s, v)
    requires Enabled(s, CheckDone(v))
    ensures ControlOk(Apply(s, CheckDone(v)), v)
  {
  }

  lemma CheckDoneRecord(s: Sys, v: nat)
    requires v < |s.waiters| && CallOk(s, v)
    requires Enabled(s, CheckDone(v))
    ensures RecordOk(Apply(s, CheckDone(v)), v)
  {
  }

  lemma CheckDoneSlot(s: Sys, v: nat, i: nat)
    requires v < |s.waiters| && CallOk(s, v)
    requires Enabled(s, CheckDone(v))
    requires i < |s.waiters[v].events|
    ensures SlotOk(Apply(s, CheckDone(v)), v, i)
  {
    assert SlotOk(s, v, i);
  }

  lemma WakeControl(s: Sys, v: nat, timedOut: bool)
    requires v < |s.waiters| && CallOk(s, v)
    requires Enabled(s, Wake(v, timedOut))
    ensures ControlOk(Apply(s, Wake(v, timedOut)), v)
  {
  }

  lemma WakeRecord(s: Sys, v: nat, timedOut: bool)
    requires v < |s.waiters| && CallOk(s, v)
    requires Enabled(s, Wake(v, timedOut))
    ensures RecordOk(Apply(s, Wake(v, timedOut)), v)
  {
  }

  lemma WakeSlot(s: Sys, v: nat, timedOut: bool, i: nat)
    requires v < |s.waiters| && CallOk(s, v)
    requires Enabled(s, Wake(v, timedOut))
    requires i < |s.waiters[v].events|
    ensures SlotOk(Apply(s, Wake(v, timedOut)), v, i)
  {
    assert SlotOk(s, v, i);
  }

  lemma FinishWaitControl(s: Sys, v: nat)
    requires v < |s.waiters| && CallOk(s, v)
    requires Enabled(s, FinishWait(v))
    ensures ControlOk(Apply(s, FinishWait(v)), v)
  {
  }

  lemma FinishWaitRecord(s: Sys, v: nat)
    requires v < |s.waiters| && CallOk(s, v)
    requires Enabled(s, FinishWait(v))
    ensures RecordOk(Apply(s, FinishWait(v)), v)
  {
  }

  lemma FinishWaitSlot(s: Sys, v: nat, i: nat)
    requires v < |s.waiters| && CallOk(s, v)
    requires Enabled(s, FinishWait(v))
    requires i < |s.waiters[v].events|
    ensures SlotOk(Apply(s, FinishWait(v)), v, i)
  {
    assert SlotOk(s, v, i);
    var e := s.waiters[v].events[i];
    CopiesNaming(Out(s.events[e]), Info(v, i));
    RegisteredAtLeast(s.events, e, v);
  }

  lemma LockScannedEvent(s: Sys, e: nat, v: nat)
    requires e < |s.events| && v < |s.waiters| && Local(s, e, v)
    requires Enabled(s, LockScanned(v))
    requires s.waiters[v].events[s.waiters[v].scanned] == e
    ensures EventLocal(s, e, Apply(s, LockScanned(v)).events[e], v, Apply(s, LockScanned(v)))
  {
    assert Out(Apply(s, LockScanned(v)).events[e]) == Out(s.events[e]);
  }

  lemma LockScannedControl(s: Sys, e: nat, v: nat)
    requires e < |s.events| && v < |s.waiters| && Local(s, e, v)
    requires Enabled(s, LockScanned(v))
    requires s.waiters[v].events[s.waiters[v].scanned] == e
    ensures ControlOk(Apply(s, LockScanned(v)), v)
  {
  }

  lemma LockScannedRecord(s: Sys, e: nat, v: nat)
    requires e < |s.events| && v < |s.waiters| && Local(s, e, v)
    requires Enabled(s, LockScanned(v))
    requires s.waiters[v].events[s.waiters[v].scanned] == e
    ensures RecordOk(Apply(s, LockScanned(v)), v)
  {
    hide ControlOk, SlotOk, Copies, Naming, Registered, Tally;
    assert Out(Apply(s, LockScanned(v)).events[e]) == Out(s.events[e]);
    RegisteredUpdate(s.events, e, Apply(s, LockScanned(v)).events[e], v);
  }

  lemma LockScannedSlot(s: Sys, e: nat, v: nat, i: nat)
    requires e < |s.events| && v < |s.waiters| && Local(s, e, v)
    requires Enabled(s, LockScanned(v))
    requires s.waiters[v].events[s.waiters[v].scanned] == e
    requires i < |s.waiters[v].events|
    ensures SlotOk(Apply(s, LockScanned(v)), v, i)
  {
    assert SlotOk(s, v, i);
    assert Out(Apply(s, LockScanned(v)).events[e]) == Out(s.events[e]);
  }

  lemma LockWaiterEvent(s: Sys, e: nat, v: nat)
    requires e < |s.events| && v < |s.waiters| && Local(s, e, v)
    requires Enabled(s, LockWaiter(e))
    requires s.events[e].waits[s.events[e].given].waiter == v
    ensures EventLocal(s, e, Apply(s, LockWaiter(e)).events[e], v, Apply(s, LockWaiter(e)))
  {
    assert Out(Apply(s, LockWaiter(e)).events[e]) == Out(s.events[e]);
  }

  lemma LockWaiterControl(s: Sys, e: nat, v: nat)
    requires e < |s.events| && v < |s.waiters| && Local(s, e, v)
    requires Enabled(s, LockWaiter(e))
    requires s.events[e].waits[s.events[e].given].waiter == v
    ensures ControlOk(Apply(s, LockWaiter(e)), v)
  {
  }

  lemma LockWaiterRecord(s: Sys, e: nat, v: nat)
    requires e < |s.events| && v < |s.waiters| && Local(s, e, v)
    requires Enabled(s, LockWaiter(e))
    requires s.events[e].waits[s.events[e].given].waiter == v
    ensures RecordOk(Apply(s, LockWaiter(e)), v)
  {
    hide ControlOk, SlotOk, Copies, Naming, Registered, Tally;
    assert Out(Apply(s, LockWaiter(e)).events[e]) == Out(s.events[e]);
    RegisteredUpdate(s.events, e, Apply(s, LockWaiter(e)).events[e], v);
  }

  lemma LockWaiterSlot(s: Sys, e: nat, v: nat, i: nat)
    requires e < |s.events| && v < |s.waiters| && Local(s, e, v)
    requires Enabled(s, LockWaiter(e))
    requires s.events[e].waits[s.events[e].given].waiter == v
    requires i < |s.waiters[v].events|
    ensures SlotOk(Apply(s, LockWaiter(e)), v, i)
  {
    assert SlotOk(s, v, i);
    assert Out(Apply(s, LockWaiter(e)).events[e]) == Out(s.events[e]);
  }

  lemma SweepDropEvent(s: Sys, e: nat, v: nat)
    requires e < |s.events| && v < |s.waiters| && Local(s, e, v)
    requires Enabled(s, SweepEntry(e, false))
    requires s.events[e].waits[SweepPosition(s.events[e])].waiter == v && !s.waiters[v].stillWaiting
    ensures EventLocal(s, e, Apply(s, SweepEntry(e, false)).events[e], v, Apply(s, SweepEntry(e, false)))
  {
    hide Copies, Naming, Registered, Out;
    var ev, ev' := s.events[e], Apply(s, SweepEntry(e, false)).events[e];
    OutWhole(ev);
    OutWhole(ev');
    RemoveAt(ev.waits, SweepPosition(ev));
  }

  /** With nothing in transit all entries are registered. */
  lemma OutWhole(ev: Event)
    requires ev.given == 0
    ensures Out(ev) == ev.waits
  {
  }

  lemma SweepDropControl(s: Sys, e: nat, v: nat)
    requires e < |s.events| && v < |s.waiters| && Local(s, e, v)
    requires Enabled(s, SweepEntry(e, false))
    requires s.events[e].waits[SweepPosition(s.events[e])].waiter == v && !s.waiters[v].stillWaiting
    ensures ControlOk(Apply(s, SweepEntry(e, false)), v)
  {
  }

  lemma SweepDropRecord(s: Sys, e: nat, v: nat)
    requires e < |s.events| && v < |s.waiters| && Local(s, e, v)
    requires Enabled(s, SweepEntry(e, false))
    requires s.events[e].waits[SweepPosition(s.events[e])].waiter == v && !s.waiters[v].stillWaiting
    ensures RecordOk(Apply(s, SweepEntry(e, false)), v)
  {
    SweepDropEffect(s, e, v);
    hide Apply, Enabled, EventOk, ControlOk, SlotOk, Registered;
    assert RecordOk(s, v);
  }

  lemma {:induction false} SweepDropEffect(s: Sys, e: nat, v: nat)
    requires e < |s.events| && v < |s.waiters| && EventOk(s, e) && Enabled(s, SweepEntry(e, false))
    requires s.events[e].waits[SweepPosition(s.events[e])].waiter == v && !s.waiters[v].stillWaiting
    ensures
      var t := Apply(s, SweepEntry(e, false));
      && |t.waiters| == |s.waiters| && t.waiters[v] == Release(s.waiters[v])
      && Registered(t.events, v) == Registered(s.events, v) - 1
  {
    hide Copies, Naming, Registered, Out;
    var ev, ev' := s.events[e], Apply(s, SweepEntry(e, false)).events[e];
    OutWhole(ev);
    OutWhole(ev');
    OneFewer(ev.waits, SweepPosition(ev));
    RegisteredUpdate(s.events, e, ev', v);
  }

  lemma {:induction false} OneFewer(q: seq<Info>, k: nat)
    requires k < |q|
    ensures Naming(q[..k] + q[k + 1..], q[k].waiter) == Naming(q, q[k].waiter) - 1
  {
    RemoveAt(q, k);
  }

  lemma SweepDropSlot(s: Sys, e: nat, v: nat, i: nat)
    requires e < |s.events| && v < |s.waiters| && Local(s, e, v)
    requires Enabled(s, SweepEntry(e, false))
    requires s.events[e].waits[SweepPosition(s.events[e])].waiter == v && !s.waiters[v].stillWaiting
    requires i < |s.waiters[v].events|
    ensures SlotOk(Apply(s, SweepEntry(e, false)), v, i)
  {
    hide Naming, Registered, InUse, Copies, Out;
    assert SlotOk(s, v, i);
    var ev, ev' := s.events[e], Apply(s, SweepEntry(e, false)).events[e];
    OutWhole(ev);
    OutWhole(ev');
    NoneAdded(ev.waits, SweepPosition(ev), Info(v, i));
  }

  lemma {:induction false} NoneAdded(q: seq<Info>, k: nat, x: Info)
    requires k < |q|
    ensures Copies(q[..k] + q[k + 1..], x) <= Copies(q, x)
  {
    RemoveAt(q, k);
  }

  lemma PollEvent(s: Sys, e: nat, v: nat)
    requires e < |s.events| && v < |s.waiters| && Local(s, e, v)
    requires Enabled(s, Poll(v))
    requires s.waiters[v].events[s.waiters[v].scanned] == e
    ensures EventLocal(s, e, Apply(s, Poll(v)).events[e], v, Apply(s, Poll(v)))
  {
    hide Out;
    var ev, ev' := s.events[e], Apply(s, Poll(v)).events[e];
    OutWhole(ev);
    OutWhole(ev');
    AddLast(ev.waits, Info(v, s.waiters[v].scanned));
  }

  lemma PollControl(s: Sys, e: nat, v: nat)
    requires e < |s.events| && v < |s.waiters| && Local(s, e, v)
    requires Enabled(s, Poll(v))
    requires s.waiters[v].events[s.waiters[v].scanned] == e
    ensures ControlOk(Apply(s, Poll(v)), v)
  {
  }

  lemma PollRecord(s: Sys, e: nat, v: nat)
    requires e < |s.events| && v < |s.waiters| && Local(s, e, v)
    requires Enabled(s, Poll(v))
    requires s.waiters[v].events[s.waiters[v].scanned] == e
    ensures RecordOk(Apply(s, Poll(v)), v)
  {
    hide ControlOk, SlotOk, Copies, Naming, Registered, Tally, Out;
    var ev, ev' := s.events[e], Apply(s, Poll(v)).events[e];
    OutWhole(ev);
    OutWhole(ev');
    AddLast(ev.waits, Info(v, s.waiters[v].scanned));
    RegisteredUpdate(s.events, e, Apply(s, Poll(v)).events[e], v);
  }

  lemma PollTakeSlot(s: Sys, e: nat, v: nat, i: nat)
    requires e < |s.events| && v < |s.waiters| && Local(s, e, v)
    requires Enabled(s, Poll(v))
    requires s.waiters[v].events[s.waiters[v].scanned] == e && s.events[e].state
    requires i < |s.waiters[v].events|
    ensures SlotOk(Apply(s, Poll(v)), v, i)
  {
    hide Out;
    assert SlotOk(s, v, i);
    var ev, ev' := s.events[e], Apply(s, Poll(v)).events[e];
    OutWhole(ev);
    OutWhole(ev');
  }

  lemma PollRegisterSlot(s: Sys, e: nat, v: nat, i: nat)
    requires e < |s.events| && v < |s.waiters| && Local(s, e, v)
    requires Enabled(s, Poll(v))
    requires s.waiters[v].events[s.waiters[v].scanned] == e && !s.events[e].state
    requires i < |s.waiters[v].events|
    ensures SlotOk(Apply(s, Poll(v)), v, i)
  {
    hide Out;
    assert SlotOk(s, v, i);
    var ev, ev' := s.events[e], Apply(s, Poll(v)).events[e];
    OutWhole(ev);
    OutWhole(ev');
    CopiesAppend(ev.waits, [Info(v, s.waiters[v].scanned)], Info(v, i));
  }

  lemma ServeEvent(s: Sys, e: nat, v: nat)
    requires e < |s.events| && v < |s.waiters| && Local(s, e, v)
    requires Enabled(s, ServeEntry(e))
    requires s.events[e].waits[s.events[e].given].waiter == v && EntryOk(s, e, s.events[e].waits[s.events[e].given])
    ensures EventLocal(s, e, Apply(s, ServeEntry(e)).events[e], v, Apply(s, ServeEntry(e)))
  {
    hide Naming, Copies, Registered, Out;
    var ev, ev' := s.events[e], Apply(s, ServeEntry(e)).events[e];
    GivenOne(ev, ev');
    RemoveFirst(Out(ev));
    forall k | ev'.given <= k < |ev'.waits| ensures ev'.waits[k] in Out(ev) {
      StillOut(ev, k);
    }
  }

  /** Giving up the first registered entry. */
  lemma GivenOne(ev: Event, ev': Event)
    requires ev'.waits == ev.waits && ev.given < |ev.waits| && ev'.given == ev.given + 1
    ensures Out(ev) != [] && Out(ev)[0] == ev.waits[ev.given] && Out(ev') == Out(ev)[1..]
  {
  }

  lemma StillOut(ev: Event, k: nat)
    requires ev.given <= k < |ev.waits|
    ensures ev.waits[k] in Out(ev)
  {
    assert Out(ev)[k - ev.given] == ev.waits[k];
  }

  lemma ServeControl(s: Sys, e: nat, v: nat)
    requires e < |s.events| && v < |s.waiters| && Local(s, e, v)
    requires Enabled(s, ServeEntry(e))
    requires s.events[e].waits[s.events[e].given].waiter == v && EntryOk(s, e, s.events[e].waits[s.events[e].given])
    ensures ControlOk(Apply(s, ServeEntry(e)), v)
  {
  }

  lemma ServeRecord(s: Sys, e: nat, v: nat)
    requires e < |s.events| && v < |s.waiters| && Local(s, e, v)
    requires Enabled(s, ServeEntry(e))
    requires s.events[e].waits[s.events[e].given].waiter == v && EntryOk(s, e, s.events[e].waits[s.events[e].given])
    ensures RecordOk(Apply(s, ServeEntry(e)), v)
  {
    hide SlotOk, Copies, Naming, Registered, Tally, Out;
    var ev, ev' := s.events[e], Apply(s, ServeEntry(e)).events[e];
    GivenOne(ev, ev');
    RemoveFirst(Out(ev));
    RegisteredUpdate(s.events, e, Apply(s, ServeEntry(e)).events[e], v);
  }

  lemma ServeSlot(s: Sys, e: nat, v: nat, i: nat)
    requires e < |s.events| && v < |s.waiters| && Local(s, e, v)
    requires Enabled(s, ServeEntry(e))
    requires s.events[e].waits[s.events[e].given].waiter == v && EntryOk(s, e, s.events[e].waits[s.events[e].given])
    requires i < |s.waiters[v].events|
    ensures SlotOk(Apply(s, ServeEntry(e)), v, i)
  {
    hide Naming, Registered, InUse, Copies, Out;
    assert SlotOk(s, v, i);
    var ev, ev' := s.events[e], Apply(s, ServeEntry(e)).events[e];
    GivenOne(ev, ev');
    RemoveFirst(Out(ev));
  }

  lemma StepLockScanned(s: Sys, v: nat)
    requires Core(s) && Enabled(s, LockScanned(v))
    ensures Core(Apply(s, LockScanned(v)))
  {
    var s' := Apply(s, LockScanned(v));
    var e := s.waiters[v].events[s.waiters[v].scanned];
    LookAt(s, v);
    assert EventOk(s, e);
    LockScannedEvent(s, e, v);
    LockScannedControl(s, e, v);
    LockScannedRecord(s, e, v);
    forall i | 0 <= i < |s.waiters[v].events| ensures SlotOk(s', v, i) {
      LockScannedSlot(s, e, v, i);
    }
    assert s' == Patch(s, e, s'.events[e], v, s'.waiters[v], s'.hist);
    PatchKeeps(s, e, s'.events[e], v, s'.waiters[v], s'.hist);
  }

  lemma StepLockWaiter(s: Sys, e: nat)
    requires Core(s) && Enabled(s, LockWaiter(e))
    ensures Core(Apply(s, LockWaiter(e)))
  {
    var s' := Apply(s, LockWaiter(e));
    var v := s.events[e].waits[s.events[e].given].waiter;
    LookAt(s, v);
    assert EventOk(s, e);
    LockWaiterEvent(s, e, v);
    LockWaiterControl(s, e, v);
    LockWaiterRecord(s, e, v);
    forall i | 0 <= i < |s.waiters[v].events| ensures SlotOk(s', v, i) {
      LockWaiterSlot(s, e, v, i);
    }
    assert s' == Patch(s, e, s'.events[e], v, s'.waiters[v], s'.hist);
    PatchKeeps(s, e, s'.events[e], v, s'.waiters[v], s'.hist);
  }

  lemma StepSweepDrop(s: Sys, e: nat)
    requires Core(s) && Enabled(s, SweepEntry(e, false))
    requires !s.waiters[s.events[e].waits[SweepPosition(s.events[e])].waiter].stillWaiting
    ensures Core(Apply(s, SweepEntry(e, false)))
  {
    var s' := Apply(s, SweepEntry(e, false));
    var v := s.events[e].waits[SweepPosition(s.events[e])].waiter;
    LookAt(s, v);
    assert EventOk(s, e);
    SweepDropEvent(s, e, v);
    SweepDropControl(s, e, v);
    SweepDropRecord(s, e, v);
    forall i | 0 <= i < |s.waiters[v].events| ensures SlotOk(s', v, i) {
      SweepDropSlot(s, e, v, i);
    }
    assert s' == Patch(s, e, s'.events[e], v, s'.waiters[v], s'.hist);
    PatchKeeps(s, e, s'.events[e], v, s'.waiters[v], s'.hist);
  }

  lemma StepPoll(s: Sys, v: nat)
    requires Core(s) && Enabled(s, Poll(v))
    ensures Core(Apply(s, Poll(v)))
  {
    var s' := Apply(s, Poll(v));
    var e := s.waiters[v].events[s.waiters[v].scanned];
    LookAt(s, v);
    assert EventOk(s, e);
    PollEvent(s, e, v);
    PollControl(s, e, v);
    PollRecord(s, e, v);
    forall i | 0 <= i < |s.waiters[v].events| ensures SlotOk(s', v, i) {
      if s.events[e].state {
        PollTakeSlot(s, e, v, i);
      } else {
        PollRegisterSlot(s, e, v, i);
      }
    }
    assert s' == Patch(s, e, s'.events[e], v, s'.waiters[v], s'.hist);
    PatchKeeps(s, e, s'.events[e], v, s'.waiters[v], s'.hist);
  }

  lemma StepServe(s: Sys, e: nat)
    requires Core(s) && Enabled(s, ServeEntry(e))
    ensures Core(Apply(s, ServeEntry(e)))
  {
    hide RecordOk, SlotOk, Copies, Naming, Registered;
    var s' := Apply(s, ServeEntry(e));
    var v := s.events[e].waits[s.events[e].given].waiter;
    assert EntryOk(s, e, s.events[e].waits[s.events[e].given]);
    LookAt(s, v);
    assert EventOk(s, e);
    ServeEvent(s, e, v);
    ServeControl(s, e, v);
    ServeRecord(s, e, v);
    forall i | 0 <= i < |s.waiters[v].events| ensures SlotOk(s', v, i) {
      ServeSlot(s, e, v, i);
    }
    assert s' == Patch(s, e, s'.events[e], v, s'.waiters[v], s'.hist);
    PatchKeeps(s, e, s'.events[e], v, s'.waiters[v], s'.hist);
  }

  lemma StepCallSlots(s: Sys, a: Action, i: nat)
    requires Enabled(s, a) && CallStep(a) && CallOk(s, a.w) && i < |s.waiters[a.w].events|
    ensures SlotOk(Apply(s, a), a.w, i)
  {
    match a
    case EndScan(v) => EndScanSlot(s, v, i);
    case CheckDone(v) => CheckDoneSlot(s, v, i);
    case Wake(v, timedOut) => WakeSlot(s, v, timedOut, i);
    case FinishWait(v) => FinishWaitSlot(s, v, i);
  }

  lemma StepCallRecord(s: Sys, a: Action)
    requires Enabled(s, a) && CallStep(a) && CallOk(s, a.w)
    ensures ControlOk(Apply(s, a), a.w) && RecordOk(Apply(s, a), a.w)
  {
    match a
    case EndScan(v) => EndScanControl(s, v); EndScanRecord(s, v);
    case CheckDone(v) => CheckDoneControl(s, v); CheckDoneRecord(s, v);
    case Wake(v, timedOut) => WakeControl(s, v, timedOut); WakeRecord(s, v, timedOut);
    case FinishWait(v) => FinishWaitControl(s, v); FinishWaitRecord(s, v);
  }

  lemma StepCallShape(s: Sys, a: Action)
    requires Enabled(s, a) && CallStep(a) && ControlOk(s, a.w)
    ensures
      var was, wt := s.waiters[a.w], Apply(s, a).waiters[a.w];
      && wt.events == was.events && wt.scanned == was.scanned && Active(was) && !was.phase.Sweep?
      && !was.lock.BySetter?
  {
  }

  lemma StepCallLocal(s: Sys, a: Action)
    requires Enabled(s, a) && CallStep(a) && CallOk(s, a.w)
    ensures a.w < |Apply(s, a).waiters| && CallLocal(s, |s.events|, a.w, Apply(s, a).waiters[a.w], Apply(s, a))
  {
    hide ControlOk, RecordOk, SlotOk;
    StepCallRecord(s, a);
    StepCallShape(s, a);
    forall i | 0 <= i < |s.waiters[a.w].events| ensures SlotOk(Apply(s, a), a.w, i) {
      StepCallSlots(s, a, i);
    }
  }

  lemma StepCall(s: Sys, a: Action)
    requires Core(s) && Enabled(s, a) && CallStep(a)
    ensures Core(Apply(s, a))
  {
    var s' := Apply(s, a);
    LookAt(s, a.w);
    StepCallLocal(s, a);
    assert s' == Patch(s, |s.events|, NOTHING, a.w, s'.waiters[a.w], s'.hist);
    PatchKeeps(s, |s.events|, NOTHING, a.w, s'.waiters[a.w], s'.hist);
  }

  lemma StepSweepKeep(s: Sys, e: nat, busy: bool)
    requires Core(s) && Enabled(s, SweepEntry(e, busy))
    requires busy || s.waiters[s.events[e].waits[SweepPosition(s.events[e])].waiter].stillWaiting
    ensures Core(Apply(s, SweepEntry(e, busy)))
  {
    var s' := Apply(s, SweepEntry(e, busy));
    assert EventOk(s, e);
    assert Out(s'.events[e]) == Out(s.events[e]);
    assert s' == Patch(s, e, s'.events[e], |s.waiters|, NOBODY, s'.hist);
    PatchKeeps(s, e, s'.events[e], |s.waiters|, NOBODY, s'.hist);
  }

  // ---------- Actions that create something ----------

  /** No entry names a waiter that does not exist yet. */
  lemma {:induction false} NoneNamed(q: seq<Info>, w: nat)
    requires forall k | 0 <= k < |q| :: q[k].waiter != w
    ensures Naming(q, w) == 0
    ensures forall i: nat :: Copies(q, Info(w, i)) == 0
  {
    if q != [] {
      NoneNamed(q[..|q|-1], w);
    }
  }

  lemma {:induction false} NoneRegistered(events: seq<Event>, w: nat)
    requires forall e, k | 0 <= e < |events| && events[e].given <= k < |events[e].waits| ::
               events[e].waits[k].waiter != w
    ensures Registered(events, w) == 0
    ensures forall e, i: nat | 0 <= e < |events| :: Copies(Out(events[e]), Info(w, i)) == 0
  {
    hide Naming, Copies;
    if events != [] {
      NoneRegistered(events[..|events|-1], w);
      NoneNamed(Out(events[|events|-1]), w);
    }
  }

  lemma StartWaitRecords(s: Sys, evs: seq<nat>, all: bool, timeout: Timeout)
    requires Core(s) && Enabled(s, StartWait(evs, all, timeout))
    ensures RecordsOk(Apply(s, StartWait(evs, all, timeout)))
    ensures forall e, i: nat | 0 <= e < |s.events| :: Copies(Out(s.events[e]), Info(|s.waiters|, i)) == 0
  {
    forall e, k | 0 <= e < |s.events| && s.events[e].given <= k < |s.events[e].waits|
      ensures s.events[e].waits[k].waiter != |s.waiters|
    {
      assert EntryOk(s, e, s.events[e].waits[k]);
    }
    NoneRegistered(s.events, |s.waiters|);
    var s' := Apply(s, StartWait(evs, all, timeout));
    forall w | 0 <= w < |s'.waiters| ensures RecordOk(s', w) {
      StartWaitRecord(s, evs, all, timeout, w);
    }
  }

  lemma StartWaitRecord(s: Sys, evs: seq<nat>, all: bool, timeout: Timeout, w: nat)
    requires Core(s) && Enabled(s, StartWait(evs, all, timeout)) && Registered(s.events, |s.waiters|) == 0
    requires w <= |s.waiters|
    ensures RecordOk(Apply(s, StartWait(evs, all, timeout)), w)
  {
    hide Registered, EventsOk, EntriesOk, ControlsOk, SlotsOk;
    if w < |s.waiters| {
      assert RecordOk(s, w);
    }
  }

  lemma StartWaitSlots(s: Sys, evs: seq<nat>, all: bool, timeout: Timeout)
    requires Core(s) && HistoryOk(s) && Enabled(s, StartWait(evs, all, timeout))
    requires ControlsOk(Apply(s, StartWait(evs, all, timeout)))
    ensures SlotsOk(Apply(s, StartWait(evs, all, timeout)))
  {
    var s' := Apply(s, StartWait(evs, all, timeout));
    StartWaitRecords(s, evs, all, timeout);
    forall w, i | 0 <= w < |s'.waiters| && 0 <= i < |s'.waiters[w].events|
      ensures ControlOk(s', w) && SlotOk(s', w, i)
    {
      if w < |s.waiters| {
        assert ControlOk(s, w) && SlotOk(s, w, i);
      } else {
        assert Tally(s.hist, Got(evs[i], w, i)) == 0;
      }
    }
  }

  lemma StartWaitEvents(s: Sys, evs: seq<nat>, all: bool, timeout: Timeout)
    requires Core(s) && Enabled(s, StartWait(evs, all, timeout))
    ensures EventsOk(Apply(s, StartWait(evs, all, timeout))) && EntriesOk(Apply(s, StartWait(evs, all, timeout)))
  {
    var s' := Apply(s, StartWait(evs, all, timeout));
    forall e, k | 0 <= e < |s.events| && s.events[e].given <= k < |s.events[e].waits|
      ensures EntryOk(s', e, s'.events[e].waits[k])
    {
      assert EntryOk(s, e, s.events[e].waits[k]);
    }
    forall e | 0 <= e < |s'.events| ensures EventOk(s', e) {
      assert EventOk(s, e);
    }
  }

  lemma StartWaitControls(s: Sys, evs: seq<nat>, all: bool, timeout: Timeout)
    requires Core(s) && Enabled(s, StartWait(evs, all, timeout))
    ensures ControlsOk(Apply(s, StartWait(evs, all, timeout)))
  {
    var s' := Apply(s, StartWait(evs, all, timeout));
    forall w | 0 <= w < |s'.waiters| ensures ControlOk(s', w) {
      if w < |s.waiters| {
        assert ControlOk(s, w);
      } else {
        assert forall i | 0 <= i < |evs| :: evs[i] in evs;
      }
    }
  }

  lemma StepStartWait(s: Sys, evs: seq<nat>, all: bool, timeout: Timeout)
    requires Core(s) && HistoryOk(s) && Enabled(s, StartWait(evs, all, timeout))
    ensures Core(Apply(s, StartWait(evs, all, timeout)))
  {
    StartWaitEvents(s, evs, all, timeout);
    StartWaitControls(s, evs, all, timeout);
    StartWaitRecords(s, evs, all, timeout);
    StartWaitSlots(s, evs, all, timeout);
  }

  lemma CreateRecord(s: Sys, manualReset: bool, w: nat)
    requires w < |s.waiters| && ControlOk(s, w) && RecordOk(s, w)
    ensures var t := Apply(s, CreateEvent(manualReset)); ControlOk(t, w) && RecordOk(t, w)
  {
    hide InUse;
    assert Apply(s, CreateEvent(manualReset)).events[..|s.events|] == s.events;
  }

  lemma CreateSlot(s: Sys, manualReset: bool, w: nat, i: nat)
    requires w < |s.waiters| && i < |s.waiters[w].events| && ControlOk(s, w) && SlotOk(s, w, i)
    ensures var t := Apply(s, CreateEvent(manualReset)); ControlOk(t, w) && SlotOk(t, w, i)
  {
    hide Copies, Tally, Registered, InUse;
  }

  lemma StepCreate(s: Sys, manualReset: bool)
    requires Core(s)
    ensures Core(Apply(s, CreateEvent(manualReset)))
  {
    hide RecordOk, SlotOk, InUse;
    var s' := Apply(s, CreateEvent(manualReset));
    forall e | 0 <= e < |s'.events| ensures EventOk(s', e) {
      assert e < |s.events| ==> EventOk(s, e);
    }
    forall e, k | 0 <= e < |s'.events| && s'.events[e].given <= k < |s'.events[e].waits|
      ensures EntryOk(s', e, s'.events[e].waits[k])
    {
      assert EntryOk(s, e, s.events[e].waits[k]);
    }
    forall w | 0 <= w < |s'.waiters| ensures ControlOk(s', w) && RecordOk(s', w) {
      assert ControlOk(s, w) && RecordOk(s, w);
      CreateRecord(s, manualReset, w);
    }
    forall w, i | 0 <= w < |s'.waiters| && 0 <= i < |s'.waiters[w].events|
      ensures ControlOk(s', w) && SlotOk(s', w, i)
    {
      assert ControlOk(s, w) && SlotOk(s, w, i);
      CreateSlot(s, manualReset, w, i);
    }
  }

  lemma StepCore(s: Sys, a: Action)
    requires Core(s) && HistoryOk(s) && Enabled(s, a)
    ensures Core(Apply(s, a))
  {
    match a
    case CreateEvent(manualReset) => StepCreate(s, manualReset);
    case StartWait(events, all, timeout) => StepStartWait(s, events, all, timeout);
    case LockScanned(w) => StepLockScanned(s, w);
    case SweepEntry(e, busy) =>
      if busy || s.waiters[s.events[e].waits[SweepPosition(s.events[e])].waiter].stillWaiting {
        StepSweepKeep(s, e, busy);
      } else {
        StepSweepDrop(s, e);
      }
    case Poll(w) => StepPoll(s, w);
    case LockWaiter(e) => StepLockWaiter(s, e);
    case ServeEntry(e) => StepServe(s, e);
    case _ =>
      if CallStep(a) {
        StepCall(s, a);
      } else {
        StepEvent(s, a);
      }
  }

  // ---------- The history ----------

  /** A waiter that a registered entry names, or whose call is running, is not deleted. */
  lemma NamedIsLive(s: Sys, e: nat, x: Info)
    requires Core(s) && e < |s.events| && x in Out(s.events[e])
    ensures x.waiter < |s.waiters| && !s.waiters[x.waiter].freed
    ensures EntryOk(s, e, x)
  {
    var j :| 0 <= j < |Out(s.events[e])| && Out(s.events[e])[j] == x;
    assert EntryOk(s, e, s.events[e].waits[s.events[e].given + j]);
    CopiesNaming(Out(s.events[e]), x);
    RegisteredAtLeast(s.events, e, x.waiter);
    assert RecordOk(s, x.waiter);
  }

  /** Actions that note no delivery and delete no waiter. */
  predicate Quiet(a: Action) {
    !a.Poll? && !a.ServeEntry? && !a.SweepEntry? && !a.FinishWait?
  }

  lemma {:induction false} QuietTally(s: Sys, a: Action, x: Entry)
    requires Enabled(s, a) && Quiet(a) && (x.Got? || x.Freed?)
    ensures Tally(Apply(s, a).hist, x) == Tally(s.hist, x)
  {
  }

  lemma QuietWaiters(s: Sys, a: Action)
    requires Enabled(s, a) && Quiet(a)
    ensures
      var s' := Apply(s, a);
      && |s'.waiters| >= |s.waiters|
      && (forall w | 0 <= w < |s'.waiters| ::
            if w < |s.waiters| then
              s'.waiters[w].events == s.waiters[w].events && s'.waiters[w].freed == s.waiters[w].freed
            else !s'.waiters[w].freed)
  {
  }

  lemma QuietHistory(s: Sys, a: Action)
    requires HistoryOk(s) && Enabled(s, a) && Quiet(a)
    ensures HistoryOk(Apply(s, a))
  {
    hide Apply, Tally, Enabled, Quiet;
    var s' := Apply(s, a);
    QuietWaiters(s, a);
    forall e: nat, w: nat, i: nat ensures Tally(s'.hist, Got(e, w, i)) == Tally(s.hist, Got(e, w, i)) {
      QuietTally(s, a, Got(e, w, i));
    }
    forall w: nat ensures Tally(s'.hist, Freed(w)) == Tally(s.hist, Freed(w)) {
      QuietTally(s, a, Freed(w));
    }
  }

  lemma PollHistory(s: Sys, w: nat)
    requires HistoryOk(s) && Enabled(s, Poll(w))
    ensures HistoryOk(Apply(s, Poll(w)))
  {
    var s' := ApplyPoll(s, w);
    assert forall x: nat :: Tally(s'.hist, Freed(x)) == Tally(s.hist, Freed(x));
  }

  lemma FinishHistory(s: Sys, w: nat)
    requires Core(s) && HistoryOk(s) && Enabled(s, FinishWait(w))
    ensures HistoryOk(ApplyFinish(s, w))
  {
    assert RecordOk(s, w);
    ReleaseHistory(s, w, ApplyFinish(s, w));
  }

  lemma SweepHistory(s: Sys, e: nat, busy: bool)
    requires Core(s) && HistoryOk(s) && Enabled(s, SweepEntry(e, busy))
    ensures HistoryOk(ApplySweep(s, e, busy))
  {
    var s' := ApplySweep(s, e, busy);
    var x := s.events[e].waits[SweepPosition(s.events[e])];
    if s'.waiters != s.waiters {
      assert EventOk(s, e) && x == Out(s.events[e])[SweepPosition(s.events[e])];
      NamedIsLive(s, e, x);
      ReleaseHistory(s, x.waiter, s');
    }
  }

  /** Dropping a reference of a live waiter notes its deletion exactly if it was the last one. */
  lemma ReleaseHistory(s: Sys, v: nat, s': Sys)
    requires HistoryOk(s) && v < |s.waiters| && !s.waiters[v].freed
    requires |s'.waiters| == |s.waiters|
    requires forall w | 0 <= w < |s.waiters| ::
               && s'.waiters[w].events == s.waiters[w].events
               && (w != v ==> s'.waiters[w].freed == s.waiters[w].freed)
    requires s'.hist == NoteIf(s.hist, s'.waiters[v].freed, Freed(v))
    ensures HistoryOk(s')
  {
    assert forall e: nat, x: nat, i: nat :: Tally(s'.hist, Got(e, x, i)) == Tally(s.hist, Got(e, x, i));
  }

  /** Noting a delivery to a listed position, with no waiter deleted. */
  lemma DeliverHistory(s: Sys, e: nat, x: Info, h: History, s': Sys)
    requires HistoryOk(s) && EntryOk(s, e, x)
    requires |s'.waiters| == |s.waiters|
    requires forall w | 0 <= w < |s.waiters| ::
               s'.waiters[w].events == s.waiters[w].events && s'.waiters[w].freed == s.waiters[w].freed
    requires h == s.hist || h == Then(s.hist, Lost(e))
    requires s'.hist == Then(h, Got(e, x.waiter, x.index))
    ensures HistoryOk(s')
  {
    assert forall w: nat :: Tally(s'.hist, Freed(w)) == Tally(s.hist, Freed(w));
    assert forall f: nat, w: nat, i: nat | Got(f, w, i) != Got(e, x.waiter, x.index) ::
        Tally(s'.hist, Got(f, w, i)) == Tally(s.hist, Got(f, w, i));
  }

  lemma ServeHistory(s: Sys, e: nat)
    requires Core(s) && HistoryOk(s) && Enabled(s, ServeEntry(e))
    ensures HistoryOk(ApplyServe(s, e))
  {
    var s' := ApplyServe(s, e);
    var x := s.events[e].waits[s.events[e].given];
    assert EventOk(s, e) && x == Out(s.events[e])[0];
    NamedIsLive(s, e, x);
    assert RecordOk(s, x.waiter);
    if s.waiters[x.waiter].stillWaiting {
      DeliverHistory(s, e, x, s'.hist.past, s');
    } else {
      ReleaseHistory(s, x.waiter, s');
    }
  }

  lemma StepHistory(s: Sys, a: Action)
    requires Core(s) && HistoryOk(s) && Enabled(s, a)
    ensures HistoryOk(Apply(s, a))
  {
    match a
    case Poll(w) => PollHistory(s, w);
    case FinishWait(w) => FinishHistory(s, w);
    case SweepEntry(e, busy) => SweepHistory(s, e, busy);
    case ServeEntry(e) => ServeHistory(s, e);
    case _ => QuietHistory(s, a);
  }

  // ---------- The ledger ----------

  /** The entries that the ledger of one event counts. */
  ghost predicate SameLedger(h: History, h': History, e: nat) {
    && Tally(h', Set(e)) == Tally(h, Set(e)) && Takes(h', e) == Takes(h, e)
    && Tally(h', Merged(e)) == Tally(h, Merged(e)) && Tally(h', Discarded(e)) == Tally(h, Discarded(e))
    && Tally(h', Lost(e)) == Tally(h, Lost(e))
  }

  lemma OtherLedgers(s: Sys, a: Action, e: nat)
    requires Core(s) && Enabled(s, a)
    requires EventStep(a) || a.ServeEntry? ==> a.e != e
    requires a.Poll? ==> !(a.w < |s.waiters| && s.waiters[a.w].events[s.waiters[a.w].scanned] == e)
    ensures SameLedger(s.hist, Apply(s, a).hist, e)
  {
    if a.ServeEntry? {
      ServeElsewhere(s, a.e, e);
    }
  }

  lemma ServeElsewhere(s: Sys, f: nat, e: nat)
    requires Enabled(s, ServeEntry(f)) && e != f
    ensures SameLedger(s.hist, Apply(s, ServeEntry(f)).hist, e)
  {
  }

  lemma EventLedger(s: Sys, a: Action)
    requires EventStep(a) && Enabled(s, a) && EventOk(s, a.e) && LedgerOk(s, a.e)
    ensures LedgerOk(Apply(s, a), a.e)
  {
  }

  lemma PollLedger(s: Sys, w: nat, e: nat)
    requires Enabled(s, Poll(w)) && e == s.waiters[w].events[s.waiters[w].scanned]
    requires EventOk(s, e) && LedgerOk(s, e)
    ensures LedgerOk(Apply(s, Poll(w)), e)
  {
  }

  lemma ServeLedger(s: Sys, e: nat)
    requires Enabled(s, ServeEntry(e)) && EventOk(s, e) && LedgerOk(s, e)
    ensures LedgerOk(Apply(s, ServeEntry(e)), e)
  {
  }

  lemma StepLedger(s: Sys, a: Action, e: nat)
    requires Core(s) && LedgersOk(s) && Enabled(s, a) && e < |s.events|
    ensures LedgerOk(Apply(s, a), e)
  {
    hide ControlsOk, RecordsOk, SlotsOk, EntriesOk;
    assert EventOk(s, e) && LedgerOk(s, e);
    if EventStep(a) && a.e == e {
      EventLedger(s, a);
    } else if a.ServeEntry? && a.e == e {
      ServeLedger(s, e);
    } else if a.Poll? && s.waiters[a.w].events[s.waiters[a.w].scanned] == e {
      PollLedger(s, a.w, e);
    } else {
      OtherLedgers(s, a, e);
    }
  }

  /** An event that did not exist before has no entries yet. */
  lemma NewLedger(s: Sys, a: Action, e: nat)
    requires Core(s) && LedgersOk(s) && Enabled(s, a) && e >= |s.events|
    ensures if e < |Apply(s, a).events| then LedgerOk(Apply(s, a), e) else EmptyLedger(Apply(s, a).hist, e)
  {
    OtherLedgers(s, a, e);
    assert EmptyLedger(s.hist, e);
  }

  lemma StepLedgers(s: Sys, a: Action)
    requires Core(s) && LedgersOk(s) && Enabled(s, a)
    ensures LedgersOk(Apply(s, a))
  {
    hide Core, Apply, SameLedger;
    var s' := Apply(s, a);
    EventsStay(s, a);
    forall e | 0 <= e < |s'.events| ensures LedgerOk(s', e) {
      if e < |s.events| {
        StepLedger(s, a, e);
      } else {
        NewLedger(s, a, e);
      }
    }
    forall e: nat | e >= |s'.events|
      ensures EmptyLedger(s'.hist, e)
    {
      NewLedger(s, a, e);
    }
  }

  lemma EventsStay(s: Sys, a: Action)
    requires Enabled(s, a)
    ensures |s.events| <= |Apply(s, a).events|
  {
  }

  // ---------- Whole runs ----------

  lemma InitInv()
    ensures Inv(Init())
  {
  }

  /** Every action keeps the invariant. */
  lemma StepInv(s: Sys, a: Action)
    requires Inv(s) && Enabled(s, a)
    ensures Inv(Apply(s, a))
  {
    StepCore(s, a);
    StepHistory(s, a);
    StepLedgers(s, a);
  }

  /** The invariant holds at the end of every run. */
  lemma {:induction false} RunInv(s: Sys, acts: seq<Action>, s': Sys)
    requires Inv(s) && Runs(s, acts, s')
    ensures Inv(s')
    decreases |acts|
  {
    if acts != [] {
      StepInv(s, acts[0]);
      RunInv(Apply(s, acts[0]), acts[1..], s');
    }
  }

  lemma {:induction false} RunsOneMore(s: Sys, acts: seq<Action>, m: Sys, a: Action)
    requires Runs(s, acts, m) && Enabled(m, a)
    ensures Runs(s, acts + [a], Apply(m, a))
    decreases |acts|
  {
    if acts == [] {
      assert Runs(Apply(m, a), [a][1..], Apply(m, a));
    } else {
      RunsOneMore(Apply(s, acts[0]), acts[1..], m, a);
      assert (acts + [a])[1..] == acts[1..] + [a];
    }
  }
}
