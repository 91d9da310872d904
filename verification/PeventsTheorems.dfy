/** What the event library promises, over every run from the initial state. */
module PeventsTheorems {
  import opened Pevents
  import opened PeventsInvariant
  import opened PeventsSteps

  lemma {:induction false} ReachableInv(acts: seq<Action>, s: Sys)
    requires Runs(Init(), acts, s)
    ensures Inv(s)
  {
    InitInv();
    RunInv(Init(), acts, s);
  }

  // ---------- Reference counts ----------

  /** A reference count is one for the running call plus one for each registered entry that names
      the waiter, over all events, those included that were deleted with entries left behind; the
      record is deleted exactly when that is zero, and once. */
  lemma {:induction false} RefCountsExact(acts: seq<Action>, s: Sys, w: nat)
    requires Runs(Init(), acts, s) && w < |s.waiters|
    ensures
      var wt := s.waiters[w];
      && wt.refCount == (if Active(wt) then 1 else 0) + Registered(s.events, w)
      && (wt.freed <==> !Active(wt) && Registered(s.events, w) == 0)
      && Tally(s.hist, Freed(w)) == if wt.freed then 1 else 0
  {
    ReachableInv(acts, s);
    assert RecordOk(s, w);
  }

  /** No entry whose reference is still held names a deleted waiter. */
  lemma {:induction false} EntriesNameLiveWaiters(acts: seq<Action>, s: Sys, e: nat, k: nat)
    requires Runs(Init(), acts, s) && e < |s.events|
    requires s.events[e].given <= k < |s.events[e].waits|
    ensures
      var x := s.events[e].waits[k];
      && x.waiter < |s.waiters| && !s.waiters[x.waiter].freed
      && x.index < |s.waiters[x.waiter].events| && s.waiters[x.waiter].events[x.index] == e
  {
    ReachableInv(acts, s);
    assert s.events[e].waits[k] == Out(s.events[e])[k - s.events[e].given];
    NamedIsLive(s, e, s.events[e].waits[k]);
  }

  /** The waiter whose mutex an action locks or holds. */
  predicate Touches(s: Sys, a: Action, v: nat) {
    match a
    case SweepEntry(e, _) =>
      && e < |s.events| && (s.events[e].holder.Scanner? || s.events[e].holder.Destroyer?)
      && SweepPosition(s.events[e]) < |s.events[e].waits|
      && s.events[e].waits[SweepPosition(s.events[e])].waiter == v
    case LockWaiter(e) => NextOf(s, e, v)
    case ServeEntry(e) => NextOf(s, e, v)
    case _ => (CallStep(a) || a.LockScanned? || a.Poll?) && a.w == v
  }

  predicate NextOf(s: Sys, e: nat, v: nat) {
    && e < |s.events| && s.events[e].given < |s.events[e].waits|
    && s.events[e].waits[s.events[e].given].waiter == v
  }

  lemma ListedIsLive(s: Sys, e: nat, k: nat)
    requires Inv(s) && e < |s.events| && s.events[e].given <= k < |s.events[e].waits|
    ensures
      var v := s.events[e].waits[k].waiter;
      v < |s.waiters| && !s.waiters[v].freed && s.waiters[v].refCount >= 1
  {
    var x := s.events[e].waits[k];
    assert x == Out(s.events[e])[k - s.events[e].given];
    NamedIsLive(s, e, x);
    assert RecordOk(s, x.waiter);
  }

  lemma RunningIsLive(s: Sys, w: nat)
    requires Inv(s) && w < |s.waiters| && Active(s.waiters[w])
    ensures !s.waiters[w].freed && s.waiters[w].refCount >= 1
  {
    assert RecordOk(s, w);
  }

  /** Every waiter a call locks, tests or updates under its mutex exists and is not deleted; when a
      reference is dropped there is one to drop. */
  lemma {:induction false} AccessesAreLive(acts: seq<Action>, s: Sys, a: Action, v: nat)
    requires Runs(Init(), acts, s) && Enabled(s, a) && Touches(s, a, v)
    ensures v < |s.waiters| && !s.waiters[v].freed && s.waiters[v].refCount >= 1
  {
    hide Inv;
    ReachableInv(acts, s);
    if a.SweepEntry? {
      NothingInTransit(s, a.e);
      ListedIsLive(s, a.e, SweepPosition(s.events[a.e]));
    } else if a.LockWaiter? || a.ServeEntry? {
      ListedIsLive(s, a.e, s.events[a.e].given);
    } else {
      RunningIsLive(s, v);
    }
  }

  /** The clean-up never runs while an entry is in transit. */
  lemma NothingInTransit(s: Sys, e: nat)
    requires Inv(s) && e < |s.events| && (s.events[e].holder.Scanner? || s.events[e].holder.Destroyer?)
    ensures s.events[e].given == 0
  {
    assert EventOk(s, e);
  }

  // ---------- Signals ----------

  /** The signals sent to an auto-reset event are those consumed by single and multi-waits, those
      that met a state already true, those thrown away by `ResetEvent`, and the one it holds. */
  lemma {:induction false} SignalsConserved(acts: seq<Action>, s: Sys, e: nat)
    requires Runs(Init(), acts, s) && e < |s.events| && s.events[e].autoReset
    requires !s.events[e].holder.Setter?
    ensures Tally(s.hist, Set(e)) ==
              Takes(s.hist, e) + Tally(s.hist, Merged(e)) + Tally(s.hist, Discarded(e))
              + if s.events[e].state then 1 else 0
  {
    ReachableInv(acts, s);
    assert LedgerOk(s, e);
  }

  /** Clearing the state on a hand-over (line 409) never destroys an earlier, latched signal. */
  lemma {:induction false} HandOverKeepsLatchedSignal(acts: seq<Action>, s: Sys, e: nat)
    requires Runs(Init(), acts, s)
    ensures Tally(s.hist, Lost(e)) == 0
    ensures Enabled(s, ServeEntry(e)) ==> !s.events[e].holder.latched
  {
    ReachableInv(acts, s);
    if e < |s.events| {
      assert LedgerOk(s, e) && EventOk(s, e);
    } else {
      assert EmptyLedger(s.hist, e);
    }
  }

  /** While nobody owns the mutex of a signalled event, nobody is registered there. */
  lemma {:induction false} SignalledMeansUnregistered(acts: seq<Action>, s: Sys, e: nat)
    requires Runs(Init(), acts, s) && e < |s.events|
    requires s.events[e].holder.Free? && s.events[e].state
    ensures s.events[e].waits == []
  {
    ReachableInv(acts, s);
    assert EventOk(s, e);
  }

  /** Has the call still to receive a signal for this position? */
  predicate Lacks(s: Sys, w: nat, i: nat)
    requires w < |s.waiters| && i < |s.waiters[w].events|
  {
    var wt := s.waiters[w];
    && Active(wt) && i < wt.scanned
    && Tally(s.hist, Got(wt.events[i], w, i)) == 0
    && (wt.waitAll || wt.status == -1)
  }

  /** No lost wake-up: a call that still lacks a scanned position is registered at that event, so
      the event, whenever its mutex is free, is not signalled. */
  lemma {:induction false} NoLostWakeup(acts: seq<Action>, s: Sys, w: nat, i: nat)
    requires Runs(Init(), acts, s) && w < |s.waiters| && i < |s.waiters[w].events|
    requires Lacks(s, w, i)
    ensures
      var e := s.waiters[w].events[i];
      && e < |s.events| && Info(w, i) in s.events[e].waits
      && (s.events[e].holder.Free? ==> !s.events[e].state)
  {
    ReachableInv(acts, s);
    assert ControlOk(s, w) && SlotOk(s, w, i);
    var e := s.waiters[w].events[i];
    CopiesNaming(Out(s.events[e]), Info(w, i));
    assert EventOk(s, e);
  }

  // ---------- Wait-all ----------

  /** `EventsLeft` of a running wait-all counts its registrations and its unscanned positions, so it
      never goes below zero. */
  lemma {:induction false} WaitAllAccounting(acts: seq<Action>, s: Sys, w: nat)
    requires Runs(Init(), acts, s) && w < |s.waiters|
    requires s.waiters[w].waitAll && Active(s.waiters[w])
    ensures
      var wt := s.waiters[w];
      && wt.status == (wt.refCount - 1) + (|wt.events| - wt.scanned)
      && wt.status >= 0
  {
    ReachableInv(acts, s);
    assert ControlOk(s, w) && RecordOk(s, w);
  }

  /** A wait-all that returns 0 has received exactly one signal for every listed position, and no
      running wait-all ever receives two for one position. */
  lemma {:induction false} WaitAllGetsEverySignal(acts: seq<Action>, s: Sys, w: nat, i: nat)
    requires Runs(Init(), acts, s) && w < |s.waiters| && i < |s.waiters[w].events|
    requires s.waiters[w].waitAll
    ensures
      var wt := s.waiters[w];
      && Tally(s.hist, Got(wt.events[i], w, i)) <= 1
      && (wt.phase.Done? && wt.phase.returned.Success? ==> Tally(s.hist, Got(wt.events[i], w, i)) == 1)
  {
    ReachableInv(acts, s);
    assert ControlOk(s, w) && SlotOk(s, w, i);
  }

  /** A wait-all that may not wait returns WAIT_TIMEOUT even if it took every event (line 291). */
  lemma {:induction false} ZeroTimeoutWaitAllTimesOut(acts: seq<Action>, s: Sys, w: nat)
    requires Runs(Init(), acts, s) && w < |s.waiters|
    requires s.waiters[w].waitAll && s.waiters[w].timeout.Zero? && s.waiters[w].phase.Done?
    ensures s.waiters[w].phase.returned == TimedOut
  {
    ReachableInv(acts, s);
    assert ControlOk(s, w);
  }

  // ---------- Wait-any ----------

  /** A wait-any returns index i != -1 if and only if it received exactly one signal, from
      `events[i]`; otherwise it received none. */
  lemma {:induction false} WaitAnyTakesExactlyOne(acts: seq<Action>, s: Sys, w: nat)
    requires Runs(Init(), acts, s) && w < |s.waiters|
    requires !s.waiters[w].waitAll && s.waiters[w].phase.Done?
    ensures
      var wt := s.waiters[w];
      var x := wt.phase.waitIndex;
      && -1 <= x < |wt.events|
      && (forall e: nat, i: nat :: Tally(s.hist, Got(e, w, i)) ==
            if x == i && e == wt.events[i] then 1 else 0)
      && (wt.phase.returned.Success? ==> x != -1)
  {
    ReachableInv(acts, s);
    assert ControlOk(s, w) && RecordOk(s, w);
    var wt := s.waiters[w];
    forall e: nat, i: nat
      ensures Tally(s.hist, Got(e, w, i)) == if wt.phase.waitIndex == i && e == wt.events[i] then 1 else 0
    {
      if i < |wt.events| && wt.events[i] == e {
        assert SlotOk(s, w, i);
      } else {
        assert Tally(s.hist, Got(e, w, i)) == 0;
      }
    }
  }
}
