/** What WAIT_TIMEOUT does not say, and exactly when: a wait-any may have taken a signal, a wait-all all
    of them. Both depend only on the arguments of the call. */
module PeventsTimeouts {
  import opened Pevents
  import opened PeventsInvariant
  import opened PeventsSteps
  import opened PeventsTheorems
  import opened PeventsRuns

  predicate SaysTimedOut(wt: Waiter) {
    || (wt.phase.Finish? && wt.phase.result.TimedOut?)
    || (wt.phase.Done? && wt.phase.returned.TimedOut?)
  }

  /** A wait-any that may not wait and times out has taken nothing; a wait-all over nothing neither
      sleeps nor times out, unless it may not wait. */
  predicate TimeoutOk(wt: Waiter) {
    && (!wt.waitAll && wt.timeout.Zero? && SaysTimedOut(wt) ==> wt.status == -1)
    && (wt.waitAll && wt.events == [] ==>
          wt.status == 0 && !wt.phase.Asleep? && (SaysTimedOut(wt) ==> wt.timeout.Zero?))
  }

  lemma StepTimeoutOk(s: Sys, a: Action, w: nat)
    requires Inv(s) && Enabled(s, a) && w < |Apply(s, a).waiters|
    requires w < |s.waiters| ==> TimeoutOk(s.waiters[w])
    ensures TimeoutOk(Apply(s, a).waiters[w])
  {
    if w < |s.waiters| {
      assert ControlOk(s, w) && RecordOk(s, w);
      hide Inv;
      if a.ServeEntry? {
        ServeTimeoutOk(s, a.e, w);
      } else {
        OtherTimeoutOk(s, a, w);
      }
    }
  }

  lemma ServeTimeoutOk(s: Sys, e: nat, w: nat)
    requires Inv(s) && Enabled(s, ServeEntry(e)) && w < |s.waiters| && TimeoutOk(s.waiters[w])
    ensures w < |Apply(s, ServeEntry(e)).waiters| && TimeoutOk(Apply(s, ServeEntry(e)).waiters[w])
  {
    ServedIsListed(s, e);
    hide Inv;
  }

  lemma OtherTimeoutOk(s: Sys, a: Action, w: nat)
    requires Enabled(s, a) && !a.ServeEntry? && w < |s.waiters| && TimeoutOk(s.waiters[w])
    requires ControlOk(s, w) && RecordOk(s, w)
    ensures w < |Apply(s, a).waiters| && TimeoutOk(Apply(s, a).waiters[w])
  {
    hide Registered, InUse;
  }

  /** A waiter that `SetEvent` serves lists the event, and is asleep or has returned. */
  lemma ServedIsListed(s: Sys, e: nat)
    requires Inv(s) && Enabled(s, ServeEntry(e))
    ensures
      var v := s.events[e].waits[s.events[e].given].waiter;
      s.waiters[v].events != [] && !HoldsOwnLock(s.waiters[v].phase)
      && (s.waiters[v].phase.Done? ==> !s.waiters[v].stillWaiting)
  {
    var x := s.events[e].waits[s.events[e].given];
    assert EventOk(s, e) && EntryOk(s, e, x) && ControlOk(s, x.waiter) && RecordOk(s, x.waiter);
  }

  lemma {:induction false} RunTimeoutOk(s: Sys, acts: seq<Action>, t: Sys)
    requires Inv(s) && Runs(s, acts, t)
    requires forall w | 0 <= w < |s.waiters| :: TimeoutOk(s.waiters[w])
    ensures forall w | 0 <= w < |t.waiters| :: TimeoutOk(t.waiters[w])
    decreases |acts|
  {
    hide Inv, Apply, Enabled, TimeoutOk;
    if acts != [] {
      var m := Apply(s, acts[0]);
      StepInv(s, acts[0]);
      forall w | 0 <= w < |m.waiters| ensures TimeoutOk(m.waiters[w]) {
        StepTimeoutOk(s, acts[0], w);
      }
      RunTimeoutOk(m, acts[1..], t);
    }
  }

  // ---------- A call asleep on unsignalled events ----------

  /** Call 0 sleeps, registered at each of its positions, and nothing else is going on. */
  predicate AsleepOn(s: Sys, evs: seq<nat>, waitAll: bool, timeout: Timeout, manualReset: bool) {
    && |s.waiters| == 1 && |s.events| == Above(evs) && AllIdle(s)
    && s.waiters[0] == NewWaiter(evs, waitAll, timeout).(
         refCount := s.waiters[0].refCount, scanned := |evs|, phase := Asleep, lock := Unlocked)
    && (forall e | 0 <= e < |s.events| :: s.events[e].autoReset == !manualReset
          && forall k | 0 <= k < |s.events[e].waits| :: s.events[e].waits[k].waiter == 0)
    && (forall i | 0 <= i < |evs| :: evs[i] < |s.events| && Info(0, i) in s.events[evs[i]].waits)
    && (evs != [] ==> s.events[evs[0]].waits[0] == Info(0, 0))
  }

  lemma FallAsleep(evs: seq<nat>, waitAll: bool, timeout: Timeout, manualReset: bool) returns (s: Sys)
    requires evs != [] && !timeout.Zero?
    ensures Reach({evs}, s) && AsleepOn(s, evs, waitAll, timeout, manualReset)
  {
    var lists := {evs};
    var n := Above(evs);
    Created(lists, n, manualReset);
    var s0 := Sys(NewEvents(n, manualReset), [], Start);
    Started(lists, s0, evs, waitAll, timeout);
    var s1 := s0.(waiters := s0.waiters + [NewWaiter(evs, waitAll, timeout)]);
    assert evs[0] in evs;
    RegisterOne(lists, s1, 0);
    RegisteredHeld(s1, 0);
    var s2 := Registered1(s1, 0);
    var s3 := ScanTo(lists, s2, 0, |evs|);
    assert s2.events[evs[0]].waits == [Info(0, 0)];
    s := GoToSleep(lists, s3, evs, waitAll, timeout);
    forall i | 0 <= i < |evs| ensures evs[i] < |s.events| && Info(0, i) in s.events[evs[i]].waits {
      assert evs[i] in evs;
      if i == 0 {
        assert s.events[evs[0]].waits[0] == Info(0, 0);
      }
    }
  }

  lemma GoToSleep(lists: set<seq<nat>>, s: Sys, evs: seq<nat>, waitAll: bool, timeout: Timeout) returns (t: Sys)
    requires Reach(lists, s) && evs != [] && !timeout.Zero? && |s.waiters| == 1
    requires s.waiters[0] == NewWaiter(evs, waitAll, timeout).(refCount := s.waiters[0].refCount, scanned := |evs|)
    ensures Reach(lists, t) && t == s.(waiters := [s.waiters[0].(phase := Asleep, lock := Unlocked)])
  {
    ReachStep(lists, s, EndScan(0));
    var m := Apply(s, EndScan(0));
    ReachStep(lists, m, CheckDone(0));
    t := Apply(m, CheckDone(0));
  }

  /** The call's timer expires, and it returns. */
  lemma TimesOut(lists: set<seq<nat>>, s: Sys, w: nat) returns (t: Sys)
    requires Reach(lists, s) && w < |s.waiters| && s.waiters[w].phase.Asleep?
    requires s.waiters[w].lock.Unlocked? && s.waiters[w].timeout.Finite?
    ensures Reach(lists, t) && |t.waiters| == |s.waiters|
    ensures
      var was, wt := s.waiters[w], t.waiters[w];
      && wt.phase == Done(TimedOut, was.status)
      && wt.events == was.events && wt.waitAll == was.waitAll && wt.timeout == was.timeout
    ensures forall e: nat, v: nat, i: nat :: Tally(t.hist, Got(e, v, i)) == Tally(s.hist, Got(e, v, i))
  {
    ReachStep(lists, s, Wake(w, true));
    var m := Apply(s, Wake(w, true));
    ReachStep(lists, m, FinishWait(w));
    t := Apply(m, FinishWait(w));
  }

  // ---------- Wait-any ----------

  /** The call is a wait-any that returned WAIT_TIMEOUT with the index of an event whose signal it took. */
  predicate TimedOutWithSignal(s: Sys, w: nat, evs: seq<nat>, timeout: Timeout) {
    && w < |s.waiters|
    && var wt := s.waiters[w];
       && !wt.waitAll && wt.events == evs && wt.timeout == timeout
       && wt.phase.Done? && wt.phase.returned == TimedOut
       && 0 <= wt.phase.waitIndex < |evs|
       && Tally(s.hist, Got(evs[wt.phase.waitIndex], w, wt.phase.waitIndex)) == 1
  }

  lemma HandedThenTimedOut(evs: seq<nat>) returns (s: Sys)
    requires evs != []
    ensures Reach({evs}, s) && TimedOutWithSignal(s, 0, evs, Finite)
  {
    var lists := {evs};
    var s0 := FallAsleep(evs, false, Finite, false);
    var e := evs[0];
    ReachStep(lists, s0, LockSet(e));
    var s1 := Apply(s0, LockSet(e));
    ReachStep(lists, s1, LockWaiter(e));
    var s2 := Apply(s1, LockWaiter(e));
    ReachStep(lists, s2, ServeEntry(e));
    var s3 := Apply(s2, ServeEntry(e));
    s := TimesOut(lists, s3, 0);
    var acts :| Runs(Init(), acts, s) && Listed(acts, lists);
    WaitAnyTakesExactlyOne(acts, s, 0);
  }

  lemma {:induction false} OnlyIfFinite(acts: seq<Action>, s: Sys, w: nat, evs: seq<nat>, timeout: Timeout)
    requires Runs(Init(), acts, s) && TimedOutWithSignal(s, w, evs, timeout)
    ensures timeout.Finite? && evs != []
  {
    InitInv();
    RunInv(Init(), acts, s);
    RunTimeoutOk(Init(), acts, s);
    assert ControlOk(s, w) && RecordOk(s, w) && TimeoutOk(s.waiters[w]);
  }

  /** Some run ends with such a call having timed out with a signal. */
  ghost predicate MayHideASignal(evs: seq<nat>, timeout: Timeout) {
    exists acts, s, w: nat :: Runs(Init(), acts, s) && TimedOutWithSignal(s, w, evs, timeout)
  }

  /** A wait-any can return WAIT_TIMEOUT although it took a signal exactly if it has a finite timeout,
      neither zero nor infinite, and lists an event: for every other call WAIT_TIMEOUT means that
      nothing was taken, and for every such call some run shows that it does not. */
  lemma TimedOutWithSignalExactly(evs: seq<nat>, timeout: Timeout)
    ensures MayHideASignal(evs, timeout) <==> timeout.Finite? && evs != []
  {
    hide Runs, TimedOutWithSignal;
    if timeout.Finite? && evs != [] {
      var s := HandedThenTimedOut(evs);
      var acts :| Runs(Init(), acts, s) && Listed(acts, {evs});
      assert TimedOutWithSignal(s, 0, evs, timeout);
    }
    if MayHideASignal(evs, timeout) {
      var acts, s, w: nat :| Runs(Init(), acts, s) && TimedOutWithSignal(s, w, evs, timeout);
      OnlyIfFinite(acts, s, w, evs, timeout);
    }
  }

  // ---------- Wait-all ----------

  /** The call is a wait-all that returned WAIT_TIMEOUT although it received every signal it listed. */
  predicate TimedOutWithAll(s: Sys, w: nat, evs: seq<nat>, timeout: Timeout) {
    && w < |s.waiters|
    && var wt := s.waiters[w];
       && wt.waitAll && wt.events == evs && wt.timeout == timeout
       && wt.phase.Done? && wt.phase.returned == TimedOut
       && forall i | 0 <= i < |evs| :: Tally(s.hist, Got(evs[i], w, i)) == 1
  }

  /** With no entry left anywhere, a running wait-all has received a signal for all it scanned. */
  lemma AllReceived(lists: set<seq<nat>>, s: Sys, w: nat)
    requires Reach(lists, s) && w < |s.waiters| && s.waiters[w].waitAll && Active(s.waiters[w])
    requires forall e | 0 <= e < |s.events| :: s.events[e].waits == []
    ensures forall i | 0 <= i < |s.waiters[w].events| && i < s.waiters[w].scanned ::
              Tally(s.hist, Got(s.waiters[w].events[i], w, i)) == 1
  {
    ReachInv(lists, s);
    assert ControlOk(s, w);
    forall i | 0 <= i < |s.waiters[w].events| && i < s.waiters[w].scanned
      ensures Tally(s.hist, Got(s.waiters[w].events[i], w, i)) == 1
    {
      assert SlotOk(s, w, i);
      assert Out(s.events[s.waiters[w].events[i]]) == [];
    }
  }

  // Finite: everything is signalled while the call sleeps.

  /** Call 0 is a wait-all asleep on manual-reset events; those below n have been set, and at the others it
      still has its entries. */
  predicate SetBelow(s: Sys, evs: seq<nat>, timeout: Timeout, n: nat) {
    && |s.waiters| == 1 && |s.events| == Above(evs)
    && s.waiters[0] == NewWaiter(evs, true, timeout).(
         refCount := s.waiters[0].refCount, status := s.waiters[0].status,
         scanned := |evs|, phase := Asleep, lock := Unlocked)
    && (forall e | 0 <= e < |s.events| ::
          && !s.events[e].autoReset && s.events[e].alive && s.events[e].holder.Free? && s.events[e].given == 0
          && (forall k | 0 <= k < |s.events[e].waits| :: s.events[e].waits[k].waiter == 0)
          && (e < n ==> s.events[e].waits == []))
    && (forall i | 0 <= i < |evs| && n <= evs[i] < |s.events| :: Info(0, i) in s.events[evs[i]].waits)
  }

  /** Event e is being set, with k waiters served; otherwise like `s`. */
  predicate ServedTo(s: Sys, e: nat, k: nat, t: Sys) {
    && e < |s.events| && |s.waiters| == 1 == |t.waiters|
    && t.waiters[0] == s.waiters[0].(refCount := t.waiters[0].refCount, status := t.waiters[0].status)
    && |t.events| == |s.events| && t.events == s.events[e := t.events[e]]
    && t.events[e].holder.Setter? && t.events[e].holder.at.Drain? && t.events[e].given == k
    && t.events[e].waits == s.events[e].waits
    && t.events[e].alive && t.events[e].autoReset == s.events[e].autoReset
  }

  lemma {:induction false} ServeFirst(lists: set<seq<nat>>, s: Sys, evs: seq<nat>, timeout: Timeout, n: nat, k: nat)
    returns (t: Sys)
    requires Reach(lists, s) && SetBelow(s, evs, timeout, n) && n < |s.events| && k <= |s.events[n].waits|
    ensures Reach(lists, t) && ServedTo(s, n, k, t)
  {
    if k == 0 {
      ReachStep(lists, s, LockSet(n));
      t := Apply(s, LockSet(n));
    } else {
      var m := ServeFirst(lists, s, evs, timeout, n, k - 1);
      t := ServeOne(lists, s, evs, timeout, n, k - 1, m);
    }
  }

  lemma ServeOne(lists: set<seq<nat>>, s: Sys, evs: seq<nat>, timeout: Timeout, n: nat, k: nat, m: Sys) returns (t: Sys)
    requires SetBelow(s, evs, timeout, n) && n < |s.events| && k < |s.events[n].waits|
    requires Reach(lists, m) && ServedTo(s, n, k, m)
    ensures Reach(lists, t) && ServedTo(s, n, k + 1, t)
  {
    ReachStep(lists, m, LockWaiter(n));
    var m1 := Apply(m, LockWaiter(n));
    ReachStep(lists, m1, ServeEntry(n));
    t := Apply(m1, ServeEntry(n));
  }

  lemma {:induction false} SetAll(lists: set<seq<nat>>, s: Sys, evs: seq<nat>, timeout: Timeout, n: nat)
    returns (t: Sys)
    requires Reach(lists, s) && SetBelow(s, evs, timeout, 0) && n <= |s.events|
    ensures Reach(lists, t) && SetBelow(t, evs, timeout, n)
  {
    if n == 0 {
      t := s;
    } else {
      var m := SetAll(lists, s, evs, timeout, n - 1);
      var m1 := ServeFirst(lists, m, evs, timeout, n - 1, |m.events[n - 1].waits|);
      ReachStep(lists, m1, EndDrain(n - 1));
      t := Apply(m1, EndDrain(n - 1));
    }
  }

  lemma SetThenTimedOut(evs: seq<nat>) returns (s: Sys)
    requires evs != []
    ensures Reach({evs}, s) && TimedOutWithAll(s, 0, evs, Finite)
  {
    var lists := {evs};
    var s0 := FallAsleep(evs, true, Finite, true);
    var s1 := SetAll(lists, s0, evs, Finite, |s0.events|);
    AllReceived(lists, s1, 0);
    s := TimesOut(lists, s1, 0);
  }

  // Zero: everything is signalled before.

  function SignalledEvents(n: nat, k: nat): seq<Event>
    requires k <= n
  {
    seq(n, i => Event(false, i < k, [], 0, Free, true))
  }

  lemma {:induction false} SignalFirst(lists: set<seq<nat>>, n: nat, k: nat) returns (s: Sys)
    requires k <= n
    ensures Reach(lists, s) && s.waiters == [] && s.events == SignalledEvents(n, k)
  {
    if k == 0 {
      Created(lists, n, true);
      s := Sys(NewEvents(n, true), [], Start);
    } else {
      var m := SignalFirst(lists, n, k - 1);
      ReachStep(lists, m, LockSet(k - 1));
      var m1 := Apply(m, LockSet(k - 1));
      ReachStep(lists, m1, EndDrain(k - 1));
      s := Apply(m1, EndDrain(k - 1));
      assert s.events == SignalledEvents(n, k);
    }
  }

  /** Call 0 is a wait-all that has taken its first p positions. */
  predicate TookTo(s: Sys, evs: seq<nat>, p: nat) {
    && p <= |evs| && s.events == SignalledEvents(Above(evs), Above(evs)) && |s.waiters| == 1
    && s.waiters[0] == NewWaiter(evs, true, Zero).(status := |evs| - p, scanned := p)
  }

  lemma {:induction false} TakeFirst(lists: set<seq<nat>>, evs: seq<nat>, p: nat) returns (s: Sys)
    requires evs in lists && p <= |evs|
    ensures Reach(lists, s) && TookTo(s, evs, p)
  {
    if p == 0 {
      var m := SignalFirst(lists, Above(evs), Above(evs));
      ReachStep(lists, m, StartWait(evs, true, Zero));
      s := Apply(m, StartWait(evs, true, Zero));
    } else {
      var m := TakeFirst(lists, evs, p - 1);
      assert evs[p - 1] in evs;
      ReachStep(lists, m, LockScanned(0));
      var m1 := Apply(m, LockScanned(0));
      ReachStep(lists, m1, Poll(0));
      s := Apply(m1, Poll(0));
      assert s.events == SignalledEvents(Above(evs), Above(evs));
    }
  }

  lemma TakenThenTimedOut(evs: seq<nat>) returns (s: Sys)
    ensures Reach({evs}, s) && TimedOutWithAll(s, 0, evs, Zero)
  {
    var lists := {evs};
    var s0 := TakeFirst(lists, evs, |evs|);
    AllReceived(lists, s0, 0);
    ReachStep(lists, s0, EndScan(0));
    var s1 := Apply(s0, EndScan(0));
    ReachStep(lists, s1, FinishWait(0));
    s := Apply(s1, FinishWait(0));
    forall i | 0 <= i < |evs| ensures Tally(s.hist, Got(evs[i], 0, i)) == 1 {
      assert Tally(s.hist, Got(evs[i], 0, i)) == Tally(s0.hist, Got(evs[i], 0, i));
    }
  }

  lemma {:induction false} OnlyIfTimed(acts: seq<Action>, s: Sys, w: nat, evs: seq<nat>, timeout: Timeout)
    requires Runs(Init(), acts, s) && TimedOutWithAll(s, w, evs, timeout)
    ensures timeout.Zero? || (timeout.Finite? && evs != [])
  {
    InitInv();
    RunInv(Init(), acts, s);
    RunTimeoutOk(Init(), acts, s);
    assert ControlOk(s, w) && TimeoutOk(s.waiters[w]);
  }

  /** Some run ends with such a call having timed out with all its signals. */
  ghost predicate MayHideAll(evs: seq<nat>, timeout: Timeout) {
    exists acts, s, w: nat :: Runs(Init(), acts, s) && TimedOutWithAll(s, w, evs, timeout)
  }

  /** A wait-all can return WAIT_TIMEOUT although it received a signal for every position exactly if it
      may not wait, or has a finite timeout and lists an event. So "all positions taken means that 0 is
      returned" holds over all runs exactly for a call without a timeout (and for a wait for nothing
      that may wait). */
  lemma TimedOutWithAllExactly(evs: seq<nat>, timeout: Timeout)
    ensures MayHideAll(evs, timeout) <==> timeout.Zero? || (timeout.Finite? && evs != [])
  {
    hide Runs, TimedOutWithAll;
    if timeout.Zero? {
      var s := TakenThenTimedOut(evs);
      var acts :| Runs(Init(), acts, s) && Listed(acts, {evs});
      assert TimedOutWithAll(s, 0, evs, timeout);
    } else if timeout.Finite? && evs != [] {
      var s := SetThenTimedOut(evs);
      var acts :| Runs(Init(), acts, s) && Listed(acts, {evs});
      assert TimedOutWithAll(s, 0, evs, timeout);
    }
    if MayHideAll(evs, timeout) {
      var acts, s, w: nat :| Runs(Init(), acts, s) && TimedOutWithAll(s, w, evs, timeout);
      OnlyIfTimed(acts, s, w, evs, timeout);
    }
  }
}
