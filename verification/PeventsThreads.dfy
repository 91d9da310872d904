/** The library's calls under interference: before each of its own steps other threads take any steps they
    can. What a call does, and what it returns, is promised for every such interleaving. */
module PeventsThreads {
  import opened Pevents
  import opened PeventsInvariant
  import opened PeventsPatch
  import opened PeventsSteps
  import opened PeventsTheorems
  import opened PeventsFifo
  import opened PeventsCalls
  import opened PeventsDeadlock
  import opened PeventsDestroy
  import opened PeventsLogs

  /** What has happened since the call started is in its log, and `j` lists of others' steps are used. */
  ghost predicate Written(lib: EventLib, log: Log, others: seq<seq<Action>>, j: nat)
    reads lib
  {
    && lib.Valid() && lib.trace == Acts(log) && lib.Model() == Now(log)
    && log.others == others && j == Pauses(log.pieces) <= |others| && Proper(log.start, others, log.pieces)
  }

  /** The log of a call that is just starting. */
  ghost function NewLog(lib: EventLib, others: seq<seq<Action>>): (log: Log)
    requires lib.Valid()
    reads lib
    ensures Written(lib, log, others, 0) && OwnSteps(log.pieces) == [] && !LastPaused(log.pieces)
    ensures forall e: nat :: Delivered(log.start, e, log.pieces) == 0
  {
    Log(others, lib.trace, lib.Model(), [])
  }

  /** The call is the one that started then, and it is over unless the steps of others are used up. */
  predicate Followed(log: Log, trace: seq<Action>, start: Sys, finished: bool) {
    log.before == trace && log.start == start && (finished || Pauses(log.pieces) == |log.others|)
  }

  lemma IdleAtOnce(log: Log)
    ensures Idle(log, log)
  {
  }

  lemma IdleJoin(a: Log, b: Log, c: Log)
    requires Idle(a, b) && Idle(b, c)
    ensures Idle(a, c)
  {
    hide OwnSteps, Delivered;
  }

  /** Other threads take those of the given steps that they can, in order. */
  method Elsewhere(lib: EventLib, me: Self, acts: seq<Action>)
    requires lib.Valid() && Present(lib.Model(), me)
    modifies lib
    ensures lib.Valid() && Kept(old(lib.Model()), me, lib.Model()) && Present(lib.Model(), me)
    ensures lib.Model() == Interfered(old(lib.Model()), me, acts)
    ensures lib.trace == old(lib.trace) + Possible(old(lib.Model()), me, acts)
  {
    hide Inv, Runs, Apply, Enabled, Kept, Ours, Present;
    ghost var s := lib.Model();
    KeptAtOnce(s, me);
    var k := 0;
    while k < |acts|
      invariant 0 <= k <= |acts| && lib.Valid() && Kept(s, me, lib.Model()) && Present(lib.Model(), me)
      invariant lib.Model() == Interfered(s, me, acts[..k])
      invariant lib.trace == old(lib.trace) + Possible(s, me, acts[..k])
    {
      var m := lib.Model();
      assert acts[..k + 1][..k] == acts[..k];
      if Enabled(m, acts[k]) && !Ours(m, me, acts[k]) {
        OthersKeep(m, me, acts[k]);
        lib.Perform(acts[k]);
        KeptJoin(s, me, m, lib.Model());
        KeptPresent(m, me, lib.Model());
      }
      k := k + 1;
    }
    assert acts[..k] == acts;
  }

  /** A moment between two steps of the call: the next of the given steps of others, if any are left. */
  method Gap(lib: EventLib, me: Self, others: seq<seq<Action>>, i: nat, ghost was: Log)
    returns (j: nat, ghost log: Log)
    requires Written(lib, was, others, i) && Present(lib.Model(), me)
    requires LastPaused(was.pieces) ==> Stuck(lib.Model(), me)
    modifies lib
    ensures Written(lib, log, others, j) && Kept(old(lib.Model()), me, lib.Model()) && Present(lib.Model(), me)
    ensures Idle(was, log) && Ready(others, log.pieces) && j == if i < |others| then i + 1 else i
    ensures i == |others| ==> log == was && lib.Model() == old(lib.Model())
  {
    hide Inv, Runs, Apply, Enabled, Kept, Present, Stuck, Interfered, Possible, Idle, Proper, After, Trace, OwnSteps;
    hide Pauses, Acts;
    j, log := i, was;
    KeptAtOnce(lib.Model(), me);
    if i < |others| {
      PauseAdded(was, me, others[i]);
      Elsewhere(lib, me, others[i]);
      j, log := i + 1, Add(was, Pause(me, others[i]));
    } else {
      IdleAtOnce(was);
    }
  }

  /** The next entry of a clean-up. `trylock` fails if the waiter's mutex is held; it may fail if the
      clean-up of another event is at an entry of the same waiter. */
  method SweepStep(lib: EventLib, e: nat) returns (busy: bool)
    requires lib.Valid() && e < |lib.events| && (lib.events[e].holder.Scanner? || lib.events[e].holder.Destroyer?)
    requires lib.events[e].holder.next < |lib.events[e].waits|
    modifies lib
    ensures lib.Valid() && lib.trace == old(lib.trace) + [SweepEntry(e, busy)]
    ensures Enabled(old(lib.Model()), SweepEntry(e, busy))
    ensures lib.Model() == Apply(old(lib.Model()), SweepEntry(e, busy))
  {
    ListedWaiterExists(lib.Model(), e, lib.events[e].holder.next);
    hide Inv, Runs, Apply;
    var v := lib.events[e].waits[lib.events[e].holder.next].waiter;
    busy := !lib.waiters[v].lock.Unlocked?;
    if !busy && Contended(lib.Model(), e, v) {
      busy := *;
    }
    if !busy && !lib.waiters[v].stillWaiting {
      lib.DropEntry(e);
    } else {
      lib.KeepEntry(e, busy);
    }
  }

  // ---------- WaitForMultipleEvents ----------

  /** A step of multi-wait w, on the events it lists, between its first and its last. */
  predicate WaitStep(w: nat, evs: seq<nat>, a: Action) {
    || ((a.LockScanned? || a.Poll? || a.EndScan? || a.CheckDone? || a.Wake?) && a.w == w)
    || (a.SweepEntry? && a.e in evs)
  }

  /** The own steps that came to the log are such steps. */
  predicate GoesOn(w: nat, evs: seq<nat>, was: Log, log: Log) {
    && Continues(was, log) && OwnSteps(was.pieces) <= OwnSteps(log.pieces)
    && forall k | |OwnSteps(was.pieces)| <= k < |OwnSteps(log.pieces)| :: WaitStep(w, evs, OwnSteps(log.pieces)[k])
  }

  lemma GoesOnJoin(w: nat, evs: seq<nat>, a: Log, b: Log, c: Log)
    requires GoesOn(w, evs, a, b) && (GoesOn(w, evs, b, c) || Idle(b, c))
    ensures GoesOn(w, evs, a, c)
  {
    hide OwnSteps, WaitStep, Delivered;
    var x, y, z := OwnSteps(a.pieces), OwnSteps(b.pieces), OwnSteps(c.pieces);
    assert forall k | |x| <= k < |y| :: z[k] == y[k];
  }

  lemma IdleGoesOn(w: nat, evs: seq<nat>, a: Log, b: Log)
    requires Idle(a, b)
    ensures GoesOn(w, evs, a, b)
  {
    hide OwnSteps, WaitStep, Delivered;
  }

  lemma StepGoesOn(w: nat, evs: seq<nat>, a: Log, b: Log, c: Log, act: Action)
    requires GoesOn(w, evs, a, b) && Continues(b, c) && OwnSteps(c.pieces) == OwnSteps(b.pieces) + [act]
    requires WaitStep(w, evs, act)
    ensures GoesOn(w, evs, a, c)
  {
    hide OwnSteps, WaitStep;
  }

  /** Line 254: waits until the event's mutex is free. Not `ok` means that `others` is used up. */
  method AwaitListed(lib: EventLib, w: nat, others: seq<seq<Action>>, i: nat, ghost was: Log)
    returns (ok: bool, j: nat, ghost log: Log)
    requires Written(lib, was, others, i) && w < |lib.waiters| && lib.waiters[w].phase.Scan?
    requires lib.waiters[w].scanned < |lib.waiters[w].events| && !LastPaused(was.pieces)
    modifies lib
    ensures Written(lib, log, others, j) && w < |lib.waiters| && i <= j
    ensures GoesOn(w, old(lib.waiters)[w].events, was, log) && (ok ==> !LastPaused(log.pieces))
    ensures SameCall(old(lib.waiters)[w], lib.waiters[w]) && lib.waiters[w].scanned == old(lib.waiters)[w].scanned
    ensures if ok then lib.waiters[w].phase.Sweep? else j == |others| && MustWait(lib.Model(), w)
  {
    hide Inv, Runs, Apply, Proper, After, Trace, OwnSteps, Pauses, Acts, Delivered, Idle, Ready, GoesOn, Continues;
    hide LastPaused;
    ghost var s := lib.Model();
    ListedIsThere(s, w);
    ghost var evs := lib.waiters[w].events;
    var e := lib.waiters[w].events[lib.waiters[w].scanned];
    j, log := Gap(lib, WaitCall(w), others, i, was);
    while lib.events[e].holder != Free
      invariant Written(lib, log, others, j) && i <= j && Kept(s, WaitCall(w), lib.Model())
      invariant Idle(was, log) && Ready(others, log.pieces)
      decreases |others| - j
    {
      if j == |others| {
        IdleGoesOn(w, evs, was, log);
        return false, j, log;
      }
      ghost var m, mid := lib.Model(), log;
      j, log := Gap(lib, WaitCall(w), others, j, log);
      KeptJoin(s, WaitCall(w), m, lib.Model());
      IdleJoin(was, mid, log);
    }
    ghost var mid := log;
    LockedIsSweep(lib.Model(), w);
    OwnAdded(log, LockScanned(w));
    lib.LockListed(w);
    log := Add(log, Own(LockScanned(w)));
    IdleGoesOn(w, evs, was, mid);
    StepGoesOn(w, evs, was, mid, log, LockScanned(w));
    ok := true;
  }

  lemma ListedIsThere(s: Sys, w: nat)
    requires Inv(s) && w < |s.waiters| && s.waiters[w].phase.Scan? && s.waiters[w].scanned < |s.waiters[w].events|
    ensures AtEvent(s, s.waiters[w])
  {
    assert ControlOk(s, w);
  }

  lemma LockedIsSweep(s: Sys, w: nat)
    requires Enabled(s, LockScanned(w))
    ensures Apply(s, LockScanned(w)).waiters == s.waiters[w := s.waiters[w].(phase := Sweep)]
  {
  }

  /** Call w owns event e and cleans it up; its own fields are as in `s`. */
  predicate Sweeping(s: Sys, w: nat, e: nat, t: Sys) {
    && w < |s.waiters| && w < |t.waiters| && e < |t.events|
    && var wt := t.waiters[w];
       && SameCall(s.waiters[w], wt) && wt.phase.Sweep? && wt.scanned == s.waiters[w].scanned
       && AtEvent(t, wt) && wt.events[wt.scanned] == e
       && t.events[e].holder.Scanner? && t.events[e].holder.call == w
       && t.events[e].holder.next <= |t.events[e].waits|
  }

  lemma SweepsListed(s: Sys, w: nat)
    requires Inv(s) && w < |s.waiters| && s.waiters[w].phase.Sweep?
    ensures AtEvent(s, s.waiters[w])
  {
    assert ControlOk(s, w);
  }

  lemma SweepStarts(s: Sys, w: nat, e: nat)
    requires w < |s.waiters| && s.waiters[w].phase.Sweep? && AtEvent(s, s.waiters[w])
    requires s.waiters[w].events[s.waiters[w].scanned] == e && Inv(s)
    ensures Sweeping(s, w, e, s)
  {
    assert ControlOk(s, w) && EventOk(s, e);
  }

  lemma SweepGoesOn(s: Sys, w: nat, e: nat, m: Sys, busy: bool)
    requires Sweeping(s, w, e, m) && Enabled(m, SweepEntry(e, busy))
    ensures
      var t := Apply(m, SweepEntry(e, busy));
      && Sweeping(s, w, e, t)
      && |t.events[e].waits| - t.events[e].holder.next == |m.events[e].waits| - m.events[e].holder.next - 1
  {
  }

  lemma PollMovesOn(s: Sys, w: nat, e: nat)
    requires Sweeping(s, w, e, s) && s.events[e].holder.next == |s.events[e].waits|
    ensures Enabled(s, Poll(w))
    ensures
      var t := ApplyPoll(s, w);
      && |t.waiters| == |s.waiters| && SameCall(s.waiters[w], t.waiters[w])
      && t.waiters[w].scanned == s.waiters[w].scanned + 1
      && (t.waiters[w].phase.Scan? || t.waiters[w].phase.Finish?)
  {
  }

  /** The clean-up of line 258, entry by entry, and lines 260-285. */
  method SweepAndPoll(lib: EventLib, w: nat, others: seq<seq<Action>>, i: nat, ghost was: Log)
    returns (j: nat, ghost log: Log)
    requires Written(lib, was, others, i) && w < |lib.waiters| && lib.waiters[w].phase.Sweep?
    requires !LastPaused(was.pieces)
    modifies lib
    ensures Written(lib, log, others, j) && w < |lib.waiters| && i <= j
    ensures GoesOn(w, old(lib.waiters)[w].events, was, log) && !LastPaused(log.pieces)
    ensures SameCall(old(lib.waiters)[w], lib.waiters[w]) && lib.waiters[w].scanned == old(lib.waiters)[w].scanned + 1
    ensures lib.waiters[w].phase.Scan? || lib.waiters[w].phase.Finish?
  {
    hide Inv, Runs, Apply, Enabled, Proper, After, Trace, OwnSteps, Pauses, Acts, Delivered, Idle, Ready, GoesOn;
    hide Continues, LastPaused, Kept, Stuck;
    ghost var s := lib.Model();
    SweepsListed(s, w);
    ghost var evs := lib.waiters[w].events;
    var e := lib.waiters[w].events[lib.waiters[w].scanned];
    SweepStarts(s, w, e);
    j, log := Gap(lib, WaitCall(w), others, i, was);
    IdleGoesOn(w, evs, was, log);
    SweepKept(s, w, e, s, lib.Model());
    while lib.events[e].holder.next < |lib.events[e].waits|
      invariant Written(lib, log, others, j) && i <= j && Sweeping(s, w, e, lib.Model())
      invariant GoesOn(w, evs, was, log) && Ready(others, log.pieces)
      decreases |lib.events[e].waits| - lib.events[e].holder.next
    {
      ghost var m, mid := lib.Model(), log;
      var busy := SweepStep(lib, e);
      OwnAdded(mid, SweepEntry(e, busy));
      log := Add(mid, Own(SweepEntry(e, busy)));
      StepGoesOn(w, evs, was, mid, log, SweepEntry(e, busy));
      SweepGoesOn(s, w, e, m, busy);
      ghost var m', mid' := lib.Model(), log;
      j, log := Gap(lib, WaitCall(w), others, j, log);
      SweepKept(s, w, e, m', lib.Model());
      GoesOnJoin(w, evs, was, mid', log);
    }
    ghost var m, mid := lib.Model(), log;
    PollMovesOn(m, w, e);
    PollIsApply(m, w);
    OwnAdded(mid, Poll(w));
    lib.PollEvent(w);
    log := Add(mid, Own(Poll(w)));
    StepGoesOn(w, evs, was, mid, log, Poll(w));
  }

  lemma SweepKept(s: Sys, w: nat, e: nat, m: Sys, t: Sys)
    requires Sweeping(s, w, e, m) && Kept(m, WaitCall(w), t)
    ensures Sweeping(s, w, e, t) && t.events[e] == m.events[e]
  {
  }

  lemma PollIsApply(s: Sys, w: nat)
    requires Enabled(s, Poll(w))
    ensures Apply(s, Poll(w)) == ApplyPoll(s, w)
  {
  }

  /** Lines 318-330: sleeps at least once, until it can have its mutex back. */
  method SleepOnce(lib: EventLib, w: nat, others: seq<seq<Action>>, i: nat, ghost was: Log)
    returns (ok: bool, j: nat, ghost log: Log)
    requires Written(lib, was, others, i) && w < |lib.waiters| && lib.waiters[w].phase.Asleep?
    requires MustWait(lib.Model(), w) && !LastPaused(was.pieces)
    modifies lib
    ensures Written(lib, log, others, j) && w < |lib.waiters| && i <= j && (if ok then i < j else j == |others|)
    ensures GoesOn(w, old(lib.waiters)[w].events, was, log) && (ok ==> !LastPaused(log.pieces))
    ensures SameCall(old(lib.waiters)[w], lib.waiters[w])
    ensures
      if ok then lib.waiters[w].phase.Check? || lib.waiters[w].phase.Finish?
      else lib.waiters[w].phase.Asleep? && MustWait(lib.Model(), w)
  {
    hide Inv, Runs, Apply, Proper, After, Trace, OwnSteps, Pauses, Acts, Delivered, Idle, Ready, GoesOn, Continues;
    hide LastPaused, Satisfied;
    j, log := i, was;
    ghost var s, evs := lib.Model(), lib.waiters[w].events;
    KeptAtOnce(s, WaitCall(w));
    IdleAtOnce(was);
    while j == i || !lib.waiters[w].lock.Unlocked?
      invariant Written(lib, log, others, j) && i <= j && Kept(s, WaitCall(w), lib.Model())
      invariant Idle(was, log) && (if j == i then log == was && lib.Model() == s else Ready(others, log.pieces))
      decreases |others| - j
    {
      if j == |others| {
        IdleGoesOn(w, evs, was, log);
        return false, j, log;
      }
      ghost var m, mid := lib.Model(), log;
      j, log := Gap(lib, WaitCall(w), others, j, log);
      KeptJoin(s, WaitCall(w), m, lib.Model());
      IdleJoin(was, mid, log);
    }
    var timedOut := false;
    if lib.waiters[w].timeout.Finite? {
      timedOut := *;
    }
    ghost var mid := log;
    WokenState(lib.Model(), w, timedOut);
    OwnAdded(mid, Wake(w, timedOut));
    lib.WakeUp(w, timedOut);
    log := Add(mid, Own(Wake(w, timedOut)));
    IdleGoesOn(w, evs, was, mid);
    StepGoesOn(w, evs, was, mid, log, Wake(w, timedOut));
    ok := true;
  }

  lemma WokenState(s: Sys, w: nat, timedOut: bool)
    requires Enabled(s, Wake(w, timedOut))
    ensures
      var phase := if timedOut then Finish(TimedOut) else Check;
      Apply(s, Wake(w, timedOut)).waiters == s.waiters[w := s.waiters[w].(phase := phase, lock := ByCall)]
  {
  }

  /** The loop of line 308. */
  method Await(lib: EventLib, w: nat, others: seq<seq<Action>>, i: nat, ghost was: Log)
    returns (ok: bool, j: nat, ghost log: Log)
    requires Written(lib, was, others, i) && w < |lib.waiters| && lib.waiters[w].phase.Check?
    requires !LastPaused(was.pieces)
    modifies lib
    ensures Written(lib, log, others, j) && w < |lib.waiters| && (!ok ==> j == |others|)
    ensures GoesOn(w, old(lib.waiters)[w].events, was, log) && (ok ==> !LastPaused(log.pieces))
    ensures SameCall(old(lib.waiters)[w], lib.waiters[w])
    ensures if ok then lib.waiters[w].phase.Finish? else MustWait(lib.Model(), w)
  {
    hide Inv, Runs, Apply, Proper, After, Trace, OwnSteps, Pauses, Acts, Delivered, Idle, Ready, GoesOn, Continues;
    hide LastPaused, Satisfied, Stuck;
    ok, j, log := true, i, was;
    ghost var evs := lib.waiters[w].events;
    IdleAtOnce(was);
    IdleGoesOn(w, evs, was, was);
    while lib.waiters[w].phase.Check?
      invariant Written(lib, log, others, j) && w < |lib.waiters| && i <= j
      invariant GoesOn(w, evs, was, log) && !LastPaused(log.pieces)
      invariant SameCall(old(lib.waiters)[w], lib.waiters[w])
      invariant lib.waiters[w].phase.Check? || lib.waiters[w].phase.Finish?
      decreases |others| - j, if lib.waiters[w].phase.Check? then 1 else 0
    {
      ghost var mid := log;
      j, log := Gap(lib, WaitCall(w), others, j, log);
      GoesOnJoin(w, evs, was, mid, log);
      mid := log;
      CheckState(lib.Model(), w);
      OwnAdded(mid, CheckDone(w));
      lib.CheckDone(w);
      log := Add(mid, Own(CheckDone(w)));
      StepGoesOn(w, evs, was, mid, log, CheckDone(w));
      if lib.waiters[w].phase.Asleep? {
        mid := log;
        ok, j, log := SleepOnce(lib, w, others, j, log);
        GoesOnJoin(w, evs, was, mid, log);
        if !ok {
          return false, j, log;
        }
      }
    }
  }

  lemma CheckState(s: Sys, w: nat)
    requires w < |s.waiters| && s.waiters[w].phase.Check?
    ensures Enabled(s, CheckDone(w))
    ensures
      var t := Apply(s, CheckDone(w));
      && w < |t.waiters| && t.events == s.events && t.hist == s.hist && SameCall(s.waiters[w], t.waiters[w])
      && t.waiters == s.waiters[w := t.waiters[w]]
      && (t.waiters[w].phase.Finish? || (t.waiters[w].phase.Asleep? && !Satisfied(t.waiters[w])))
  {
  }

  /** The loop of line 249. */
  method ScanAll(lib: EventLib, w: nat, others: seq<seq<Action>>, i: nat, ghost was: Log)
    returns (ok: bool, j: nat, ghost log: Log)
    requires Written(lib, was, others, i) && w < |lib.waiters| && lib.waiters[w].phase.Scan?
    requires !LastPaused(was.pieces)
    modifies lib
    ensures Written(lib, log, others, j) && w < |lib.waiters| && i <= j && (!ok ==> j == |others|)
    ensures GoesOn(w, old(lib.waiters)[w].events, was, log) && (ok ==> !LastPaused(log.pieces))
    ensures SameCall(old(lib.waiters)[w], lib.waiters[w])
    ensures !ok ==> MustWait(lib.Model(), w)
    ensures ok ==>
      || lib.waiters[w].phase.Finish?
      || (lib.waiters[w].phase.Scan? && lib.waiters[w].scanned == |lib.waiters[w].events|)
  {
    hide Inv, Runs, Apply, Proper, After, Trace, OwnSteps, Pauses, Acts, Delivered, Idle, Ready, GoesOn, Continues;
    hide LastPaused, Satisfied, MustWait;
    ok, j, log := true, i, was;
    ghost var evs := lib.waiters[w].events;
    IdleAtOnce(was);
    IdleGoesOn(w, evs, was, was);
    while lib.waiters[w].phase.Scan? && lib.waiters[w].scanned < |lib.waiters[w].events|
      invariant Written(lib, log, others, j) && w < |lib.waiters| && i <= j
      invariant GoesOn(w, evs, was, log) && !LastPaused(log.pieces)
      invariant SameCall(old(lib.waiters)[w], lib.waiters[w])
      invariant lib.waiters[w].phase.Scan? || lib.waiters[w].phase.Finish?
      decreases |lib.waiters[w].events| - lib.waiters[w].scanned
    {
      ghost var mid := log;
      ok, j, log := AwaitListed(lib, w, others, j, log);
      GoesOnJoin(w, evs, was, mid, log);
      if !ok {
        return false, j, log;
      }
      mid := log;
      j, log := SweepAndPoll(lib, w, others, j, log);
      GoesOnJoin(w, evs, was, mid, log);
    }
    if lib.waiters[w].phase.Scan? {
      ScanStays(lib.Model(), w);
    }
  }

  lemma ScanStays(s: Sys, w: nat)
    requires Inv(s) && w < |s.waiters| && s.waiters[w].phase.Scan?
    ensures s.waiters[w].scanned <= |s.waiters[w].events|
  {
    assert ControlOk(s, w);
  }

  lemma EntersScanning(s: Sys, evs: seq<nat>, waitAll: bool, timeout: Timeout)
    requires Enabled(s, StartWait(evs, waitAll, timeout))
    ensures Apply(s, StartWait(evs, waitAll, timeout)).waiters == s.waiters + [NewWaiter(evs, waitAll, timeout)]
  {
  }

  lemma ScanEnds(s: Sys, w: nat)
    requires w < |s.waiters| && s.waiters[w].phase.Scan? && s.waiters[w].scanned == |s.waiters[w].events|
    ensures Enabled(s, EndScan(w))
    ensures
      var phase := if s.waiters[w].timeout.Zero? then Finish(TimedOut) else Check;
      Apply(s, EndScan(w)).waiters == s.waiters[w := s.waiters[w].(phase := phase)]
  {
  }

  lemma CallEnds(s: Sys, w: nat)
    requires w < |s.waiters| && s.waiters[w].phase.Finish?
    ensures Enabled(s, FinishWait(w))
    ensures
      var t := Apply(s, FinishWait(w));
      |t.waiters| == |s.waiters| && t.waiters[w].phase.Done? && SameCall(s.waiters[w], t.waiters[w])
  {
  }

  /** What the theorems on runs say about a call that has returned. */
  predicate Promised(s: Sys, w: nat)
    requires w < |s.waiters| && s.waiters[w].phase.Done?
  {
    var wt := s.waiters[w];
    var r, x := wt.phase.returned, wt.phase.waitIndex;
    && (wt.timeout.Infinite? ==> r == Success)
    && (wt.waitAll && wt.timeout.Zero? ==> r == TimedOut)
    && (!wt.waitAll ==> -1 <= x < |wt.events| && (r == Success ==> x != -1))
    && (wt.waitAll ==> forall i | 0 <= i < |wt.events| ::
          && Tally(s.hist, Got(wt.events[i], w, i)) <= 1
          && (r == Success ==> Tally(s.hist, Got(wt.events[i], w, i)) == 1))
  }

  /** The signals a wait-any received: one, from the listed event x, or none. */
  ghost predicate OnlyGot(s: Sys, w: nat, events: seq<nat>, x: int) {
    forall e: nat, i: nat :: Tally(s.hist, Got(e, w, i)) == if x == i < |events| && e == events[i] then 1 else 0
  }

  lemma {:induction false} ResultsHold(acts: seq<Action>, s: Sys, w: nat)
    requires Runs(Init(), acts, s) && w < |s.waiters| && s.waiters[w].phase.Done?
    ensures Promised(s, w)
    ensures !s.waiters[w].waitAll ==> OnlyGot(s, w, s.waiters[w].events, s.waiters[w].phase.waitIndex)
  {
    ReachableInv(acts, s);
    assert ControlOk(s, w);
    hide Inv, Runs;
    if s.waiters[w].waitAll {
      forall i | 0 <= i < |s.waiters[w].events|
        ensures Tally(s.hist, Got(s.waiters[w].events[i], w, i)) <= 1
        ensures s.waiters[w].phase.returned == Success ==> Tally(s.hist, Got(s.waiters[w].events[i], w, i)) == 1
      {
        WaitAllGetsEverySignal(acts, s, w, i);
      }
    } else {
      WaitAnyTakesExactlyOne(acts, s, w);
    }
  }

  /** The own steps of one multi-wait: its start, steps on its own record and the events it lists, and if it
      has returned its end. */
  predicate OneWait(own: seq<Action>, w: nat, start: Action, returned: bool) {
    && start.StartWait? && 0 < |own| && own[0] == start
    && (returned ==> 1 < |own| && own[|own| - 1] == FinishWait(w))
    && forall k | 1 <= k < if returned then |own| - 1 else |own| :: WaitStep(w, start.events, own[k])
  }

  lemma OneWaitSoFar(first: Log, log: Log, w: nat, start: Action)
    requires start.StartWait? && OwnSteps(first.pieces) == [start] && GoesOn(w, start.events, first, log)
    ensures OneWait(OwnSteps(log.pieces), w, start, false)
  {
    hide OwnSteps, WaitStep;
  }

  lemma OneWaitDone(log: Log, later: Log, w: nat, start: Action)
    requires OneWait(OwnSteps(log.pieces), w, start, false)
    requires OwnSteps(later.pieces) == OwnSteps(log.pieces) + [FinishWait(w)]
    ensures OneWait(OwnSteps(later.pieces), w, start, true)
  {
    hide OwnSteps, WaitStep;
  }

  /** Lines 287-332: after the scan, until the result is known and the call may end. */
  method WaitAfterScan(lib: EventLib, w: nat, others: seq<seq<Action>>, i: nat, ghost was: Log)
    returns (ok: bool, j: nat, ghost log: Log)
    requires Written(lib, was, others, i) && w < |lib.waiters| && !LastPaused(was.pieces)
    requires
      || lib.waiters[w].phase.Finish?
      || (lib.waiters[w].phase.Scan? && lib.waiters[w].scanned == |lib.waiters[w].events|)
    modifies lib
    ensures Written(lib, log, others, j) && w < |lib.waiters|
    ensures GoesOn(w, old(lib.waiters)[w].events, was, log) && SameCall(old(lib.waiters)[w], lib.waiters[w])
    ensures
      if ok then lib.waiters[w].phase.Finish? && Ready(others, log.pieces)
      else MustWait(lib.Model(), w) && j == |others|
  {
    hide Inv, Runs, Apply, Proper, After, Trace, OwnSteps, Pauses, Acts, Delivered, Idle, Ready, GoesOn;
    hide LastPaused, Satisfied, MustWait, Stuck;
    ghost var evs := lib.waiters[w].events;
    j, log := Gap(lib, WaitCall(w), others, i, was);
    IdleGoesOn(w, evs, was, log);
    if lib.waiters[w].phase.Scan? {
      ghost var mid := log;
      ScanEnds(lib.Model(), w);
      OwnAdded(mid, EndScan(w));
      lib.MayWait(w);
      log := Add(mid, Own(EndScan(w)));
      StepGoesOn(w, evs, was, mid, log, EndScan(w));
      if lib.waiters[w].phase.Check? {
        mid := log;
        ok, j, log := Await(lib, w, others, j, log);
        GoesOnJoin(w, evs, was, mid, log);
        if !ok {
          return;
        }
      }
      mid := log;
      j, log := Gap(lib, WaitCall(w), others, j, log);
      GoesOnJoin(w, evs, was, mid, log);
    }
    ok := true;
  }

  /** Lines 215-348 under any interference. The call's own steps are those of one multi-wait. If the call
      returns: a wait-any ends with index x other than -1 if and only if it received exactly one signal,
      from `evs[x]`, and never received another; a wait-all that returns 0 received exactly one signal for
      each position, and times out if it may not wait; without a timeout a call only returns with success.
      If it does not return, the other threads' steps are used up and it has to wait: for a mutex, or
      asleep for what it has not got. */
  method WaitForMultipleEvents(lib: EventLib, evs: seq<nat>, waitAll: bool, timeout: Timeout, others: seq<seq<Action>>)
    returns (w: nat, returned: Option<Outcome>, waitIndex: int, ghost log: Log)
    requires lib.Valid() && forall e | e in evs :: e < |lib.events| && lib.events[e].alive
    modifies lib
    ensures Written(lib, log, others, Pauses(log.pieces))
    ensures Followed(log, old(lib.trace), old(lib.Model()), returned.Some?)
    ensures OneWait(OwnSteps(log.pieces), w, StartWait(evs, waitAll, timeout), returned.Some?)
    ensures w == |old(lib.waiters)| < |lib.waiters| && lib.waiters[w].events == evs
    ensures returned.None? ==> MustWait(lib.Model(), w)
    ensures lib.waiters[w].waitAll == waitAll && lib.waiters[w].timeout == timeout
    ensures returned.Some? ==>
      && lib.waiters[w].phase == Done(returned.value, waitIndex) && Promised(lib.Model(), w)
      && (!waitAll ==> OnlyGot(lib.Model(), w, evs, waitIndex))
  {
    hide Inv, Runs, Apply, Proper, After, Trace, OwnSteps, Pauses, Acts, Delivered, Idle, Ready, GoesOn;
    hide LastPaused, Satisfied, MustWait, Promised, OnlyGot, OneWait, Stuck;
    returned, waitIndex := None, -1;
    ghost var start, s := StartWait(evs, waitAll, timeout), lib.Model();
    log := NewLog(lib, others);
    ghost var empty := log;
    EntersScanning(s, evs, waitAll, timeout);
    FirstReady(log);
    OwnAdded(log, start);
    w := lib.Enter(evs, waitAll, timeout);
    log := Add(log, Own(start));
    ghost var first := log;
    IdleAtOnce(first);
    IdleGoesOn(w, evs, first, first);
    var ok, j;
    ok, j, log := ScanAll(lib, w, others, 0, log);
    OneWaitSoFar(first, log, w, start);
    if !ok {
      ContinuesFrom(w, evs, first, log);
      return;
    }
    ghost var mid := log;
    ok, j, log := WaitAfterScan(lib, w, others, j, log);
    GoesOnJoin(w, evs, first, mid, log);
    OneWaitSoFar(first, log, w, start);
    ContinuesFrom(w, evs, first, log);
    if !ok {
      return;
    }
    mid := log;
    CallEnds(lib.Model(), w);
    OwnAdded(mid, FinishWait(w));
    lib.Leave(w);
    log := Add(mid, Own(FinishWait(w)));
    OneWaitDone(mid, log, w, start);
    returned, waitIndex := Some(lib.waiters[w].phase.returned), lib.waiters[w].phase.waitIndex;
    ResultsHold(lib.trace, lib.Model(), w);
  }

  lemma FirstReady(log: Log)
    requires log.pieces == []
    ensures Ready(log.others, log.pieces)
  {
  }

  lemma ContinuesFrom(w: nat, evs: seq<nat>, was: Log, log: Log)
    requires GoesOn(w, evs, was, log)
    ensures log.before == was.before && log.start == was.start
  {
    hide OwnSteps, WaitStep;
  }

  // ---------- SetEvent ----------

  /** Waits until the event's mutex is free, as any call that uses the event does. */
  method AwaitEvent(lib: EventLib, e: nat, sleeps: bool, others: seq<seq<Action>>, i: nat, ghost was: Log)
    returns (ok: bool, j: nat, ghost log: Log)
    requires Written(lib, was, others, i) && e < |lib.events| && lib.events[e].alive
    requires LastPaused(was.pieces) ==> Stuck(lib.Model(), UseCall(e, sleeps))
    modifies lib
    ensures Written(lib, log, others, j) && Idle(was, log) && Ready(others, log.pieces)
    ensures e < |lib.events| && lib.events[e].autoReset == old(lib.events)[e].autoReset && lib.events[e].alive
    ensures i <= j && (i < |others| ==> i < j) && (!ok ==> j == |others|) && ok == lib.events[e].holder.Free?
  {
    hide Inv, Runs, Apply, Proper, After, Trace, OwnSteps, Pauses, Acts, Delivered, Idle, Ready, LastPaused;
    ghost var s := lib.Model();
    j, log := Gap(lib, UseCall(e, sleeps), others, i, was);
    while lib.events[e].holder != Free
      invariant Written(lib, log, others, j) && i <= j && (i < |others| ==> i < j)
      invariant Kept(s, UseCall(e, sleeps), lib.Model()) && Idle(was, log) && Ready(others, log.pieces)
      decreases |others| - j
    {
      if j == |others| {
        return false, j, log;
      }
      ghost var m, mid := lib.Model(), log;
      j, log := Gap(lib, UseCall(e, sleeps), others, j, log);
      KeptJoin(s, UseCall(e, sleeps), m, lib.Model());
      IdleJoin(was, mid, log);
    }
    ok := true;
  }

  lemma SetState(s: Sys, e: nat)
    requires Enabled(s, LockSet(e))
    ensures
      Apply(s, LockSet(e)).events
      == s.events[e := s.events[e].(state := true, holder := Setter(s.events[e].state, Drain))]
  {
  }

  /** These own steps came to the log, and among them the call handed its signal over n times. */
  ghost predicate Adds(was: Log, log: Log, e: nat, steps: seq<Action>, n: nat) {
    && Continues(was, log) && OwnSteps(log.pieces) == OwnSteps(was.pieces) + steps
    && Delivered(log.start, e, log.pieces) == Delivered(was.start, e, was.pieces) + n
  }

  lemma AddsNothing(was: Log, log: Log, e: nat)
    requires Idle(was, log)
    ensures Adds(was, log, e, [], 0)
  {
    hide OwnSteps, Delivered;
  }

  lemma AddsJoin(a: Log, b: Log, c: Log, e: nat, steps: seq<Action>, n: nat, more: seq<Action>, k: nat)
    requires Adds(a, b, e, steps, n) && Adds(b, c, e, more, k)
    ensures Adds(a, c, e, steps + more, n + k)
  {
    hide OwnSteps, Delivered;
    assert OwnSteps(a.pieces) + steps + more == OwnSteps(a.pieces) + (steps + more);
  }

  lemma AddsIdle(a: Log, b: Log, c: Log, e: nat, steps: seq<Action>, n: nat)
    requires Adds(a, b, e, steps, n) && Idle(b, c)
    ensures Adds(a, c, e, steps, n)
  {
    hide OwnSteps, Delivered;
  }

  /** One own step after others. */
  lemma AddsStep(a: Log, b: Log, e: nat, steps: seq<Action>, n: nat, act: Action)
    requires Adds(a, b, e, steps, n)
    requires Proper(b.start, b.others, b.pieces) && Ready(b.others, b.pieces) && Enabled(Now(b), act)
    ensures Adds(a, Add(b, Own(act)), e, steps + [act], n + if Delivers(Now(b), e, Own(act)) then 1 else 0)
  {
    hide OwnSteps, Delivered, Proper, Now, Delivers, Ready, Enabled;
    OwnAdded(b, act);
    assert OwnSteps(a.pieces) + steps + [act] == OwnSteps(a.pieces) + (steps + [act]);
  }

  /** The first own step. */
  lemma AddsFirst(a: Log, b: Log, e: nat, act: Action)
    requires Idle(a, b)
    requires Proper(b.start, b.others, b.pieces) && Ready(b.others, b.pieces) && Enabled(Now(b), act)
    ensures Adds(a, Add(b, Own(act)), e, [act], if Delivers(Now(b), e, Own(act)) then 1 else 0)
  {
    hide Idle, Adds, OwnSteps, Delivered, Proper, Now, Delivers, Ready, Enabled;
    AddsNothing(a, b, e);
    AddsStep(a, b, e, [], 0, act);
    assert [] + [act] == [act];
  }

  /** Lines 390 and 458: waits until the next waiter's mutex is free, and takes it. */
  method AwaitWaiter(lib: EventLib, e: nat, others: seq<seq<Action>>, i: nat, ghost was: Log)
    returns (ok: bool, j: nat, ghost log: Log)
    requires Written(lib, was, others, i) && Owned(lib.Model(), e) && !LastPaused(was.pieces)
    requires lib.events[e].holder.at.Drain? && lib.events[e].given < |lib.events[e].waits|
    modifies lib
    ensures Written(lib, log, others, j) && Owned(lib.Model(), e)
    ensures i <= j && HasNext(lib.Model(), lib.events[e])
    ensures Adds(was, log, e, if ok then [LockWaiter(e)] else [], 0) && (ok ==> !LastPaused(log.pieces))
    ensures
      if ok then
        && Enabled(lib.Model(), ServeEntry(e))
        && lib.events[e] == old(lib.events)[e].(holder := Setter(old(lib.events)[e].holder.latched, Serve))
      else
        lib.events[e] == old(lib.events)[e] && Blocked(lib.Model(), Setting(e)) && j == |others|
  {
    hide Inv, Runs, Apply, Proper, After, Trace, OwnSteps, Pauses, Acts, Delivered, Idle, Ready, LastPaused, Adds;
    ghost var s := lib.Model();
    NextExists(s, e);
    j, log := Gap(lib, SetCall(e), others, i, was);
    while !lib.waiters[lib.events[e].waits[lib.events[e].given].waiter].lock.Unlocked?
      invariant Written(lib, log, others, j) && i <= j && Idle(was, log) && Ready(others, log.pieces)
      invariant Kept(s, SetCall(e), lib.Model())
      decreases |others| - j
    {
      if j == |others| {
        AddsNothing(was, log, e);
        return false, j, log;
      }
      ghost var m, mid := lib.Model(), log;
      j, log := Gap(lib, SetCall(e), others, j, log);
      KeptJoin(s, SetCall(e), m, lib.Model());
      IdleJoin(was, mid, log);
    }
    ghost var mid := log;
    LockedState(lib.Model(), e);
    OwnAdded(mid, LockWaiter(e));
    AddsFirst(was, mid, e, LockWaiter(e));
    lib.LockNext(e);
    log := Add(mid, Own(LockWaiter(e)));
    ok := true;
  }

  lemma NextExists(s: Sys, e: nat)
    requires Inv(s) && Owned(s, e) && s.events[e].holder.at.Drain? && s.events[e].given < |s.events[e].waits|
    ensures HasNext(s, s.events[e])
  {
    NamedIsLive(s, e, Out(s.events[e])[0]);
  }

  lemma LockedState(s: Sys, e: nat)
    requires Enabled(s, LockWaiter(e))
    ensures
      var t := Apply(s, LockWaiter(e));
      && t.events == s.events[e := s.events[e].(holder := Setter(s.events[e].holder.latched, Serve))]
      && Enabled(t, ServeEntry(e))
  {
  }

  /** Piece p of the log is where a `SetEvent` took effect, as if at once: it handed its signal to the head of
      the event's queue of live waiters, or kept it with nobody left in the queue. */
  ghost predicate TookEffect(log: Log, p: nat, e: nat) {
    && p < |log.pieces|
    && var m := After(log.start, log.pieces[..p]);
       && e < |Queues(m)|
       && if log.pieces[p] == Own(EndDrain(e)) then Queues(m)[e] == []
          else
            && log.pieces[p] == Own(ServeEntry(e)) && Enabled(m, ServeEntry(e))
            && var op := OpOf(m, ServeEntry(e));
               op.Hand? && op.e == e && Queues(m)[e] != [] && op.x == Queues(m)[e][0]
  }

  lemma EffectStays(was: Log, log: Log, p: nat, e: nat)
    requires TookEffect(was, p, e) && Continues(was, log)
    ensures TookEffect(log, p, e) && log.pieces[p] == was.pieces[p]
  {
    hide Queues, OpOf, Enabled, After;
    assert log.pieces[..p] == was.pieces[..p];
  }

  lemma {:induction false} HandIsEffect(was: Log, e: nat)
    requires Inv(Now(was)) && Enabled(Now(was), ServeEntry(e)) && NextIsLive(Now(was), e)
    ensures TookEffect(Add(was, Own(ServeEntry(e))), |was.pieces|, e)
  {
    FifoStep(Now(was), ServeEntry(e));
    var log := Add(was, Own(ServeEntry(e)));
    assert log.pieces[..|was.pieces|] == was.pieces;
  }

  lemma {:induction false} LatchIsEffect(was: Log, e: nat)
    requires Inv(Now(was)) && Enabled(Now(was), EndDrain(e))
    ensures TookEffect(Add(was, Own(EndDrain(e))), |was.pieces|, e)
  {
    LatchedMeansNobodyWaits(Now(was), e);
    var log := Add(was, Own(EndDrain(e)));
    assert log.pieces[..|was.pieces|] == was.pieces;
  }

  /** The event after a waiter was served, or found to have finished. */
  lemma ServedState(s: Sys, e: nat)
    requires Enabled(s, ServeEntry(e))
    ensures
      var ev := s.events[e];
      var live := NextIsLive(s, e);
      Apply(s, ServeEntry(e)).events == s.events[e := ev.(
        state := if live then !ev.autoReset else ev.state, given := ev.given + 1,
        holder := Setter(ev.holder.latched, if ev.autoReset then Pop(live) else Drain))]
  {
  }

  lemma PoppedState(s: Sys, e: nat)
    requires Enabled(s, PopEntry(e))
    ensures
      var ev := s.events[e];
      Apply(s, PopEntry(e)).events == s.events[e := ev.(waits := ev.waits[1..], given := 0,
        holder := if ev.holder.at.served then Free else Setter(ev.holder.latched, Drain))]
  {
  }

  /** Lines 393-425 and 461-491. */
  method ServeLocked(lib: EventLib, e: nat) returns (served: bool)
    requires lib.Valid() && Enabled(lib.Model(), ServeEntry(e))
    modifies lib
    ensures lib.Valid() && lib.trace == old(lib.trace) + [ServeEntry(e)]
    ensures Enabled(old(lib.Model()), ServeEntry(e)) && served == NextIsLive(old(lib.Model()), e)
    ensures lib.Model() == Apply(old(lib.Model()), ServeEntry(e))
  {
    hide Inv, Runs, Apply;
    served := lib.waiters[lib.events[e].waits[lib.events[e].given].waiter].stillWaiting;
    if served {
      lib.Deliver(e);
    } else {
      lib.Expire(e);
    }
  }

  /** What one round of the loops adds to the call's own steps. */
  function Round(e: nat, auto: bool): seq<Action> {
    if auto then [LockWaiter(e), ServeEntry(e), PopEntry(e)] else [LockWaiter(e), ServeEntry(e)]
  }

  function Rounds(e: nat, auto: bool, n: nat): seq<Action> {
    if n == 0 then [] else Rounds(e, auto, n - 1) + Round(e, auto)
  }

  /** Lines 388-425 and 456-491: waits for the next waiter, and serves it or finds that it has finished. */
  method ServeWaiter(lib: EventLib, e: nat, others: seq<seq<Action>>, i: nat, ghost was: Log)
    returns (ok: bool, served: bool, j: nat, ghost log: Log, ghost p: nat)
    requires Written(lib, was, others, i) && Owned(lib.Model(), e) && !LastPaused(was.pieces)
    requires lib.events[e].holder.at.Drain? && lib.events[e].given < |lib.events[e].waits|
    modifies lib
    ensures Written(lib, log, others, j) && i <= j && e < |lib.events|
    ensures !ok ==> Adds(was, log, e, [], 0) && Blocked(lib.Model(), Setting(e)) && j == |others|
    ensures ok ==> Adds(was, log, e, [LockWaiter(e), ServeEntry(e)], if served then 1 else 0) && !LastPaused(log.pieces)
    ensures ok && served ==> TookEffect(log, p, e) && log.pieces[p] == Own(ServeEntry(e))
    ensures
      var ev := old(lib.events)[e];
      lib.events[e] == if !ok then ev else ev.(
        state := if served then !ev.autoReset else ev.state, given := ev.given + 1,
        holder := Setter(ev.holder.latched, if ev.autoReset then Pop(served) else Drain))
  {
    hide Inv, Runs, Apply, Proper, After, Trace, OwnSteps, Pauses, Acts, Delivered, Idle, Ready, LastPaused, Adds;
    hide TookEffect, Blocked, Continues, Stuck;
    p, served := 0, false;
    ok, j, log := AwaitWaiter(lib, e, others, i, was);
    if !ok {
      return;
    }
    ghost var mid := log;
    j, log := Gap(lib, SetCall(e), others, j, log);
    AddsIdle(was, mid, log, e, [LockWaiter(e)], 0);
    mid := log;
    p := |mid.pieces|;
    ServedState(lib.Model(), e);
    OwnAdded(mid, ServeEntry(e));
    AddsStep(was, mid, e, [LockWaiter(e)], 0, ServeEntry(e));
    served := ServeLocked(lib, e);
    log := Add(mid, Own(ServeEntry(e)));
    assert [LockWaiter(e)] + [ServeEntry(e)] == [LockWaiter(e), ServeEntry(e)];
    if served {
      HandIsEffect(mid, e);
      LastPiece(mid, Own(ServeEntry(e)));
    }
  }

  lemma LastPiece(was: Log, p: Piece)
    ensures Add(was, p).pieces[|was.pieces|] == p
  {
  }

  /** One round of the loop of line 386: the front entry of an auto-reset event. */
  method ServeFront(lib: EventLib, e: nat, others: seq<seq<Action>>, i: nat, ghost was: Log)
    returns (ok: bool, served: bool, j: nat, ghost log: Log, ghost p: nat)
    requires Written(lib, was, others, i) && Owned(lib.Model(), e) && lib.events[e].holder.at.Drain?
    requires lib.events[e].autoReset && lib.events[e].waits != [] && !LastPaused(was.pieces)
    modifies lib
    ensures Written(lib, log, others, j) && i <= j && e < |lib.events| && lib.events[e].autoReset
    ensures !ok ==> Adds(was, log, e, [], 0) && Blocked(lib.Model(), Setting(e)) && j == |others|
    ensures ok ==> Adds(was, log, e, Round(e, true), if served then 1 else 0) && !LastPaused(log.pieces)
    ensures ok && served ==> TookEffect(log, p, e) && log.pieces[p] == Own(ServeEntry(e))
    ensures ok && !served ==>
      && Owned(lib.Model(), e) && lib.events[e].holder.at.Drain?
      && |lib.events[e].waits| < |old(lib.events)[e].waits|
  {
    hide Inv, Runs, Apply, Proper, After, Trace, OwnSteps, Pauses, Acts, Delivered, Idle, Ready, LastPaused, Adds;
    hide TookEffect, Blocked, Continues, Stuck;
    NothingGiven(lib.Model(), e);
    ok, served, j, log, p := ServeWaiter(lib, e, others, i, was);
    if !ok {
      return;
    }
    ghost var handed := log;
    j, log := Gap(lib, SetCall(e), others, j, log);
    AddsIdle(was, handed, log, e, [LockWaiter(e), ServeEntry(e)], if served then 1 else 0);
    ghost var mid := log;
    PoppedState(lib.Model(), e);
    OwnAdded(mid, PopEntry(e));
    AddsStep(was, mid, e, [LockWaiter(e), ServeEntry(e)], if served then 1 else 0, PopEntry(e));
    lib.PopFront(e, served);
    log := Add(mid, Own(PopEntry(e)));
    assert [LockWaiter(e), ServeEntry(e)] + [PopEntry(e)] == Round(e, true);
    if served {
      EffectStaysOn(handed, mid, log, p, e);
    }
  }

  lemma EffectStaysOn(was: Log, mid: Log, log: Log, p: nat, e: nat)
    requires TookEffect(was, p, e) && Idle(was, mid) && Continues(mid, log)
    ensures TookEffect(log, p, e) && log.pieces[p] == was.pieces[p]
  {
    hide TookEffect, OwnSteps, Delivered;
    EffectStays(was, mid, p, e);
    EffectStays(mid, log, p, e);
  }

  lemma NothingGiven(s: Sys, e: nat)
    requires Inv(s) && Owned(s, e) && s.events[e].holder.at.Drain?
    ensures s.events[e].given <= |s.events[e].waits| && (s.events[e].autoReset ==> s.events[e].given == 0)
  {
    assert EventOk(s, e);
  }

  /** Lines 383-437: the loop over the entries of an auto-reset event. */
  method ServeAuto(lib: EventLib, e: nat, others: seq<seq<Action>>, i: nat, ghost was: Log)
    returns (ok: bool, served: bool, j: nat, ghost log: Log, ghost rounds: nat, ghost p: nat)
    requires Written(lib, was, others, i) && Owned(lib.Model(), e) && lib.events[e].holder.at.Drain?
    requires lib.events[e].autoReset && !LastPaused(was.pieces)
    modifies lib
    ensures Written(lib, log, others, j) && i <= j && e < |lib.events| && lib.events[e].autoReset
    ensures Adds(was, log, e, Rounds(e, true, rounds), if ok && served then 1 else 0)
    ensures !ok ==> Blocked(lib.Model(), Setting(e)) && j == |others|
    ensures ok ==> !LastPaused(log.pieces)
    ensures ok && served ==> TookEffect(log, p, e) && log.pieces[p] == Own(ServeEntry(e))
    ensures ok && !served ==>
      Owned(lib.Model(), e) && lib.events[e].holder.at.Drain? && lib.events[e].given == |lib.events[e].waits|
  {
    hide Inv, Runs, Apply, Proper, After, Trace, OwnSteps, Pauses, Acts, Delivered, Idle, Ready, LastPaused, Adds;
    hide TookEffect, Blocked, Continues, Stuck;
    ok, served, j, log, rounds, p := true, false, i, was, 0, 0;
    IdleAtOnce(was);
    AddsNothing(was, was, e);
    while lib.events[e].waits != []
      invariant Written(lib, log, others, j) && i <= j && !LastPaused(log.pieces)
      invariant Owned(lib.Model(), e) && lib.events[e].holder.at.Drain? && lib.events[e].autoReset && !served
      invariant Adds(was, log, e, Rounds(e, true, rounds), 0)
      decreases |lib.events[e].waits|
    {
      ghost var mid := log;
      ok, served, j, log, p := ServeFront(lib, e, others, j, log);
      if !ok {
        AddsJoin(was, mid, log, e, Rounds(e, true, rounds), 0, [], 0);
        assert Rounds(e, true, rounds) + [] == Rounds(e, true, rounds);
        return;
      }
      AddsJoin(was, mid, log, e, Rounds(e, true, rounds), 0, Round(e, true), if served then 1 else 0);
      rounds := rounds + 1;
      if served {
        return;
      }
    }
    NothingGiven(lib.Model(), e);
    ok := true;
  }

  /** Lines 454-496: the loop over the entries of a manual-reset event. */
  method ServeAll(lib: EventLib, e: nat, others: seq<seq<Action>>, i: nat, ghost was: Log)
    returns (ok: bool, j: nat, ghost log: Log, ghost rounds: nat, ghost handed: nat)
    requires Written(lib, was, others, i) && Owned(lib.Model(), e) && lib.events[e].holder.at.Drain?
    requires !lib.events[e].autoReset && !LastPaused(was.pieces)
    modifies lib
    ensures Written(lib, log, others, j) && i <= j && e < |lib.events| && !lib.events[e].autoReset
    ensures Adds(was, log, e, Rounds(e, false, rounds), handed)
    ensures
      if !ok then Blocked(lib.Model(), Setting(e)) && j == |others|
      else
        && Owned(lib.Model(), e) && lib.events[e].holder.at.Drain? && lib.events[e].given == |lib.events[e].waits|
        && !LastPaused(log.pieces)
  {
    hide Inv, Runs, Apply, Proper, After, Trace, OwnSteps, Pauses, Acts, Delivered, Idle, Ready, LastPaused, Adds;
    hide Blocked, Continues, Stuck;
    ok, j, log, rounds, handed := true, i, was, 0, 0;
    IdleAtOnce(was);
    AddsNothing(was, was, e);
    NothingGiven(lib.Model(), e);
    while lib.events[e].given < |lib.events[e].waits|
      invariant Written(lib, log, others, j) && i <= j && !LastPaused(log.pieces)
      invariant Owned(lib.Model(), e) && lib.events[e].holder.at.Drain? && !lib.events[e].autoReset
      invariant lib.events[e].given <= |lib.events[e].waits|
      invariant Adds(was, log, e, Rounds(e, false, rounds), handed)
      decreases |lib.events[e].waits| - lib.events[e].given
    {
      ghost var mid, p := log, 0;
      var served;
      ok, served, j, log, p := ServeWaiter(lib, e, others, j, log);
      if !ok {
        AddsJoin(was, mid, log, e, Rounds(e, false, rounds), handed, [], 0);
        assert Rounds(e, false, rounds) + [] == Rounds(e, false, rounds);
        return;
      }
      AddsJoin(was, mid, log, e, Rounds(e, false, rounds), handed, Round(e, false), if served then 1 else 0);
      rounds, handed := rounds + 1, handed + if served then 1 else 0;
    }
    ok := true;
  }

  /** The own steps of one `SetEvent` that has returned: it took effect once, at piece p. An auto-reset event
      was handed to one waiter, which ended the call, or to none and then kept. */
  ghost predicate OneSet(log: Log, e: nat, auto: bool, rounds: nat, served: bool, p: nat) {
    && OwnSteps(log.pieces) == SetSteps(e, auto, rounds, !served)
    && TookEffect(log, p, e) && log.pieces[p] == Own(if served then ServeEntry(e) else EndDrain(e))
    && (served ==> auto) && (auto ==> Delivered(log.start, e, log.pieces) == if served then 1 else 0)
  }

  function SetSteps(e: nat, auto: bool, rounds: nat, kept: bool): seq<Action> {
    var start := [LockSet(e)] + Rounds(e, auto, rounds);
    if kept then start + [EndDrain(e)] else start
  }

  /** The own steps of one `SetEvent` that cannot go on: it waits for the event's mutex or, still with its
      signal if that is for one waiter only, for a waiter's. */
  ghost predicate SetWaits(s: Sys, log: Log, e: nat, auto: bool, rounds: nat) {
    || (OwnSteps(log.pieces) == [] && e < |s.events| && !s.events[e].holder.Free?)
    || (&& OwnSteps(log.pieces) == SetSteps(e, auto, rounds, false) && Blocked(s, Setting(e))
        && (auto ==> Delivered(log.start, e, log.pieces) == 0))
  }

  /** Lines 375-507 under any interference, while nobody destroys the event. The call's own steps are those
      of one `SetEvent`: a call that returns took effect at one moment between its start and its end, and
      only then; on a manual-reset event it kept its signal with nobody left waiting. A call that does not
      return waits for a mutex when the other threads' steps are used up. */
  method SetEvent(lib: EventLib, e: nat, others: seq<seq<Action>>)
    returns (finished: bool, ghost log: Log, ghost rounds: nat, ghost served: bool, ghost p: nat)
    requires lib.Valid() && e < |lib.events| && lib.events[e].alive
    modifies lib
    ensures Written(lib, log, others, Pauses(log.pieces))
    ensures Followed(log, old(lib.trace), old(lib.Model()), finished)
    ensures e < |lib.events| && lib.events[e].autoReset == old(lib.events)[e].autoReset
    ensures
      if finished then OneSet(log, e, lib.events[e].autoReset, rounds, served, p)
      else SetWaits(lib.Model(), log, e, lib.events[e].autoReset, rounds)
  {
    hide Inv, Runs, Apply, Proper, After, Trace, OwnSteps, Pauses, Acts, Delivered, Idle, Ready, LastPaused, Adds;
    hide TookEffect, Blocked, Continues, Stuck, Rounds;
    rounds, served, p := 0, false, 0;
    log := NewLog(lib, others);
    ghost var empty := log;
    var ok, i;
    ok, i, log := AwaitEvent(lib, e, false, others, 0, log);
    AddsNothing(empty, log, e);
    AddsMeans(empty, log, e, [], 0);
    if !ok {
      return false, log, rounds, served, p;
    }
    ghost var mid := log;
    SetState(lib.Model(), e);
    OwnAdded(mid, LockSet(e));
    AddsFirst(empty, mid, e, LockSet(e));
    lib.LockToSet(e);
    log := Add(mid, Own(LockSet(e)));
    ghost var first := log;
    if lib.events[e].autoReset {
      var handed;
      ok, handed, i, log, rounds, p := ServeAuto(lib, e, others, i, log);
      served := handed;
      AddsJoin(empty, first, log, e, [LockSet(e)], 0, Rounds(e, true, rounds), if ok && served then 1 else 0);
      AddsMeans(empty, log, e, [LockSet(e)] + Rounds(e, true, rounds), if ok && served then 1 else 0);
      if !ok || handed {
        return ok, log, rounds, served, p;
      }
    } else {
      ghost var handed;
      ok, i, log, rounds, handed := ServeAll(lib, e, others, i, log);
      AddsJoin(empty, first, log, e, [LockSet(e)], 0, Rounds(e, false, rounds), handed);
      AddsMeans(empty, log, e, [LockSet(e)] + Rounds(e, false, rounds), handed);
      if !ok {
        return false, log, rounds, served, p;
      }
    }
    ghost var auto, handed := lib.events[e].autoReset, Delivered(log.start, e, log.pieces);
    mid := log;
    i, log := Gap(lib, SetCall(e), others, i, log);
    AddsIdle(empty, mid, log, e, [LockSet(e)] + Rounds(e, auto, rounds), handed);
    mid := log;
    p := |mid.pieces|;
    LatchedState(lib.Model(), e);
    OwnAdded(mid, EndDrain(e));
    AddsStep(empty, mid, e, [LockSet(e)] + Rounds(e, auto, rounds), handed, EndDrain(e));
    LatchIsEffect(mid, e);
    lib.Latch(e);
    log := Add(mid, Own(EndDrain(e)));
    AddsMeans(empty, log, e, [LockSet(e)] + Rounds(e, auto, rounds) + [EndDrain(e)], handed);
    finished := true;
  }

  lemma {:induction false} AddsMeans(empty: Log, log: Log, e: nat, steps: seq<Action>, n: nat)
    requires Adds(empty, log, e, steps, n) && OwnSteps(empty.pieces) == []
    requires Delivered(empty.start, e, empty.pieces) == 0
    ensures OwnSteps(log.pieces) == steps && Delivered(log.start, e, log.pieces) == n
    ensures log.before == empty.before && log.start == empty.start
  {
    hide OwnSteps, Delivered;
  }

  lemma LatchedState(s: Sys, e: nat)
    requires Owned(s, e) && s.events[e].holder.at.Drain? && s.events[e].given == |s.events[e].waits|
    ensures Enabled(s, EndDrain(e)) && |Apply(s, EndDrain(e)).events| == |s.events|
    ensures Apply(s, EndDrain(e)).events[e].autoReset == s.events[e].autoReset
  {
  }

  lemma {:induction false} RoundsDoNotSet(e: nat, auto: bool, n: nat)
    ensures Occurrences(Rounds(e, auto, n), LockSet(e)) == 0
  {
    hide Occurrences;
    if n == 0 {
      NoOccurrence(LockSet(e));
    } else {
      RoundsDoNotSet(e, auto, n - 1);
      OccurrencesJoin(Rounds(e, auto, n - 1), Round(e, auto), LockSet(e));
      RoundDoesNotSet(e, auto);
    }
  }

  lemma RoundDoesNotSet(e: nat, auto: bool)
    ensures Occurrences(Round(e, auto), LockSet(e)) == 0
  {
    var r := Round(e, auto);
    assert forall k | 0 <= k < |r| :: r[k] != LockSet(e);
    NoneOccurs(r, LockSet(e));
  }

  lemma {:induction false} NoneOccurs(acts: seq<Action>, a: Action)
    requires forall k | 0 <= k < |acts| :: acts[k] != a
    ensures Occurrences(acts, a) == 0
  {
    if acts != [] {
      NoneOccurs(acts[..|acts| - 1], a);
    }
  }

  /** A call of `SetEvent` counts once in the ledger of its event, besides the calls of others. */
  lemma {:induction false} SetCountsOnce(log: Log, e: nat, auto: bool, rounds: nat, served: bool, p: nat)
    requires Proper(log.start, log.others, log.pieces) && OneSet(log, e, auto, rounds, served, p)
    ensures
      Tally(Now(log).hist, Set(e))
      == Tally(log.start.hist, Set(e)) + 1 + Occurrences(OthersSteps(log.start, log.pieces), LockSet(e))
  {
    hide Proper, TookEffect, Rounds, Occurrences, Tally, Delivered, OwnSteps, After, Trace, OthersSteps, Runs;
    LogIsRun(log.start, log.others, log.pieces);
    SetsCounted(log.start, Trace(log.start, log.pieces), Now(log), e);
    OwnAndOthers(log.start, log.pieces, LockSet(e));
    RoundsDoNotSet(e, auto, rounds);
    OneOccurrence(LockSet(e), LockSet(e));
    OccurrencesJoin([LockSet(e)], Rounds(e, auto, rounds), LockSet(e));
    OneOccurrence(EndDrain(e), LockSet(e));
    OccurrencesJoin([LockSet(e)] + Rounds(e, auto, rounds), [EndDrain(e)], LockSet(e));
  }

  // ---------- Single waits and resets ----------

  /** The last piece of the log is this own step, which was possible then; there is no other. */
  ghost predicate OneStep(log: Log, a: Action) {
    && OwnSteps(log.pieces) == [a] && log.pieces != [] && log.pieces[|log.pieces| - 1] == Own(a)
    && Enabled(After(log.start, log.pieces[..|log.pieces| - 1]), a)
  }

  lemma OnlyStep(empty: Log, log: Log, a: Action)
    requires Idle(empty, log) && OwnSteps(empty.pieces) == []
    requires Proper(log.start, log.others, log.pieces) && Ready(log.others, log.pieces) && Enabled(Now(log), a)
    ensures OneStep(Add(log, Own(a)), a)
  {
    hide Delivered, Proper, Ready, Enabled, OwnSteps, After;
    OwnAdded(log, a);
    var later := Add(log, Own(a));
    assert later.pieces[..|log.pieces|] == log.pieces && later.pieces[|log.pieces|] == Own(a);
    assert OwnSteps(log.pieces) + [a] == [a];
  }

  lemma IdleSince(was: Log, log: Log)
    requires Idle(was, log)
    ensures log.before == was.before && log.start == was.start && OwnSteps(log.pieces) == OwnSteps(was.pieces)
  {
    hide OwnSteps, Delivered;
  }

  /** Lines 509-520 under any interference: a call that returns cleared the state in its one step. */
  method ResetEvent(lib: EventLib, e: nat, others: seq<seq<Action>>) returns (finished: bool, ghost log: Log)
    requires lib.Valid() && e < |lib.events| && lib.events[e].alive
    modifies lib
    ensures Written(lib, log, others, Pauses(log.pieces))
    ensures Followed(log, old(lib.trace), old(lib.Model()), finished)
    ensures e < |lib.events|
    ensures
      if finished then OneStep(log, Action.ResetEvent(e)) && !lib.events[e].state
      else OwnSteps(log.pieces) == [] && !lib.events[e].holder.Free?
  {
    hide Inv, Runs, Apply, Proper, After, Trace, OwnSteps, Pauses, Acts, Delivered, Idle, Ready, LastPaused, OneStep;
    log := NewLog(lib, others);
    ghost var empty := log;
    var i;
    finished, i, log := AwaitEvent(lib, e, false, others, 0, log);
    IdleSince(empty, log);
    if finished {
      ghost var mid := log;
      ResetState(lib.Model(), e);
      OwnAdded(mid, Action.ResetEvent(e));
      OnlyStep(empty, mid, Action.ResetEvent(e));
      lib.ResetEvent(e);
      log := Add(mid, Own(Action.ResetEvent(e)));
    }
  }

  lemma ResetState(s: Sys, e: nat)
    requires e < |s.events| && s.events[e].alive && s.events[e].holder.Free?
    ensures Enabled(s, Action.ResetEvent(e))
  {
  }

  /** The `do` loop of line 149, entered when the event is not signalled: sleeps at least once, until the
      event's mutex is free again, and then goes on sleeping unless the event is signalled or the timer has
      expired. */
  method SleepOn(lib: EventLib, e: nat, timeout: Timeout, others: seq<seq<Action>>, i: nat, ghost was: Log)
    returns (ok: bool, timedOut: bool, j: nat, ghost log: Log)
    requires Written(lib, was, others, i) && e < |lib.events| && lib.events[e].alive && !lib.events[e].state
    modifies lib
    ensures Written(lib, log, others, j) && Idle(was, log) && Ready(others, log.pieces) && e < |lib.events|
    ensures lib.events[e].alive && (timedOut ==> timeout.Finite?)
    ensures
      if ok then lib.events[e].holder.Free? && (timedOut || lib.events[e].state)
      else j == |others| && Stuck(lib.Model(), UseCall(e, true))
  {
    hide Inv, Runs, Apply, Proper, After, Trace, OwnSteps, Pauses, Acts, Delivered, Idle, Ready, LastPaused;
    ok, timedOut, j, log := true, false, i, was;
    IdleAtOnce(was);
    while true
      invariant Written(lib, log, others, j) && i <= j && e < |lib.events| && lib.events[e].alive
      invariant !lib.events[e].state && Idle(was, log)
      decreases |others| - j
    {
      if j == |others| {
        UsedUpIsReady(log);
        return false, false, j, log;
      }
      ghost var mid := log;
      ok, j, log := AwaitEvent(lib, e, true, others, j, log);
      IdleJoin(was, mid, log);
      if !ok {
        return false, false, j, log;
      }
      timedOut := false;
      if timeout.Finite? {
        timedOut := *;
      }
      if timedOut || lib.events[e].state {
        return true, timedOut, j, log;
      }
    }
  }

  lemma UsedUpIsReady(log: Log)
    requires Pauses(log.pieces) == |log.others|
    ensures Ready(log.others, log.pieces)
  {
  }

  /** After p pieces the event was locked or not signalled; if `asleep`, then it was not signalled. */
  predicate Missed(log: Log, p: nat, e: nat, asleep: bool) {
    && p <= |log.pieces|
    && var m := After(log.start, log.pieces[..p]);
       e < |m.events| && (!m.events[e].state || (!asleep && !m.events[e].holder.Free?))
  }

  lemma MissedNow(was: Log, log: Log, e: nat, asleep: bool)
    requires e < |Now(was).events| && Idle(was, log)
    requires !Now(was).events[e].state || (!asleep && !Now(was).events[e].holder.Free?)
    ensures Missed(log, |was.pieces|, e, asleep)
  {
    hide OwnSteps, Delivered, After;
    assert log.pieces[..|was.pieces|] == was.pieces;
  }

  /** Lines 126-206 under any interference: success means that the event was signalled at the moment of the
      call's one step and was taken. A timeout takes no step; it only comes with a time limit, with a zero one
      only if at some moment of the call the event was locked or not signalled, with another one only if at
      some moment it was not signalled. A call that does not return waits for the mutex, or for the signal,
      when the other threads' steps are used up. */
  method WaitForEvent(lib: EventLib, e: nat, timeout: Timeout, others: seq<seq<Action>>)
    returns (r: Option<Outcome>, ghost log: Log, ghost p: nat)
    requires lib.Valid() && e < |lib.events| && lib.events[e].alive
    modifies lib
    ensures Written(lib, log, others, Pauses(log.pieces))
    ensures Followed(log, old(lib.trace), old(lib.Model()), r.Some?)
    ensures e < |lib.events|
    ensures if r == Some(Success) then OneStep(log, TakeSingle(e)) else OwnSteps(log.pieces) == []
    ensures r == Some(TimedOut) ==> !timeout.Infinite? && Missed(log, p, e, timeout.Finite?)
    ensures r.None? ==> !timeout.Zero? && Stuck(lib.Model(), UseCall(e, true))
  {
    hide Inv, Runs, Apply, Proper, After, Trace, OwnSteps, Pauses, Acts, Delivered, Idle, Ready, LastPaused, OneStep;
    hide Missed;
    log, p := NewLog(lib, others), 0;
    ghost var empty := log;
    var i;
    if timeout.Zero? {
      i, log := Gap(lib, UseCall(e, true), others, 0, log);
      IdleSince(empty, log);
      if lib.events[e].holder != Free || !lib.events[e].state {
        p := |log.pieces|;
        IdleAtOnce(log);
        MissedNow(log, log, e, false);
        return Some(TimedOut), log, p;
      }
    } else {
      var ok, timedOut;
      ok, i, log := AwaitEvent(lib, e, true, others, 0, log);
      IdleSince(empty, log);
      if !ok {
        return None, log, p;
      }
      if !lib.events[e].state {
        ghost var mid := log;
        p := |mid.pieces|;
        ghost var m := lib.Model();
        ok, timedOut, i, log := SleepOn(lib, e, timeout, others, i, log);
        IdleJoin(empty, mid, log);
        IdleSince(empty, log);
        if !ok {
          return None, log, p;
        }
        if timedOut {
          MissedNow(mid, log, e, true);
          return Some(TimedOut), log, p;
        }
      }
    }
    ghost var mid := log;
    TakenState(lib.Model(), e);
    OwnAdded(mid, TakeSingle(e));
    OnlyStep(empty, mid, TakeSingle(e));
    lib.Take(e);
    log := Add(mid, Own(TakeSingle(e)));
    r := Some(Success);
  }

  lemma TakenState(s: Sys, e: nat)
    requires e < |s.events| && s.events[e].alive && s.events[e].holder.Free? && s.events[e].state
    ensures Enabled(s, TakeSingle(e)) && |Apply(s, TakeSingle(e)).events| == |s.events|
  {
  }

  // ---------- DestroyEvent ----------

  /** The steps of a clean-up of n entries, of which it could not lock the waiters of `skipped`. */
  predicate Tries(e: nat, steps: seq<Action>, n: nat, skipped: nat) {
    && |steps| == n && (forall k | 0 <= k < n :: steps[k] == SweepEntry(e, true) || steps[k] == SweepEntry(e, false))
    && Occurrences(steps, SweepEntry(e, true)) == skipped
  }

  lemma OneMoreTry(e: nat, steps: seq<Action>, n: nat, skipped: nat, busy: bool)
    requires Tries(e, steps, n, skipped)
    ensures Tries(e, steps + [SweepEntry(e, busy)], n + 1, if busy then skipped + 1 else skipped)
  {
    assert (steps + [SweepEntry(e, busy)])[..n] == steps;
  }

  /** The clean-up of line 359 under interference: one step for each entry; `skipped` counts the waiters it
      could not lock. */
  method CleanUp(lib: EventLib, e: nat, others: seq<seq<Action>>, i: nat, ghost was: Log)
    returns (skipped: nat, j: nat, ghost log: Log, ghost steps: seq<Action>)
    requires Written(lib, was, others, i) && e < |lib.events| && Cleaning(lib.Model(), e, 0)
    requires !LastPaused(was.pieces)
    modifies lib
    ensures Written(lib, log, others, j) && e < |lib.events| && Ready(others, log.pieces)
    ensures Adds(was, log, e, steps, 0) && Tries(e, steps, |old(lib.events)[e].waits|, skipped)
    ensures Cleaning(lib.Model(), e, skipped) && |lib.events[e].waits| == skipped
    ensures old(Alone(lib.Model(), e)) ==> skipped == 0
  {
    hide Inv, Runs, Apply, Enabled, Alone, InUse, Proper, After, Trace, OwnSteps, Pauses, Acts, Delivered, Idle, Ready;
    hide LastPaused, Adds, Tries, Stuck, Occurrences;
    ghost var s, alone := lib.Model(), Alone(lib.Model(), e);
    skipped, steps := 0, [];
    NoTries(e);
    j, log := Gap(lib, DestroyCall(e, true), others, i, was);
    AddsNothing(was, log, e);
    ListBounds(lib.Model(), e);
    while lib.events[e].holder.next < |lib.events[e].waits|
      invariant Written(lib, log, others, j) && Ready(others, log.pieces)
      invariant Cleaning(lib.Model(), e, skipped) && skipped <= |lib.events[e].waits|
      invariant Adds(was, log, e, steps, 0)
      invariant |steps| + |lib.events[e].waits| == |s.events[e].waits| + skipped && Tries(e, steps, |steps|, skipped)
      invariant alone ==> skipped == 0 && Alone(lib.Model(), e)
      decreases |lib.events[e].waits| - lib.events[e].holder.next
    {
      ghost var m, mid := lib.Model(), log;
      var busy := SweepStep(lib, e);
      OwnAdded(mid, SweepEntry(e, busy));
      AddsStep(was, mid, e, steps, 0, SweepEntry(e, busy));
      log := Add(mid, Own(SweepEntry(e, busy)));
      CleaningStep(m, e, skipped, SweepEntry(e, busy));
      SkipEffect(m, e, skipped, busy);
      if alone {
        NeverFails(m, e, skipped);
        AloneKept(m, SweepEntry(e, busy), e);
      }
      OneMoreTry(e, steps, |steps|, skipped, busy);
      skipped, steps := if busy then skipped + 1 else skipped, steps + [SweepEntry(e, busy)];
      mid := log;
      j, log := Gap(lib, DestroyCall(e, true), others, j, log);
      AddsIdle(was, mid, log, e, steps, 0);
    }
  }

  lemma NoTries(e: nat)
    ensures Tries(e, [], 0, 0)
  {
  }

  lemma ListBounds(s: Sys, e: nat)
    requires Inv(s) && e < |s.events| && s.events[e].holder.Destroyer?
    ensures s.events[e].holder.next <= |s.events[e].waits|
  {
    assert EventOk(s, e);
  }

  /** The own steps of one `DestroyEvent` that has returned; piece p is where it got the mutex, and it looked
      at each entry there was once. */
  predicate OneDestroy(log: Log, e: nat, skipped: nat, p: nat, steps: seq<Action>) {
    && OwnSteps(log.pieces) == [LockDestroy(e)] + steps + [EndDestroy(e)]
    && p < |log.pieces| && log.pieces[p] == Own(LockDestroy(e))
    && var m := After(log.start, log.pieces[..p]);
       e < |m.events| && Tries(e, steps, |m.events[e].waits|, skipped)
  }

  lemma GotMutex(was: Log, log: Log, e: nat, skipped: nat, steps: seq<Action>)
    requires Continues(Add(was, Own(LockDestroy(e))), log) && e < |Now(was).events|
    requires Tries(e, steps, |Now(was).events[e].waits|, skipped)
    requires OwnSteps(log.pieces) == [LockDestroy(e)] + steps + [EndDestroy(e)]
    ensures OneDestroy(log, e, skipped, |was.pieces|, steps)
  {
    hide OwnSteps, Tries, After;
    LastPiece(was, Own(LockDestroy(e)));
    assert log.pieces[..|was.pieces|] == was.pieces;
  }

  /** Lines 352-373 under any interference, called while no running call lists the event, and none starts
      to. The call's own steps are those of one `DestroyEvent`: the event is deleted with one entry for each
      waiter that could not be locked, and with none if no waiter with an entry there has one at another
      event that stirs. A call that does not return waits for the event's mutex. */
  method DestroyEvent(lib: EventLib, e: nat, others: seq<seq<Action>>)
    returns (finished: bool, skipped: nat, ghost log: Log, ghost p: nat, ghost steps: seq<Action>)
    requires lib.Valid() && e < |lib.events| && lib.events[e].alive && !InUse(lib.Model(), e)
    modifies lib
    ensures Written(lib, log, others, Pauses(log.pieces))
    ensures Followed(log, old(lib.trace), old(lib.Model()), finished)
    ensures e < |lib.events|
    ensures
      if finished then
        && OneDestroy(log, e, skipped, p, steps)
        && !lib.events[e].alive && lib.events[e].holder.Free? && |lib.events[e].waits| == skipped
      else OwnSteps(log.pieces) == [] && !lib.events[e].holder.Free?
    ensures finished && old(Alone(lib.Model(), e)) ==> skipped == 0
  {
    hide Inv, Runs, Apply, Alone, InUse, Cleaning, Proper, After, Trace, OwnSteps, Pauses, Acts, Delivered, Idle, Ready;
    hide LastPaused, Adds, Tries, OneDestroy, Continues;
    ghost var s := lib.Model();
    skipped, p, steps := 0, 0, [];
    log := NewLog(lib, others);
    ghost var empty := log;
    var i;
    i, log := Gap(lib, DestroyCall(e, false), others, 0, log);
    while lib.events[e].holder != Free
      invariant Written(lib, log, others, i) && Kept(s, DestroyCall(e, false), lib.Model())
      invariant Idle(empty, log) && Ready(others, log.pieces)
      decreases |others| - i
    {
      if i == |others| {
        IdleSince(empty, log);
        return false, skipped, log, p, steps;
      }
      ghost var m, mid := lib.Model(), log;
      i, log := Gap(lib, DestroyCall(e, false), others, i, log);
      KeptJoin(s, DestroyCall(e, false), m, lib.Model());
      IdleJoin(empty, mid, log);
    }
    ghost var m, got := lib.Model(), log;
    p := |got.pieces|;
    DestroyStarts(m, e);
    OwnAdded(got, LockDestroy(e));
    AddsFirst(empty, got, e, LockDestroy(e));
    lib.BeginDestroy(e);
    log := Add(got, Own(LockDestroy(e)));
    CleaningStarts(m, e);
    if Alone(m, e) {
      AloneKept(m, LockDestroy(e), e);
    }
    ghost var first := log;
    skipped, i, log, steps := CleanUp(lib, e, others, i, log);
    AddsJoin(empty, first, log, e, [LockDestroy(e)], 0, steps, 0);
    ghost var mid := log;
    CleanedUp(lib.Model(), e, skipped);
    OwnAdded(mid, EndDestroy(e));
    AddsStep(empty, mid, e, [LockDestroy(e)] + steps, 0, EndDestroy(e));
    lib.Delete(e);
    log := Add(mid, Own(EndDestroy(e)));
    AddsMeans(empty, log, e, [LockDestroy(e)] + steps + [EndDestroy(e)], 0);
    AddsContinues(first, mid, log, e, steps);
    GotMutex(got, log, e, skipped, steps);
    finished := true;
  }

  lemma AddsContinues(a: Log, b: Log, c: Log, e: nat, steps: seq<Action>)
    requires Adds(a, b, e, steps, 0) && Continues(b, c)
    ensures Continues(a, c)
  {
    hide OwnSteps, Delivered;
  }

  lemma DestroyStarts(s: Sys, e: nat)
    requires e < |s.events| && s.events[e].alive && s.events[e].holder.Free? && !InUse(s, e)
    ensures Enabled(s, LockDestroy(e))
    ensures Apply(s, LockDestroy(e)).events == s.events[e := s.events[e].(holder := Destroyer(0), alive := false)]
  {
    hide InUse;
  }

  lemma CleanedUp(s: Sys, e: nat, k: nat)
    requires e < |s.events| && Cleaning(s, e, k) && |s.events[e].waits| == k
    ensures Enabled(s, EndDestroy(e))
    ensures Apply(s, EndDestroy(e)).events == s.events[e := s.events[e].(holder := Free)] && !s.events[e].alive
  {
  }
}
