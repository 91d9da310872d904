/** The condition variables of multi-waits: `SetEvent` signals a waiter (lines 428 and 494) only after it
    has released that waiter's mutex. Here the signal is a step of its own, and it wakes only who sleeps. */
module PeventsSignals {
  import opened Pevents
  import opened PeventsInvariant
  import opened PeventsPatch
  import opened PeventsSteps
  import T = PeventsLogs

  /** `owed`: for each event whose setter has released a waiter's mutex and not signalled yet, the entry it
      served. `notified`: the sleepers that have been signalled and have not run yet. */
  datatype Machine = Machine(sys: Sys, owed: map<nat, Info>, notified: set<nat>)

  datatype Act = Step(a: Action) | Signal(e: nat)

  const IDLE := Machine(Init(), map[], {})

  predicate SetterStep(a: Action) {
    a.LockWaiter? || a.ServeEntry? || a.PopEntry? || a.EndDrain?
  }

  /** The step gives a signal to a call that still waits. */
  predicate Hands(s: Sys, a: Action)
    requires Enabled(s, a)
  {
    a.ServeEntry? && s.waiters[s.events[a.e].waits[s.events[a.e].given].waiter].stillWaiting
  }

  predicate CanDo(m: Machine, act: Act) {
    match act
    case Step(a) => Enabled(m.sys, a) && (SetterStep(a) ==> a.e !in m.owed)
    case Signal(e) => e in m.owed
  }

  predicate Sleeps(s: Sys, w: nat) {
    w < |s.waiters| && s.waiters[w].phase.Asleep?
  }

  /** A condition variable has no memory: falling asleep and waking up forget earlier signals. */
  function Do(m: Machine, act: Act): Machine
    requires CanDo(m, act)
  {
    match act
    case Step(a) =>
      Machine(
        Apply(m.sys, a),
        if Hands(m.sys, a) then m.owed[a.e := m.sys.events[a.e].waits[m.sys.events[a.e].given]] else m.owed,
        if a.CheckDone? || a.Wake? then m.notified - {a.w} else m.notified)
    case Signal(e) =>
      var v := m.owed[e].waiter;
      m.(owed := m.owed - {e}, notified := if Sleeps(m.sys, v) then m.notified + {v} else m.notified)
  }

  ghost predicate Goes(m: Machine, acts: seq<Act>, t: Machine)
    decreases |acts|
  {
    if acts == [] then t == m
    else CanDo(m, acts[0]) && Goes(Do(m, acts[0]), acts[1..], t)
  }

  // ---------- What every step keeps ----------

  /** A sleeper that has what it waits for has been signalled, or is about to be. */
  ghost predicate WakeUpComes(m: Machine, w: nat) {
    Sleeps(m.sys, w) && Satisfied(m.sys.waiters[w]) ==>
      w in m.notified || exists e :: e in m.owed && m.owed[e].waiter == w
  }

  /** Who is owed a signal: the entry of a call that may wait; its event is still being set; and if the call
      is a wait-any, its other entries at this event are still registered. */
  predicate OwedOk(s: Sys, e: nat, x: Info) {
    && e < |s.events| && s.events[e].holder.Setter? && !s.events[e].holder.at.Serve?
    && x.waiter < |s.waiters|
    && var wt := s.waiters[x.waiter];
       && !wt.timeout.Zero? && x.index < |wt.events| && wt.events[x.index] == e
       && (!wt.waitAll ==> forall j | 0 <= j < |wt.events| && j != x.index && wt.events[j] == e ::
             Info(x.waiter, j) in Out(s.events[e]))
  }

  ghost predicate MachineOk(m: Machine) {
    && Inv(m.sys)
    && (forall e | e in m.owed :: OwedOk(m.sys, e, m.owed[e]))
    && (forall w: nat :: WakeUpComes(m, w))
  }

  lemma SameCallKept(s: Sys, a: Action, v: nat)
    requires Enabled(s, a) && v < |s.waiters|
    ensures v < |Apply(s, a).waiters|
    ensures
      var was, wt := s.waiters[v], Apply(s, a).waiters[v];
      wt.events == was.events && wt.waitAll == was.waitAll && wt.timeout == was.timeout
  {
  }

  /** Steps other than those of its setter keep what is owed. */
  lemma OwedStays(s: Sys, a: Action, e: nat, x: Info)
    requires Inv(s) && Enabled(s, a) && OwedOk(s, e, x) && !(SetterStep(a) && a.e == e)
    ensures OwedOk(Apply(s, a), e, x)
  {
    T.OthersKeepSet(s, e, a);
    SameCallKept(s, a, x.waiter);
    hide Inv, Enabled, Apply, Out;
  }

  /** A setter only finds calls waiting that are asleep, with all their positions scanned. */
  lemma ServedSleeps(s: Sys, e: nat)
    requires Inv(s) && Enabled(s, ServeEntry(e)) && Hands(s, ServeEntry(e))
    ensures
      var x := s.events[e].waits[s.events[e].given];
      && Sleeps(s, x.waiter) && !s.waiters[x.waiter].timeout.Zero?
      && s.waiters[x.waiter].scanned == |s.waiters[x.waiter].events|
      && (!s.waiters[x.waiter].waitAll ==> s.waiters[x.waiter].status == -1)
      && EntryOk(s, e, x) && Out(s.events[e]) != [] && Out(s.events[e])[0] == x
  {
    hide SlotsOk, HistoryOk, LedgersOk;
    var x := s.events[e].waits[s.events[e].given];
    assert EventOk(s, e) && EntryOk(s, e, x) && ControlOk(s, x.waiter) && RecordOk(s, x.waiter);
  }

  lemma ServeEffect(s: Sys, e: nat)
    requires Enabled(s, ServeEntry(e)) && Hands(s, ServeEntry(e))
    ensures
      var t := Apply(s, ServeEntry(e));
      && e < |t.events| && t.events[e].waits == s.events[e].waits && t.events[e].given == s.events[e].given + 1
      && t.events[e].holder.Setter? && !t.events[e].holder.at.Serve?
  {
  }

  lemma NewlyOwed(s: Sys, e: nat)
    requires Inv(s) && Enabled(s, ServeEntry(e)) && Hands(s, ServeEntry(e))
    ensures OwedOk(Apply(s, ServeEntry(e)), e, s.events[e].waits[s.events[e].given])
  {
    ServedSleeps(s, e);
    ServeEffect(s, e);
    var t, x := Apply(s, ServeEntry(e)), s.events[e].waits[s.events[e].given];
    SameCallKept(s, ServeEntry(e), x.waiter);
    GivenOne(s.events[e], t.events[e]);
    var wt := s.waiters[x.waiter];
    if !wt.waitAll {
      forall j | 0 <= j < |wt.events| && j != x.index && wt.events[j] == e
        ensures Info(x.waiter, j) in Out(t.events[e])
      {
        OtherEntry(s, e, x.waiter, j);
        NotTheFirst(Out(s.events[e]), Info(x.waiter, j));
      }
    }
    hide Inv, Apply, Enabled, Out, Hands;
  }

  lemma NotTheFirst(q: seq<Info>, x: Info)
    requires x in q && x != q[0]
    ensures x in q[1..]
  {
  }

  /** A wait-any that has scanned everything and taken nothing is registered at every position. */
  lemma OtherEntry(s: Sys, e: nat, w: nat, j: nat)
    requires Inv(s) && Sleeps(s, w) && !s.waiters[w].waitAll && s.waiters[w].status == -1
    requires j < s.waiters[w].scanned && j < |s.waiters[w].events| && s.waiters[w].events[j] == e < |s.events|
    ensures Info(w, j) in Out(s.events[e])
  {
    hide EventsOk, EntriesOk, HistoryOk, LedgersOk, Tally, Copies;
    assert ControlOk(s, w) && SlotOk(s, w, j);
    CopiesNaming(Out(s.events[e]), Info(w, j));
  }

  /** Only its own test puts a call to sleep, and only a hand-over gives a sleeper what it waits for. */
  lemma SatisfiedAsleep(s: Sys, a: Action, w: nat)
    requires Enabled(s, a) && Sleeps(Apply(s, a), w) && Satisfied(Apply(s, a).waiters[w])
    ensures
      || (a.ServeEntry? && Hands(s, a) && s.events[a.e].waits[s.events[a.e].given].waiter == w)
      || (Sleeps(s, w) && Satisfied(s.waiters[w]) && !(a.CheckDone? && a.w == w) && !(a.Wake? && a.w == w))
  {
  }

  lemma WakeUpStays(m: Machine, a: Action, w: nat)
    requires CanDo(m, Step(a)) && WakeUpComes(m, w)
    ensures WakeUpComes(Do(m, Step(a)), w)
  {
    var t := Do(m, Step(a));
    if Sleeps(t.sys, w) && Satisfied(t.sys.waiters[w]) {
      SatisfiedAsleep(m.sys, a, w);
      hide Apply, Enabled;
      if a.ServeEntry? && Hands(m.sys, a) && m.sys.events[a.e].waits[m.sys.events[a.e].given].waiter == w {
        assert a.e in t.owed && t.owed[a.e].waiter == w;
      } else if w !in m.notified {
        var e :| e in m.owed && m.owed[e].waiter == w;
        assert e in t.owed && t.owed[e].waiter == w;
      }
    }
  }

  lemma StepMachineOk(m: Machine, a: Action)
    requires MachineOk(m) && CanDo(m, Step(a))
    ensures MachineOk(Do(m, Step(a)))
  {
    StepInv(m.sys, a);
    var t := Do(m, Step(a));
    forall w: nat ensures WakeUpComes(t, w) {
      WakeUpStays(m, a, w);
    }
    forall e | e in t.owed ensures OwedOk(t.sys, e, t.owed[e]) {
      if Hands(m.sys, a) && e == a.e {
        NewlyOwed(m.sys, e);
      } else {
        assert e in m.owed && OwedOk(m.sys, e, m.owed[e]);
        OwedStays(m.sys, a, e, m.owed[e]);
      }
    }
    hide Inv, Apply, Enabled, WakeUpComes, OwedOk;
  }

  lemma SignalMachineOk(m: Machine, e: nat)
    requires MachineOk(m) && e in m.owed
    ensures MachineOk(Do(m, Signal(e)))
  {
    hide Inv, OwedOk;
    var t := Do(m, Signal(e));
    forall w: nat ensures WakeUpComes(t, w) {
      assert WakeUpComes(m, w);
      if Sleeps(t.sys, w) && Satisfied(t.sys.waiters[w]) && w !in t.notified {
        var f :| f in m.owed && m.owed[f].waiter == w;
        assert f in t.owed && t.owed[f].waiter == w;
      }
    }
  }

  lemma {:induction false} GoesOk(m: Machine, acts: seq<Act>, t: Machine)
    requires MachineOk(m) && Goes(m, acts, t)
    ensures MachineOk(t)
    decreases |acts|
  {
    hide MachineOk, Do, Enabled;
    if acts != [] {
      var act := acts[0];
      match act {
        case Step(a) => StepMachineOk(m, a);
        case Signal(e) => SignalMachineOk(m, e);
      }
      GoesOk(Do(m, act), acts[1..], t);
    }
  }

  lemma IdleOk()
    ensures MachineOk(IDLE)
  {
    InitInv();
  }

  // ---------- No lost notification ----------

  /** In every reachable state a sleeping multi-wait that has what it waits for has been signalled and
      will run, or the `SetEvent` that gave it the last of it is about to signal it. */
  lemma {:induction false} SleepersAreNotified(acts: seq<Act>, m: Machine, w: nat)
    requires Goes(IDLE, acts, m) && Sleeps(m.sys, w) && Satisfied(m.sys.waiters[w])
    ensures w in m.notified || exists e :: e in m.owed && m.owed[e].waiter == w && CanDo(m, Signal(e))
  {
    hide Inv, OwedOk;
    IdleOk();
    GoesOk(IDLE, acts, m);
    assert WakeUpComes(m, w);
    if w !in m.notified {
      var e :| e in m.owed && m.owed[e].waiter == w;
      assert CanDo(m, Signal(e));
    }
  }

  /** With the signals as separate steps the library makes no other steps than without. */
  lemma {:induction false} Projects(m: Machine, acts: seq<Act>, t: Machine) returns (base: seq<Action>)
    requires Goes(m, acts, t)
    ensures Runs(m.sys, base, t.sys)
    decreases |acts|
  {
    hide Enabled, Apply, Hands;
    if acts == [] {
      base := [];
    } else {
      var rest := Projects(Do(m, acts[0]), acts[1..], t);
      if acts[0].Step? {
        base := [acts[0].a] + rest;
        assert base[1..] == rest;
      } else {
        base := rest;
      }
    }
  }
}
