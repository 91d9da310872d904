/** The signals that come too late: `SetEvent` signals a waiter after it has released its mutex, when the
    record may already be deleted. Exactly when that is, and for which calls it can happen. */
module PeventsLateSignals {
  import opened Pevents
  import opened PeventsInvariant
  import opened PeventsPatch
  import opened PeventsSteps
  import opened PeventsRuns
  import opened PeventsSignals
  import opened PeventsTimeouts

  /** The next signal of the setter of e goes to a deleted record. */
  predicate Late(m: Machine, e: nat) {
    && e in m.owed && m.owed[e].waiter < |m.sys.waiters|
    && m.sys.waiters[m.owed[e].waiter].freed
  }

  /** A signal is late exactly if the call has returned, and no event has an entry of it any more: since a
      call that is served has not returned (`ServedSleeps`), it did so after its mutex was released. */
  lemma {:induction false} LateExactly(acts: seq<Act>, m: Machine, e: nat)
    requires Goes(IDLE, acts, m) && e in m.owed
    ensures
      var v := m.owed[e].waiter;
      v < |m.sys.waiters| && (Late(m, e) <==> m.sys.waiters[v].phase.Done? && Registered(m.sys.events, v) == 0)
  {
    IdleOk();
    GoesOk(IDLE, acts, m);
    assert OwedOk(m.sys, e, m.owed[e]) && RecordOk(m.sys, m.owed[e].waiter);
  }

  /** Some run owes a late signal to a multi-wait with these arguments. */
  ghost predicate MayBeLate(evs: seq<nat>, waitAll: bool, timeout: Timeout) {
    exists acts, m, e :: Goes(IDLE, acts, m) && Late(m, e) && CallOf(m, e, evs, waitAll, timeout)
  }

  /** The setter of e owes a signal to such a multi-wait. */
  predicate CallOf(m: Machine, e: nat, evs: seq<nat>, waitAll: bool, timeout: Timeout) {
    && e in m.owed && m.owed[e].waiter < |m.sys.waiters|
    && var wt := m.sys.waiters[m.owed[e].waiter];
       wt.events == evs && wt.waitAll == waitAll && wt.timeout == timeout
  }

  /** Position p of the list is the only one with its event. */
  predicate Once(evs: seq<nat>, p: nat) {
    p < |evs| && forall j | 0 <= j < |evs| && j != p :: evs[j] != evs[p]
  }

  // ---------- Only then ----------

  /** A call that is owed a signal may wait; a late one that waits for any event lists this one once. */
  lemma {:induction false} OnlyIfOnce(acts: seq<Act>, m: Machine, e: nat)
    requires Goes(IDLE, acts, m) && Late(m, e)
    ensures
      var x := m.owed[e];
      var wt := m.sys.waiters[x.waiter];
      !wt.timeout.Zero? && wt.events != [] && (!wt.waitAll ==> Once(wt.events, x.index))
  {
    IdleOk();
    GoesOk(IDLE, acts, m);
    var s, x := m.sys, m.owed[e];
    assert OwedOk(s, e, x);
    hide MachineOk, Goes;
    var wt := s.waiters[x.waiter];
    if !wt.waitAll && !Once(wt.events, x.index) {
      var j :| 0 <= j < |wt.events| && j != x.index && wt.events[j] == wt.events[x.index];
      NamedIsLive(s, e, Info(x.waiter, j));
    }
  }

  // ---------- Runs with separate signals ----------

  ghost predicate Gets(m: Machine) {
    exists acts :: Goes(IDLE, acts, m)
  }

  lemma {:induction false} GoesJoin(m: Machine, a: seq<Act>, n: Machine, b: seq<Act>, t: Machine)
    requires Goes(m, a, n) && Goes(n, b, t)
    ensures Goes(m, a + b, t)
    decreases |a|
  {
    hide CanDo, Do;
    if a == [] {
      assert a + b == b;
    } else {
      GoesJoin(Do(m, a[0]), a[1..], n, b, t);
      assert (a + b)[1..] == a[1..] + b;
    }
  }

  lemma GetsStep(m: Machine, act: Act)
    requires Gets(m) && CanDo(m, act)
    ensures Gets(Do(m, act))
  {
    hide CanDo, Do;
    var acts :| Goes(IDLE, acts, m);
    assert [act][1..] == [];
    assert Goes(m, [act], Do(m, act));
    GoesJoin(IDLE, acts, m, [act], Do(m, act));
  }

  /** Every run of the library is one in which each signal follows at once. */
  lemma {:induction false} Lifts(m: Machine, acts: seq<Action>, t: Sys) returns (n: Machine)
    requires Gets(m) && m.owed == map[] && Runs(m.sys, acts, t)
    ensures Gets(n) && n.sys == t && n.owed == map[]
    decreases |acts|
  {
    if acts == [] {
      n := m;
    } else {
      var a := acts[0];
      GetsStep(m, Step(a));
      var k := Do(m, Step(a));
      if Hands(m.sys, a) {
        GetsStep(k, Signal(a.e));
        k := Do(k, Signal(a.e));
      }
      hide Gets, Enabled, Apply, Hands;
      n := Lifts(k, acts[1..], t);
    }
  }

  lemma GetsIdle()
    ensures Gets(IDLE)
  {
    assert Goes(IDLE, [], IDLE);
  }

  /** A hand-over that has not been signalled yet. */
  lemma HandOver(lists: set<seq<nat>>, s: Sys, e: nat) returns (m: Machine)
    requires Reach(lists, s) && Enabled(s, ServeEntry(e)) && Hands(s, ServeEntry(e))
    ensures Gets(m) && m.sys == Apply(s, ServeEntry(e)) && m.owed == map[e := s.events[e].waits[s.events[e].given]]
  {
    var acts :| Runs(Init(), acts, s) && Listed(acts, lists);
    GetsIdle();
    hide Gets, Apply, Runs;
    var n := Lifts(IDLE, acts, s);
    GetsStep(n, Step(ServeEntry(e)));
    m := Do(n, Step(ServeEntry(e)));
  }

  /** Only the setter of e owes a signal, and other threads have gone on to `s`. */
  ghost predicate Meanwhile(e: nat, x: Info, s: Sys) {
    exists n :: Gets(Machine(s, map[e := x], n))
  }

  lemma MeanwhileStep(e: nat, x: Info, s: Sys, a: Action)
    requires Meanwhile(e, x, s) && Enabled(s, a) && !Hands(s, a) && !(SetterStep(a) && a.e == e)
    ensures Meanwhile(e, x, Apply(s, a))
  {
    hide Gets, Apply, Enabled, Hands;
    var n :| Gets(Machine(s, map[e := x], n));
    var m := Machine(s, map[e := x], n);
    GetsStep(m, Step(a));
    assert Do(m, Step(a)) == Machine(Apply(s, a), map[e := x], Do(m, Step(a)).notified);
  }

  lemma MeanwhileInv(e: nat, x: Info, s: Sys)
    requires Meanwhile(e, x, s)
    ensures Inv(s)
  {
    hide Inv;
    var n :| Gets(Machine(s, map[e := x], n));
    var acts :| Goes(IDLE, acts, Machine(s, map[e := x], n));
    IdleOk();
    GoesOk(IDLE, acts, Machine(s, map[e := x], n));
  }

  /** A satisfied sleeper returns before it is signalled. */
  lemma Returns(e: nat, x: Info, s: Sys, w: nat) returns (t: Sys)
    requires Meanwhile(e, x, s) && Sleeps(s, w) && s.waiters[w].lock.Unlocked? && Satisfied(s.waiters[w])
    ensures Meanwhile(e, x, t) && t.events == s.events && |t.waiters| == |s.waiters| && t.waiters[w].phase.Done?
    ensures
      var was, wt := s.waiters[w], t.waiters[w];
      wt.events == was.events && wt.waitAll == was.waitAll && wt.timeout == was.timeout
  {
    MeanwhileStep(e, x, s, Wake(w, false));
    var s1 := Apply(s, Wake(w, false));
    MeanwhileStep(e, x, s1, CheckDone(w));
    var s2 := Apply(s1, CheckDone(w));
    MeanwhileStep(e, x, s2, FinishWait(w));
    t := Apply(s2, FinishWait(w));
  }

  lemma {:induction false} NothingOut(events: seq<Event>, w: nat)
    requires forall e | 0 <= e < |events| :: Out(events[e]) == []
    ensures Registered(events, w) == 0
  {
    hide Out;
    if events != [] {
      NothingOut(events[..|events| - 1], w);
    }
  }

  /** With no entry left, the call that is owed the signal returns, and its record is deleted. */
  lemma ThenLate(e: nat, x: Info, s: Sys)
    requires Meanwhile(e, x, s) && Sleeps(s, x.waiter) && s.waiters[x.waiter].lock.Unlocked?
    requires Satisfied(s.waiters[x.waiter]) && forall f | 0 <= f < |s.events| :: Out(s.events[f]) == []
    ensures
      var wt := s.waiters[x.waiter];
      MayBeLate(wt.events, wt.waitAll, wt.timeout)
  {
    hide Out, Meanwhile;
    var w, wt := x.waiter, s.waiters[x.waiter];
    var t := Returns(e, x, s, w);
    MeanwhileInv(e, x, t);
    NothingOut(t.events, w);
    Deleted(t, w);
    hide Inv;
    LateCall(e, x, t);
  }

  lemma {:induction false} Deleted(s: Sys, w: nat)
    requires Inv(s) && w < |s.waiters| && s.waiters[w].phase.Done? && Registered(s.events, w) == 0
    ensures s.waiters[w].freed
  {
    assert RecordOk(s, w);
  }

  lemma LateCall(e: nat, x: Info, s: Sys)
    requires Meanwhile(e, x, s) && x.waiter < |s.waiters| && s.waiters[x.waiter].freed
    ensures
      var wt := s.waiters[x.waiter];
      MayBeLate(wt.events, wt.waitAll, wt.timeout)
  {
    hide Goes;
    var n :| Gets(Machine(s, map[e := x], n));
    var m := Machine(s, map[e := x], n);
    var acts :| Goes(IDLE, acts, m);
    var wt := s.waiters[x.waiter];
    assert Late(m, e) && CallOf(m, e, wt.events, wt.waitAll, wt.timeout);
  }

  // ---------- Wait-all ----------

  lemma {:induction false} TopListed(evs: seq<nat>) returns (i: nat)
    requires evs != []
    ensures i < |evs| && evs[i] + 1 == Above(evs)
  {
    if Above(evs[1..]) <= evs[0] {
      i := 0;
    } else {
      var j := TopListed(evs[1..]);
      i := j + 1;
    }
  }

  /** The last entry of all is about to be served. */
  lemma LastServed(evs: seq<nat>, timeout: Timeout) returns (s: Sys, e: nat)
    requires evs != [] && !timeout.Zero?
    ensures Reach({evs}, s) && e < |s.events| && |s.waiters| == 1
    ensures Enabled(s, ServeEntry(e)) && s.events[e].given + 1 == |s.events[e].waits| && !s.events[e].autoReset
    ensures s.events[e].waits[s.events[e].given].waiter == 0
    ensures forall f | 0 <= f < |s.events| && f != e :: s.events[f].waits == []
    ensures
      var wt := s.waiters[0];
      && wt.events == evs && wt.waitAll && wt.timeout == timeout && wt.phase.Asleep? && wt.stillWaiting
  {
    var lists := {evs};
    var s0 := FallAsleep(evs, true, timeout, true);
    e := Above(evs) - 1;
    var s1 := SetAll(lists, s0, evs, timeout, e);
    var i := TopListed(evs);
    assert Info(0, i) in s1.events[e].waits;
    var s2 := ServeFirst(lists, s1, evs, timeout, e, |s1.events[e].waits| - 1);
    ReachStep(lists, s2, LockWaiter(e));
    s := Apply(s2, LockWaiter(e));
  }

  lemma AllServed(s: Sys, e: nat)
    requires Enabled(s, ServeEntry(e)) && Hands(s, ServeEntry(e)) && |s.waiters| == 1
    requires s.events[e].given + 1 == |s.events[e].waits| && !s.events[e].autoReset
    requires s.events[e].waits[s.events[e].given].waiter == 0
    requires forall f | 0 <= f < |s.events| && f != e :: s.events[f].waits == []
    requires s.waiters[0].waitAll && s.waiters[0].phase.Asleep?
    ensures
      var t := Apply(s, ServeEntry(e));
      && (forall f | 0 <= f < |t.events| :: Out(t.events[f]) == [])
      && |t.waiters| == 1 && Sleeps(t, 0) && t.waiters[0].lock.Unlocked?
      && t.waiters[0].events == s.waiters[0].events && t.waiters[0].waitAll
      && t.waiters[0].timeout == s.waiters[0].timeout
  {
  }

  /** A running wait-all without entries has all it waits for. */
  lemma {:induction false} NothingLeft(s: Sys, w: nat)
    requires Inv(s) && Sleeps(s, w) && s.waiters[w].waitAll && Registered(s.events, w) == 0
    ensures Satisfied(s.waiters[w])
  {
    assert ControlOk(s, w) && RecordOk(s, w);
  }

  lemma AllLate(evs: seq<nat>, timeout: Timeout)
    requires evs != [] && !timeout.Zero?
    ensures MayBeLate(evs, true, timeout)
  {
    var s, e := LastServed(evs, timeout);
    var m := HandOver({evs}, s, e);
    AllServed(s, e);
    hide Apply, Enabled, Out;
    var x := s.events[e].waits[s.events[e].given];
    assert m == Machine(m.sys, map[e := x], m.notified);
    assert Meanwhile(e, x, m.sys);
    MeanwhileInv(e, x, m.sys);
    NothingOut(m.sys.events, 0);
    NothingLeft(m.sys, 0);
    ThenLate(e, x, m.sys);
  }

  // ---------- Wait-any ----------

  /** A wait-any has taken what it waits for and sleeps still. Event e is being set, with no entry left;
      those below n have none either. */
  predicate ExpiredBelow(s: Sys, e: nat, n: nat, evs: seq<nat>, timeout: Timeout) {
    && |s.waiters| == 1 && e < |s.events| && Out(s.events[e]) == []
    && var wt := s.waiters[0];
       && !wt.waitAll && wt.events == evs && wt.timeout == timeout && wt.status != -1 && !wt.stillWaiting
       && wt.phase.Asleep? && wt.lock.Unlocked?
       && forall f | 0 <= f < |s.events| && f != e ::
            && !s.events[f].autoReset && s.events[f].alive && s.events[f].holder.Free? && s.events[f].given == 0
            && (forall k | 0 <= k < |s.events[f].waits| :: s.events[f].waits[k].waiter == 0)
            && (f < n ==> s.events[f].waits == [])
  }

  /** Event n is being set, with k expired entries dropped; otherwise like `s`. */
  predicate DroppedTo(s: Sys, n: nat, k: nat, t: Sys) {
    && n < |s.events| && |s.waiters| == 1 == |t.waiters|
    && t.waiters[0] == s.waiters[0].(refCount := t.waiters[0].refCount, freed := t.waiters[0].freed)
    && |t.events| == |s.events| && t.events == s.events[n := t.events[n]]
    && t.events[n].holder.Setter? && t.events[n].holder.at.Drain? && t.events[n].given == k
    && t.events[n].waits == s.events[n].waits
    && t.events[n].alive && t.events[n].autoReset == s.events[n].autoReset
  }

  lemma {:induction false} DropFirst(e: nat, x: Info, s: Sys, n: nat, k: nat, evs: seq<nat>, timeout: Timeout)
    returns (t: Sys)
    requires Meanwhile(e, x, s) && ExpiredBelow(s, e, n, evs, timeout)
    requires n < |s.events| && n != e && k <= |s.events[n].waits|
    ensures Meanwhile(e, x, t) && DroppedTo(s, n, k, t)
  {
    hide Meanwhile, Out;
    if k == 0 {
      MeanwhileStep(e, x, s, LockSet(n));
      t := Apply(s, LockSet(n));
    } else {
      var m := DropFirst(e, x, s, n, k - 1, evs, timeout);
      t := DropOne(e, x, s, n, k - 1, m, evs, timeout);
    }
  }

  lemma DropOne(e: nat, x: Info, s: Sys, n: nat, k: nat, m: Sys, evs: seq<nat>, timeout: Timeout) returns (t: Sys)
    requires ExpiredBelow(s, e, n, evs, timeout) && n < |s.events| && n != e && k < |s.events[n].waits|
    requires Meanwhile(e, x, m) && DroppedTo(s, n, k, m)
    ensures Meanwhile(e, x, t) && DroppedTo(s, n, k + 1, t)
  {
    hide Meanwhile, Out;
    MeanwhileStep(e, x, m, LockWaiter(n));
    var m1 := Apply(m, LockWaiter(n));
    MeanwhileStep(e, x, m1, ServeEntry(n));
    t := Apply(m1, ServeEntry(n));
  }

  lemma {:induction false} DropAll(e: nat, x: Info, s: Sys, n: nat, evs: seq<nat>, timeout: Timeout) returns (t: Sys)
    requires Meanwhile(e, x, s) && ExpiredBelow(s, e, 0, evs, timeout) && n <= |s.events|
    ensures Meanwhile(e, x, t) && ExpiredBelow(t, e, n, evs, timeout) && |t.events| == |s.events|
  {
    hide Meanwhile, Out;
    if n == 0 {
      t := s;
    } else {
      var m := DropAll(e, x, s, n - 1, evs, timeout);
      if n - 1 == e {
        t := m;
      } else {
        var m1 := DropFirst(e, x, m, n - 1, |m.events[n - 1].waits|, evs, timeout);
        MeanwhileStep(e, x, m1, EndDrain(n - 1));
        t := Apply(m1, EndDrain(n - 1));
      }
    }
  }

  /** An event listed once has one entry of the sleeper. */
  lemma OnlyEntry(s: Sys, evs: seq<nat>, timeout: Timeout, p: nat)
    requires Inv(s) && AsleepOn(s, evs, false, timeout, true) && Once(evs, p)
    ensures s.events[evs[p]].waits == [Info(0, p)]
  {
    hide EventsOk, ControlsOk, RecordsOk, HistoryOk, LedgersOk, Tally;
    var e := evs[p];
    var q := s.events[e].waits;
    assert Out(s.events[e]) == q;
    forall k | 0 <= k < |q| ensures q[k] == Info(0, p) {
      assert EntryOk(s, e, q[k]);
    }
    SlotCopies(s, p);
    AllCopies(q, Info(0, p));
  }

  lemma SlotCopies(s: Sys, p: nat)
    requires Inv(s) && |s.waiters| > 0 && p < |s.waiters[0].events| && s.waiters[0].events[p] < |s.events|
    ensures Copies(Out(s.events[s.waiters[0].events[p]]), Info(0, p)) <= 1
  {
    assert ControlOk(s, 0) && SlotOk(s, 0, p);
  }

  lemma {:induction false} AllCopies(q: seq<Info>, x: Info)
    requires forall k | 0 <= k < |q| :: q[k] == x
    ensures Copies(q, x) == |q|
  {
    if q != [] {
      AllCopies(q[..|q| - 1], x);
    }
  }

  lemma AnyServed(evs: seq<nat>, p: nat, timeout: Timeout) returns (s: Sys)
    requires Once(evs, p) && !timeout.Zero?
    ensures Reach({evs}, s) && Enabled(s, ServeEntry(evs[p])) && Hands(s, ServeEntry(evs[p]))
    ensures s.events[evs[p]].waits[s.events[evs[p]].given].waiter == 0
    ensures ExpiredBelow(Apply(s, ServeEntry(evs[p])), evs[p], 0, evs, timeout)
  {
    var lists, e := {evs}, evs[p];
    var s0 := FallAsleep(evs, false, timeout, true);
    ReachInv(lists, s0);
    OnlyEntry(s0, evs, timeout, p);
    hide Inv;
    assert e in evs;
    ReachStep(lists, s0, LockSet(e));
    var s1 := Apply(s0, LockSet(e));
    ReachStep(lists, s1, LockWaiter(e));
    s := Apply(s1, LockWaiter(e));
  }

  lemma AnyLate(evs: seq<nat>, p: nat, timeout: Timeout)
    requires Once(evs, p) && !timeout.Zero?
    ensures MayBeLate(evs, false, timeout)
  {
    var e := evs[p];
    var s := AnyServed(evs, p, timeout);
    var m := HandOver({evs}, s, e);
    hide Apply, Enabled, Out;
    var x := s.events[e].waits[s.events[e].given];
    assert m == Machine(m.sys, map[e := x], m.notified);
    assert Meanwhile(e, x, m.sys);
    var t := DropAll(e, x, m.sys, |m.sys.events|, evs, timeout);
    forall f | 0 <= f < |t.events| ensures Out(t.events[f]) == [] {
      if f != e {
        OutWhole(t.events[f]);
      }
    }
    ThenLate(e, x, t);
  }

  // ---------- The exact condition ----------

  /** A signal can go to a deleted record exactly for a call that may wait, and lists an event if it waits
      for all, or lists some event just once if it waits for any. */
  lemma {:induction false} LateSignalsExactly(evs: seq<nat>, waitAll: bool, timeout: Timeout)
    ensures
      MayBeLate(evs, waitAll, timeout)
      <==> !timeout.Zero? && if waitAll then evs != [] else exists p :: Once(evs, p)
  {
    hide Goes, Late;
    if MayBeLate(evs, waitAll, timeout) {
      var acts, m, e :| Goes(IDLE, acts, m) && Late(m, e) && CallOf(m, e, evs, waitAll, timeout);
      OnlyIfOnce(acts, m, e);
    }
    if !timeout.Zero? && if waitAll then evs != [] else exists p :: Once(evs, p) {
      if waitAll {
        AllLate(evs, timeout);
      } else {
        var p :| Once(evs, p);
        AnyLate(evs, p, timeout);
      }
    }
  }
}
