/** Building runs: what the witnesses of the other files have in common. */
module PeventsRuns {
  import opened Pevents
  import opened PeventsInvariant
  import opened PeventsPatch
  import opened PeventsSteps

  /** Every multi-wait of the run has one of the given lists as its arguments. */
  predicate Listed(acts: seq<Action>, lists: set<seq<nat>>) {
    forall a | a in acts && a.StartWait? :: a.events in lists
  }

  /** Some run from the start, with only such multi-waits, ends in `s`. */
  ghost predicate Reach(lists: set<seq<nat>>, s: Sys) {
    exists acts :: Runs(Init(), acts, s) && Listed(acts, lists)
  }

  lemma ReachInit(lists: set<seq<nat>>)
    ensures Reach(lists, Init())
  {
    assert Runs(Init(), [], Init()) && Listed([], lists);
  }

  lemma ReachStep(lists: set<seq<nat>>, s: Sys, a: Action)
    requires Reach(lists, s) && Enabled(s, a) && (a.StartWait? ==> a.events in lists)
    ensures Reach(lists, Apply(s, a))
  {
    hide Enabled, Apply, Runs;
    var acts :| Runs(Init(), acts, s) && Listed(acts, lists);
    RunsOneMore(Init(), acts, s, a);
    assert Listed(acts + [a], lists);
  }

  lemma ReachInv(lists: set<seq<nat>>, s: Sys)
    requires Reach(lists, s)
    ensures Inv(s)
  {
    var acts :| Runs(Init(), acts, s) && Listed(acts, lists);
    InitInv();
    RunInv(Init(), acts, s);
  }

  // ---------- Events ----------

  function NewEvent(manualReset: bool): Event {
    Event(!manualReset, false, [], 0, Free, true)
  }

  function NewEvents(n: nat, manualReset: bool): seq<Event> {
    seq(n, i => NewEvent(manualReset))
  }

  lemma {:induction false} Created(lists: set<seq<nat>>, n: nat, manualReset: bool)
    ensures Reach(lists, Sys(NewEvents(n, manualReset), [], Start))
  {
    if n == 0 {
      ReachInit(lists);
      assert NewEvents(0, manualReset) == [];
    } else {
      Created(lists, n - 1, manualReset);
      var s := Sys(NewEvents(n - 1, manualReset), [], Start);
      ReachStep(lists, s, CreateEvent(manualReset));
      assert NewEvents(n, manualReset) == NewEvents(n - 1, manualReset) + [NewEvent(manualReset)];
    }
  }

  // ---------- Scanning unsignalled events ----------

  /** Alive, unsignalled, and nobody owns the mutex. */
  predicate Idle(ev: Event) {
    ev.alive && !ev.state && ev.holder.Free? && ev.given == 0
  }

  predicate AllIdle(s: Sys) {
    forall e | 0 <= e < |s.events| :: Idle(s.events[e])
  }

  /** Every entry's waiter has its mutex held, so that no clean-up touches it. */
  predicate AllHeld(s: Sys) {
    forall e, k | 0 <= e < |s.events| && 0 <= k < |s.events[e].waits| :: Held(s, s.events[e].waits[k])
  }

  predicate Held(s: Sys, x: Info) {
    x.waiter < |s.waiters| && s.waiters[x.waiter].lock.ByCall?
  }

  /** With `w` cleaning up event `e`, the first k entries passed. */
  function Passed(s: Sys, w: nat, e: nat, k: nat): Sys
    requires w < |s.waiters| && e < |s.events|
  {
    s.(events := s.events[e := s.events[e].(holder := Scanner(w, k))],
       waiters := s.waiters[w := s.waiters[w].(phase := Sweep)])
  }

  lemma {:induction false} PassAll(lists: set<seq<nat>>, s: Sys, w: nat, e: nat, k: nat)
    requires w < |s.waiters| && e < |s.events| && s.waiters[w].lock.ByCall? && AllHeld(s) && k <= |s.events[e].waits|
    requires Reach(lists, Passed(s, w, e, 0))
    ensures Reach(lists, Passed(s, w, e, k))
  {
    if k > 0 {
      PassAll(lists, s, w, e, k - 1);
      var m := Passed(s, w, e, k - 1);
      var x := s.events[e].waits[k - 1];
      assert Held(s, x) && Held(m, x);
      assert Enabled(m, SweepEntry(e, true));
      ReachStep(lists, m, SweepEntry(e, true));
      assert Apply(m, SweepEntry(e, true)) == Passed(s, w, e, k);
    }
  }

  /** After `w` registered at the event it has reached. */
  function Registered1(s: Sys, w: nat): Sys
    requires w < |s.waiters| && AtEvent(s, s.waiters[w])
  {
    var wt := s.waiters[w];
    var e := wt.events[wt.scanned];
    s.(events := s.events[e := s.events[e].(waits := s.events[e].waits + [Info(w, wt.scanned)])],
       waiters := s.waiters[w := wt.(refCount := wt.refCount + 1, scanned := wt.scanned + 1)])
  }

  /** One round of a scan at an unsignalled event. */
  lemma RegisterOne(lists: set<seq<nat>>, s: Sys, w: nat)
    requires Reach(lists, s) && w < |s.waiters| && s.waiters[w].phase.Scan? && s.waiters[w].lock.ByCall?
    requires AtEvent(s, s.waiters[w]) && Idle(s.events[s.waiters[w].events[s.waiters[w].scanned]]) && AllHeld(s)
    ensures Reach(lists, Registered1(s, w))
  {
    var wt := s.waiters[w];
    var e := wt.events[wt.scanned];
    ReachStep(lists, s, LockScanned(w));
    assert Apply(s, LockScanned(w)) == Passed(s, w, e, 0);
    var n := |s.events[e].waits|;
    PassAll(lists, s, w, e, n);
    PollRegisters(s, w, e);
    ReachStep(lists, Passed(s, w, e, n), Poll(w));
  }

  lemma PollRegisters(s: Sys, w: nat, e: nat)
    requires w < |s.waiters| && s.waiters[w].phase.Scan? && AtEvent(s, s.waiters[w])
    requires e == s.waiters[w].events[s.waiters[w].scanned] && Idle(s.events[e])
    ensures
      var m := Passed(s, w, e, |s.events[e].waits|);
      Enabled(m, Poll(w)) && Apply(m, Poll(w)) == Registered1(s, w)
  {
    var m := Passed(s, w, e, |s.events[e].waits|);
    var t, r := Apply(m, Poll(w)), Registered1(s, w);
    assert s.waiters[w].(phase := Scan) == s.waiters[w];
    assert t.events == r.events && t.waiters == r.waiters;
  }

  /** What scanning from one state to another did: `w` went on to position p and registered at the
      positions before; the events are idle and grew only by entries of `w`. */
  predicate ScannedTo(s: Sys, w: nat, p: nat, t: Sys)
    requires w < |s.waiters|
  {
    && |t.waiters| == |s.waiters| && |t.events| == |s.events| && t.hist == s.hist
    && (forall v | 0 <= v < |s.waiters| && v != w :: t.waiters[v] == s.waiters[v])
    && t.waiters[w] == s.waiters[w].(scanned := p, refCount := t.waiters[w].refCount)
    && (forall e | 0 <= e < |s.events| ::
          && t.events[e] == s.events[e].(waits := t.events[e].waits)
          && s.events[e].waits <= t.events[e].waits
          && forall k | |s.events[e].waits| <= k < |t.events[e].waits| :: t.events[e].waits[k].waiter == w)
    && (forall i | s.waiters[w].scanned <= i < p && i < |s.waiters[w].events| && s.waiters[w].events[i] < |t.events| ::
          Info(w, i) in t.events[s.waiters[w].events[i]].waits)
  }

  /** A call can scan any number of unsignalled events. */
  lemma {:induction false} ScanTo(lists: set<seq<nat>>, s: Sys, w: nat, p: nat) returns (t: Sys)
    requires Reach(lists, s) && AllIdle(s) && AllHeld(s)
    requires w < |s.waiters| && s.waiters[w].phase.Scan? && s.waiters[w].lock.ByCall?
    requires s.waiters[w].scanned <= p <= |s.waiters[w].events|
    requires forall e | e in s.waiters[w].events :: e < |s.events|
    ensures Reach(lists, t) && AllIdle(t) && AllHeld(t) && ScannedTo(s, w, p, t)
    decreases p - s.waiters[w].scanned
  {
    hide Reach;
    if s.waiters[w].scanned == p {
      t := s;
    } else {
      var i := s.waiters[w].scanned;
      assert s.waiters[w].events[i] in s.waiters[w].events;
      RegisterOne(lists, s, w);
      var m := Registered1(s, w);
      RegisteredHeld(s, w);
      t := ScanTo(lists, m, w, p);
      ScannedOn(s, w, m, p, t);
    }
  }

  lemma RegisteredHeld(s: Sys, w: nat)
    requires AllIdle(s) && AllHeld(s) && w < |s.waiters| && AtEvent(s, s.waiters[w]) && s.waiters[w].lock.ByCall?
    ensures AllIdle(Registered1(s, w)) && AllHeld(Registered1(s, w))
  {
    var m := Registered1(s, w);
    forall e, k | 0 <= e < |m.events| && 0 <= k < |m.events[e].waits| ensures Held(m, m.events[e].waits[k]) {
      if k < |s.events[e].waits| {
        assert Held(s, s.events[e].waits[k]);
      }
    }
  }

  lemma ScannedOn(s: Sys, w: nat, m: Sys, p: nat, t: Sys)
    requires w < |s.waiters| && AtEvent(s, s.waiters[w]) && m == Registered1(s, w) && ScannedTo(m, w, p, t)
    requires s.waiters[w].scanned < p
    ensures ScannedTo(s, w, p, t)
  {
    var i := s.waiters[w].scanned;
    var e := s.waiters[w].events[i];
    assert m.events[e].waits[|s.events[e].waits|] == Info(w, i);
    assert t.events[e].waits[|s.events[e].waits|] == Info(w, i);
  }

  /** A new multi-wait with its own mutex held. */
  lemma Started(lists: set<seq<nat>>, s: Sys, evs: seq<nat>, waitAll: bool, timeout: Timeout)
    requires Reach(lists, s) && evs in lists && AllIdle(s) && AllHeld(s)
    requires forall e | e in evs :: e < |s.events|
    ensures
      var t := s.(waiters := s.waiters + [NewWaiter(evs, waitAll, timeout)]);
      Reach(lists, t) && AllIdle(t) && AllHeld(t)
  {
    var t := s.(waiters := s.waiters + [NewWaiter(evs, waitAll, timeout)]);
    ReachStep(lists, s, StartWait(evs, waitAll, timeout));
    forall e, k | 0 <= e < |t.events| && 0 <= k < |t.events[e].waits| ensures Held(t, t.events[e].waits[k]) {
      assert Held(s, s.events[e].waits[k]);
    }
  }

  /** An upper bound of the events listed. */
  function Above(evs: seq<nat>): (n: nat)
    ensures forall e | e in evs :: e < n
  {
    if evs == [] then 0
    else
      var n := Above(evs[1..]);
      assert forall e | e in evs :: e == evs[0] || e in evs[1..];
      if n <= evs[0] then evs[0] + 1 else n
  }
}
