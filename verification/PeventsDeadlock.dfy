/** Who waits for whose mutex, and why no cycle can form when every multi-wait lists its events in
    one global order. */
module PeventsDeadlock {
  import opened Pevents
  import opened PeventsInvariant
  import opened PeventsPatch
  import opened PeventsSteps

  /** The calls that can hold a mutex while another call waits for it. Calls that merely wait for
      an event's mutex hold none, so nobody ever waits for them. */
  datatype Proc = Waiting(w: nat) | Setting(e: nat) | Destroying(e: nat)

  /** The call that owns an event's mutex. */
  predicate OwnsEvent(s: Sys, e: nat, q: Proc)
    requires e < |s.events|
  {
    match s.events[e].holder
    case Free => false
    case Scanner(v, _) => q == Waiting(v)
    case Destroyer(_) => q == Destroying(e)
    case Setter(_, _) => q == Setting(e)
  }

  /** The call that owns a waiter's mutex. */
  predicate OwnsWaiter(s: Sys, v: nat, q: Proc)
    requires v < |s.waiters|
  {
    match s.waiters[v].lock
    case Unlocked => false
    case ByCall => q == Waiting(v)
    case BySetter(f) => q == Setting(f)
  }

  /** `p` waits for a mutex that `q` owns: a scan for its next event (line 254), a sleeper for its
      own mutex on waking (320, 324), `SetEvent` for a registered waiter (390, 458). The clean-up
      helper uses `trylock` (72) and never waits. */
  predicate Blocks(s: Sys, p: Proc, q: Proc) {
    match p
    case Waiting(w) =>
      && w < |s.waiters|
      && var wt := s.waiters[w];
         || (wt.phase.Scan? && AtEvent(s, wt) && OwnsEvent(s, wt.events[wt.scanned], q))
         || (wt.phase.Asleep? && OwnsWaiter(s, w, q))
    case Setting(e) =>
      && e < |s.events|
      && var ev := s.events[e];
         ev.holder.Setter? && ev.holder.at.Drain? && HasNext(s, ev) && OwnsWaiter(s, ev.waits[ev.given].waiter, q)
    case Destroying(_) => false
  }

  /** A cycle of calls, each waiting for a mutex owned by the next. */
  predicate Cycle(s: Sys, c: seq<Proc>) {
    && c != []
    && forall k | 0 <= k < |c| :: Blocks(s, c[k], c[Next(k, |c|)])
  }

  function Next(k: nat, n: nat): nat
    requires k < n
  {
    if k + 1 == n then 0 else k + 1
  }

  /** The events strictly increase in the global order. */
  predicate Increasing(events: seq<nat>, rank: nat -> int) {
    forall i, j | 0 <= i < j < |events| :: rank(events[i]) < rank(events[j])
  }

  predicate Ordered(s: Sys, rank: nat -> int) {
    forall w | 0 <= w < |s.waiters| :: Increasing(s.waiters[w].events, rank)
  }

  /** Every multi-wait of the run lists its events in increasing order. */
  predicate OrderedRun(acts: seq<Action>, rank: nat -> int) {
    forall a | a in acts && a.StartWait? :: Increasing(a.events, rank)
  }

  lemma StepOrdered(s: Sys, a: Action, rank: nat -> int)
    requires Inv(s) && Enabled(s, a) && Ordered(s, rank)
    requires a.StartWait? ==> Increasing(a.events, rank)
    ensures Ordered(Apply(s, a), rank)
  {
    var s' := Apply(s, a);
    forall w | 0 <= w < |s'.waiters| ensures Increasing(s'.waiters[w].events, rank) {
      if w < |s.waiters| {
        SameEvents(s, a, w);
        assert Increasing(s.waiters[w].events, rank);
      }
    }
  }

  lemma SameEvents(s: Sys, a: Action, w: nat)
    requires Enabled(s, a) && w < |s.waiters|
    ensures w < |Apply(s, a).waiters| && Apply(s, a).waiters[w].events == s.waiters[w].events
  {
  }

  lemma {:induction false} RunOrdered(s: Sys, acts: seq<Action>, s': Sys, rank: nat -> int)
    requires Inv(s) && Ordered(s, rank) && Runs(s, acts, s') && OrderedRun(acts, rank)
    ensures Inv(s') && Ordered(s', rank)
    decreases |acts|
  {
    if acts != [] {
      StepInv(s, acts[0]);
      StepOrdered(s, acts[0], rank);
      RunOrdered(Apply(s, acts[0]), acts[1..], s', rank);
    }
  }

  // ---------- The rank argument ----------

  /** A scan wants an event; a setter owns one. */
  function Measure(s: Sys, p: Proc, rank: nat -> int): int {
    match p
    case Waiting(w) =>
      if w < |s.waiters| && AtEvent(s, s.waiters[w]) then 2 * rank(s.waiters[w].events[s.waiters[w].scanned]) else 0
    case Setting(e) => 2 * rank(e) + 1
    case Destroying(e) => 0
  }

  /** Behind a blocked owner of an event there is only a later event. */
  lemma SetterWaitsForLater(s: Sys, e: nat, q: Proc, r: Proc, rank: nat -> int)
    requires Inv(s) && Ordered(s, rank) && Blocks(s, Setting(e), q) && Blocks(s, q, r)
    ensures Measure(s, Setting(e), rank) < Measure(s, q, rank)
  {
    var ev := s.events[e];
    var x := ev.waits[ev.given];
    var v := x.waiter;
    assert EntryOk(s, e, x) && ControlOk(s, v);
    if s.waiters[v].lock.ByCall? {
      assert q == Waiting(v) && s.waiters[v].phase.Scan?;
      assert Increasing(s.waiters[v].events, rank);
    } else {
      assert false;
    }
  }

  lemma ScanWaitsForOwner(s: Sys, w: nat, q: Proc, r: Proc, rank: nat -> int)
    requires Inv(s) && Blocks(s, Waiting(w), q) && Blocks(s, q, r)
    requires s.waiters[w].phase.Scan?
    ensures Measure(s, Waiting(w), rank) < Measure(s, q, rank)
  {
    assert EventOk(s, s.waiters[w].events[s.waiters[w].scanned]);
  }

  /** A call that somebody waits for is not asleep. */
  lemma OwnersScan(s: Sys, p: Proc, w: nat)
    requires Inv(s) && Blocks(s, p, Waiting(w))
    ensures w < |s.waiters| && HoldsOwnLock(s.waiters[w].phase)
  {
    match p
    case Waiting(v) =>
      assert ControlOk(s, v);
      if s.waiters[v].phase.Scan? {
        assert EventOk(s, s.waiters[v].events[s.waiters[v].scanned]);
      }
    case Setting(e) =>
      assert ControlOk(s, s.events[e].waits[s.events[e].given].waiter);
  }

  lemma BlockedMeasureGrows(s: Sys, o: Proc, p: Proc, q: Proc, r: Proc, rank: nat -> int)
    requires Inv(s) && Ordered(s, rank)
    requires Blocks(s, o, p) && Blocks(s, p, q) && Blocks(s, q, r)
    ensures Measure(s, p, rank) < Measure(s, q, rank)
  {
    match p
    case Waiting(w) =>
      OwnersScan(s, o, w);
      ScanWaitsForOwner(s, w, q, r, rank);
    case Setting(e) => SetterWaitsForLater(s, e, q, r, rank);
    case Destroying(_) =>
  }

  lemma {:induction false} CycleClimbs(s: Sys, c: seq<Proc>, n: nat, rank: nat -> int)
    requires Inv(s) && Ordered(s, rank) && Cycle(s, c) && n < |c|
    ensures Measure(s, c[0], rank) + n <= Measure(s, c[n], rank)
  {
    if n > 0 {
      CycleClimbs(s, c, n - 1, rank);
      CycleEdge(s, c, n - 1, rank);
    }
  }

  lemma CycleEdge(s: Sys, c: seq<Proc>, k: nat, rank: nat -> int)
    requires Inv(s) && Ordered(s, rank) && Cycle(s, c) && k < |c|
    ensures Measure(s, c[k], rank) < Measure(s, c[Next(k, |c|)], rank)
  {
    var n := |c|;
    var before := if k == 0 then n - 1 else k - 1;
    assert Next(before, n) == k;
    assert Blocks(s, c[before], c[Next(before, n)]);
    assert Blocks(s, c[k], c[Next(k, n)]);
    assert Blocks(s, c[Next(k, n)], c[Next(Next(k, n), n)]);
    BlockedMeasureGrows(s, c[before], c[k], c[Next(k, n)], c[Next(Next(k, n), n)], rank);
  }

  /** No run whose multi-waits list distinct events in one global order reaches a cycle of calls
      blocked on each other's mutexes. */
  lemma {:induction false} DeadlockFree(acts: seq<Action>, s: Sys, rank: nat -> int, c: seq<Proc>)
    requires Runs(Init(), acts, s) && OrderedRun(acts, rank)
    ensures !Cycle(s, c)
  {
    InitInv();
    RunOrdered(Init(), acts, s, rank);
    if Cycle(s, c) {
      CycleClimbs(s, c, |c| - 1, rank);
      CycleEdge(s, c, |c| - 1, rank);
    }
  }

  // ---------- Progress ----------

  /** `c` leads from `p` along owners of wanted mutexes to `q`. */
  predicate Chain(s: Sys, c: seq<Proc>) {
    forall k | 0 <= k < |c| - 1 :: Blocks(s, c[k], c[k+1])
  }

  predicate Blocked(s: Sys, p: Proc) {
    match p
    case Waiting(w) =>
      && w < |s.waiters|
      && var wt := s.waiters[w];
         || (wt.phase.Scan? && AtEvent(s, wt) && !s.events[wt.events[wt.scanned]].holder.Free?)
         || (wt.phase.Asleep? && !wt.lock.Unlocked?)
    case Setting(e) =>
      && e < |s.events|
      && var ev := s.events[e];
         && ev.holder.Setter? && ev.holder.at.Drain? && HasNext(s, ev)
         && !s.waiters[ev.waits[ev.given].waiter].lock.Unlocked?
    case Destroying(_) => false
  }

  /** The owner of the mutex a blocked call waits for. */
  function OwnerFor(s: Sys, p: Proc): Proc
    requires Blocked(s, p)
  {
    match p
    case Waiting(w) =>
      var wt := s.waiters[w];
      if wt.phase.Scan? then EventOwner(s, wt.events[wt.scanned]) else WaiterOwner(s, w)
    case Setting(e) => WaiterOwner(s, s.events[e].waits[s.events[e].given].waiter)
  }

  function EventOwner(s: Sys, e: nat): Proc
    requires e < |s.events| && !s.events[e].holder.Free?
  {
    match s.events[e].holder
    case Scanner(v, _) => Waiting(v)
    case Destroyer(_) => Destroying(e)
    case Setter(_, _) => Setting(e)
  }

  function WaiterOwner(s: Sys, v: nat): Proc
    requires v < |s.waiters| && !s.waiters[v].lock.Unlocked?
  {
    match s.waiters[v].lock
    case ByCall => Waiting(v)
    case BySetter(f) => Setting(f)
  }

  /** The next step of a clean-up: `trylock` fails if the waiter's mutex is held. */
  function SweepNext(s: Sys, e: nat): Action
    requires e < |s.events| && (s.events[e].holder.Scanner? || s.events[e].holder.Destroyer?)
  {
    var ev := s.events[e];
    var k := SweepPosition(ev);
    SweepEntry(e, k < |ev.waits| && ev.waits[k].waiter < |s.waiters| && !s.waiters[ev.waits[k].waiter].lock.Unlocked?)
  }

  /** The next action of a call that owns a mutex and is not blocked. */
  function NextAction(s: Sys, p: Proc): Action {
    match p
    case Waiting(w) =>
      if w >= |s.waiters| then CheckDone(w) else
      var wt := s.waiters[w];
      (match wt.phase
       case Scan => if wt.scanned < |wt.events| then LockScanned(w) else EndScan(w)
       case Sweep =>
         if !AtEvent(s, wt) then Poll(w) else
         var e := wt.events[wt.scanned];
         if s.events[e].holder.Scanner? && s.events[e].holder != Scanner(w, |s.events[e].waits|) then SweepNext(s, e)
         else Poll(w)
       case Check => CheckDone(w)
       case Asleep => Wake(w, false)
       case Finish(_) => FinishWait(w)
       case Done(_, _) => CheckDone(w))
    case Setting(e) =>
      if e >= |s.events| || !s.events[e].holder.Setter? then EndDrain(e) else
      (match s.events[e].holder.at
       case Drain => if s.events[e].given < |s.events[e].waits| then LockWaiter(e) else EndDrain(e)
       case Serve => ServeEntry(e)
       case Pop(_) => PopEntry(e))
    case Destroying(e) =>
      if e < |s.events| && s.events[e].holder.Destroyer? && s.events[e].holder != Destroyer(|s.events[e].waits|)
      then SweepNext(s, e)
      else EndDestroy(e)
  }

  predicate CanMove(s: Sys, p: Proc) {
    !Blocked(s, p) && Enabled(s, NextAction(s, p))
  }

  /** A call that somebody waits for can take its next step as soon as it is not blocked itself. */
  lemma UnblockedOwnerMoves(s: Sys, o: Proc, p: Proc)
    requires Inv(s) && Blocks(s, o, p) && !Blocked(s, p)
    ensures CanMove(s, p)
  {
    match p
    case Waiting(w) =>
      OwnersScan(s, o, w);
      WaitingMoves(s, w);
    case Setting(e) =>
      SettingIsOwner(s, o, e);
      SettingMoves(s, e);
    case Destroying(e) =>
      DestroyingMoves(s, o, e);
  }

  lemma WaitingMoves(s: Sys, w: nat)
    requires Inv(s) && w < |s.waiters| && HoldsOwnLock(s.waiters[w].phase) && !Blocked(s, Waiting(w))
    ensures Enabled(s, NextAction(s, Waiting(w)))
  {
    assert ControlOk(s, w);
    if s.waiters[w].phase.Sweep? {
      var e := s.waiters[w].events[s.waiters[w].scanned];
      assert EventOk(s, e);
      if s.events[e].holder.next < |s.events[e].waits| {
        assert EntryOk(s, e, s.events[e].waits[s.events[e].holder.next]);
      }
    }
  }

  lemma SettingIsOwner(s: Sys, o: Proc, e: nat)
    requires Inv(s) && Blocks(s, o, Setting(e))
    ensures e < |s.events| && s.events[e].holder.Setter?
  {
    match o
    case Waiting(w) => assert ControlOk(s, w);
    case Setting(f) => assert ControlOk(s, s.events[f].waits[s.events[f].given].waiter);
  }

  lemma SettingMoves(s: Sys, e: nat)
    requires Inv(s) && e < |s.events| && s.events[e].holder.Setter? && !Blocked(s, Setting(e))
    ensures Enabled(s, NextAction(s, Setting(e)))
  {
    assert EventOk(s, e);
    var ev := s.events[e];
    if ev.given < |ev.waits| {
      assert EntryOk(s, e, ev.waits[ev.given]);
    }
  }

  lemma DestroyingMoves(s: Sys, o: Proc, e: nat)
    requires Inv(s) && Blocks(s, o, Destroying(e))
    ensures Enabled(s, NextAction(s, Destroying(e)))
  {
    assert EventOk(s, e);
    var ev := s.events[e];
    if ev.holder.next < |ev.waits| {
      assert EntryOk(s, e, ev.waits[ev.holder.next]);
    }
  }

  /** An upper bound of the measure of every blocked call. */
  function Top(rank: nat -> int, n: nat): int {
    if n == 0 then 1
    else if Top(rank, n - 1) < 2 * rank(n - 1) + 1 then 2 * rank(n - 1) + 1
    else Top(rank, n - 1)
  }

  lemma {:induction false} TopBounds(rank: nat -> int, n: nat, e: nat)
    requires e < n
    ensures 2 * rank(e) + 1 <= Top(rank, n)
  {
    if e < n - 1 {
      TopBounds(rank, n - 1, e);
    }
  }

  lemma BlockedBelowTop(s: Sys, p: Proc, rank: nat -> int)
    requires Blocked(s, p)
    ensures Measure(s, p, rank) <= Top(rank, |s.events|)
  {
    match p
    case Waiting(w) =>
      if AtEvent(s, s.waiters[w]) {
        TopBounds(rank, |s.events|, s.waiters[w].events[s.waiters[w].scanned]);
      } else {
        TopIsPositive(rank, |s.events|);
      }
    case Setting(e) => TopBounds(rank, |s.events|, e);
  }

  lemma {:induction false} TopIsPositive(rank: nat -> int, n: nat)
    ensures Top(rank, n) >= 1
  {
    if n > 0 {
      TopIsPositive(rank, n - 1);
    }
  }

  lemma NextEdge(s: Sys, o: Proc, p: Proc, rank: nat -> int)
    requires Inv(s) && Ordered(s, rank) && Blocks(s, o, p) && Blocked(s, p)
    ensures Blocks(s, p, OwnerFor(s, p))
    ensures Blocked(s, OwnerFor(s, p)) ==>
              Measure(s, p, rank) < Measure(s, OwnerFor(s, p), rank) <= Top(rank, |s.events|)
  {
    var q := OwnerFor(s, p);
    if Blocked(s, q) {
      BlockedMeasureGrows(s, o, p, q, OwnerFor(s, q), rank);
      BlockedBelowTop(s, q, rank);
    }
  }

  /** How far a blocked call is from the end of the global order. */
  function Distance(s: Sys, p: Proc, rank: nat -> int): int {
    if Blocked(s, p) then Top(rank, |s.events|) - Measure(s, p, rank) + 1 else 0
  }

  /** Following the owners of the wanted mutexes ends at a call that can move. */
  lemma {:induction false} Climb(s: Sys, o: Proc, p: Proc, rank: nat -> int) returns (c: seq<Proc>)
    requires Inv(s) && Ordered(s, rank) && Blocks(s, o, p)
    ensures c != [] && c[0] == p && Chain(s, c)
    ensures CanMove(s, c[|c|-1])
    decreases Distance(s, p, rank)
  {
    if Blocked(s, p) {
      NextEdge(s, o, p, rank);
      BlockedBelowTop(s, p, rank);
      var rest := Climb(s, p, OwnerFor(s, p), rank);
      c := [p] + rest;
    } else {
      UnblockedOwnerMoves(s, o, p);
      c := [p];
    }
  }

  /** In every such run, whoever is blocked waits, directly or indirectly, for a call that is not
      blocked and can take its next step. */
  lemma BlockedCallsAreServed(acts: seq<Action>, s: Sys, rank: nat -> int, p: Proc) returns (c: seq<Proc>)
    requires Runs(Init(), acts, s) && OrderedRun(acts, rank) && Blocked(s, p)
    ensures |c| > 1 && c[0] == p && Chain(s, c)
    ensures CanMove(s, c[|c|-1])
  {
    InitInv();
    RunOrdered(Init(), acts, s, rank);
    var rest := Climb(s, p, OwnerFor(s, p), rank);
    c := [p] + rest;
  }
}
