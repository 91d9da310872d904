/** The global order is exactly what keeps multi-waits from deadlocking: a set of argument lists has no
    run into a cycle of blocked calls if and only if one order of the events fits all of them. */
module PeventsCycles {
  import opened Pevents
  import opened PeventsInvariant
  import opened PeventsSteps
  import opened PeventsDeadlock
  import opened PeventsRuns

  // ---------- Orders and walks ----------

  predicate AllIncreasing(lists: set<seq<nat>>, rank: nat -> int) {
    forall l | l in lists :: Increasing(l, rank)
  }

  /** One global order in which every list is strictly increasing. */
  ghost predicate HasOrder(lists: set<seq<nat>>) {
    exists rank: nat -> int :: AllIncreasing(lists, rank)
  }

  /** Two positions of a list, one before the other. */
  datatype Edge = Edge(list: seq<nat>, i: nat, j: nat)

  predicate IsEdge(lists: set<seq<nat>>, d: Edge) {
    d.list in lists && d.i < d.j < |d.list|
  }

  function From(d: Edge): nat
    requires d.i < |d.list|
  {
    d.list[d.i]
  }

  function To(d: Edge): nat
    requires d.j < |d.list|
  {
    d.list[d.j]
  }

  predicate Walk(lists: set<seq<nat>>, c: seq<Edge>) {
    && (forall k | 0 <= k < |c| :: IsEdge(lists, c[k]))
    && (forall k | 0 <= k < |c| - 1 :: To(c[k]) == From(c[k + 1]))
  }

  predicate ClosedWalk(lists: set<seq<nat>>, c: seq<Edge>) {
    Walk(lists, c) && c != [] && To(c[|c| - 1]) == From(c[0])
  }

  ghost predicate Before(lists: set<seq<nat>>, x: nat, y: nat) {
    exists d :: IsEdge(lists, d) && From(d) == x && To(d) == y
  }

  /** The longest walk of at most k edges from v, over events below n. */
  ghost function Depth(lists: set<seq<nat>>, n: nat, v: nat, k: nat): nat
    decreases k, 0
  {
    if k == 0 then 0 else Best(lists, n, v, k - 1, n)
  }

  ghost function Best(lists: set<seq<nat>>, n: nat, v: nat, k: nat, y: nat): nat
    decreases k, y + 1
  {
    if y == 0 then 0
    else
      var b := Best(lists, n, v, k, y - 1);
      var d := if Before(lists, v, y - 1) then 1 + Depth(lists, n, y - 1, k) else 0;
      if d > b then d else b
  }

  lemma {:induction false} BestAtMost(lists: set<seq<nat>>, n: nat, v: nat, k: nat, y: nat)
    ensures Best(lists, n, v, k, y) <= k + 1
    decreases k, y + 1
  {
    if y > 0 {
      BestAtMost(lists, n, v, k, y - 1);
      DepthAtMost(lists, n, y - 1, k);
    }
  }

  lemma {:induction false} DepthAtMost(lists: set<seq<nat>>, n: nat, v: nat, k: nat)
    ensures Depth(lists, n, v, k) <= k
    decreases k, 0
  {
    if k > 0 {
      BestAtMost(lists, n, v, k - 1, n);
    }
  }

  lemma {:induction false} BestAtLeast(lists: set<seq<nat>>, n: nat, v: nat, k: nat, y: nat, z: nat)
    requires z < y && Before(lists, v, z)
    ensures Best(lists, n, v, k, y) >= 1 + Depth(lists, n, z, k)
    decreases y
  {
    if z < y - 1 {
      BestAtLeast(lists, n, v, k, y - 1, z);
    }
  }

  /** A longest walk that does not use all its edges does not need them. */
  lemma {:induction false} BestSettles(lists: set<seq<nat>>, n: nat, v: nat, k: nat, y: nat)
    requires k > 0 && Best(lists, n, v, k, y) <= k
    ensures Best(lists, n, v, k, y) == Best(lists, n, v, k - 1, y)
    decreases k, y + 1
  {
    if y > 0 {
      BestSettles(lists, n, v, k, y - 1);
      if Before(lists, v, y - 1) {
        DepthSettles(lists, n, y - 1, k);
      }
    }
  }

  lemma {:induction false} DepthSettles(lists: set<seq<nat>>, n: nat, v: nat, k: nat)
    requires k > 0 && Depth(lists, n, v, k) < k
    ensures Depth(lists, n, v, k) == Depth(lists, n, v, k - 1)
    decreases k, 0
  {
    if k == 1 {
      assert Depth(lists, n, v, 0) == 0;
    } else {
      BestSettles(lists, n, v, k - 1, n);
    }
  }

  /** A walk as long as the depth. */
  lemma {:induction false} LongestWalk(lists: set<seq<nat>>, n: nat, v: nat, k: nat) returns (c: seq<Edge>)
    ensures Walk(lists, c) && |c| == Depth(lists, n, v, k)
    ensures c != [] ==> From(c[0]) == v
    decreases k
  {
    if Depth(lists, n, v, k) == 0 {
      c := [];
    } else {
      var y := BestStep(lists, n, v, k - 1, n);
      var d: Edge :| IsEdge(lists, d) && From(d) == v && To(d) == y;
      var rest := LongestWalk(lists, n, y, k - 1);
      c := [d] + rest;
    }
  }

  lemma {:induction false} BestStep(lists: set<seq<nat>>, n: nat, v: nat, k: nat, y: nat) returns (z: nat)
    requires Best(lists, n, v, k, y) > 0
    ensures z < y && Before(lists, v, z) && Best(lists, n, v, k, y) == 1 + Depth(lists, n, z, k)
    decreases y
  {
    if Best(lists, n, v, k, y) == Best(lists, n, v, k, y - 1) {
      z := BestStep(lists, n, v, k, y - 1);
    } else {
      z := y - 1;
    }
  }

  lemma {:induction false} Pigeonhole(f: seq<nat>, m: nat) returns (a: nat, b: nat)
    requires |f| > m > 0 && forall k | 0 <= k < |f| :: f[k] < m
    ensures a < b < |f| && f[a] == f[b]
    decreases m
  {
    var last := |f| - 1;
    if m == 1 {
      a, b := 0, 1;
    } else if k: nat :| k < last && f[k] == f[last] {
      a, b := k, last;
    } else {
      var g := seq(last, k requires 0 <= k < last => if f[k] == m - 1 then f[last] else f[k]);
      a, b := Pigeonhole(g, m - 1);
    }
  }

  /** Events below this are all there are in the lists. */
  ghost predicate AllBelow(lists: set<seq<nat>>, n: nat) {
    forall l, e | l in lists && e in l :: e < n
  }

  lemma {:induction false} SomeBound(lists: set<seq<nat>>) returns (n: nat)
    ensures AllBelow(lists, n)
    decreases lists
  {
    if lists == {} {
      n := 0;
    } else {
      var l :| l in lists;
      var m := SomeBound(lists - {l});
      n := if m < Above(l) then Above(l) else m;
    }
  }

  /** A walk with as many edges as there are events comes back to where it has been. */
  lemma WalkCloses(lists: set<seq<nat>>, n: nat, c: seq<Edge>) returns (d: seq<Edge>)
    requires AllBelow(lists, n) && Walk(lists, c) && |c| == n > 0
    ensures ClosedWalk(lists, d)
  {
    var vs := seq(n + 1, t requires 0 <= t <= n => if t < n then From(c[t]) else To(c[n - 1]));
    forall t | 0 <= t <= n ensures vs[t] < n {
      if t < n {
        assert IsEdge(lists, c[t]) && c[t].list[c[t].i] in c[t].list;
      } else {
        assert IsEdge(lists, c[n - 1]) && c[n - 1].list[c[n - 1].j] in c[n - 1].list;
      }
    }
    var a, b := Pigeonhole(vs, n);
    d := c[a..b];
    assert To(c[b - 1]) == vs[b];
  }

  ghost function Height(lists: set<seq<nat>>, n: nat, v: nat): int {
    0 - Depth(lists, n, v, n)
  }

  /** Without a closed walk the depths give an order. */
  lemma NoOrderHasWalk(lists: set<seq<nat>>)
    requires !HasOrder(lists)
    ensures exists c :: ClosedWalk(lists, c)
  {
    var n := SomeBound(lists);
    if v: nat :| v < n && Depth(lists, n, v, n) >= n {
      DepthAtMost(lists, n, v, n);
      var c := LongestWalk(lists, n, v, n);
      var d := WalkCloses(lists, n, c);
    } else {
      var rank: nat -> int := (v: nat) => Height(lists, n, v);
      assert AllIncreasing(lists, rank) by {
        forall l: seq<nat> | l in lists ensures Increasing(l, rank) {
          forall i, j | 0 <= i < j < |l| ensures rank(l[i]) < rank(l[j]) {
            assert IsEdge(lists, Edge(l, i, j));
            assert l[i] in l && l[j] in l;
            Deeper(lists, n, l[i], l[j]);
          }
        }
      }
    }
  }

  lemma {:induction false} Deeper(lists: set<seq<nat>>, n: nat, x: nat, y: nat)
    requires x < n && y < n && Before(lists, x, y)
    requires forall v: nat | v < n :: Depth(lists, n, v, n) < n
    ensures Depth(lists, n, x, n) > Depth(lists, n, y, n)
  {
    DepthSettles(lists, n, y, n);
    BestAtLeast(lists, n, x, n - 1, n, y);
  }

  // ---------- From a closed walk to a deadlock ----------

  /** The edge after k, around the walk. */
  function After(c: seq<Edge>, k: nat): nat
    requires k < |c|
  {
    Next(k, |c|)
  }

  lemma AroundTheWalk(lists: set<seq<nat>>, c: seq<Edge>, k: nat)
    requires ClosedWalk(lists, c) && k < |c|
    ensures IsEdge(lists, c[k]) && IsEdge(lists, c[After(c, k)]) && To(c[k]) == From(c[After(c, k)])
  {
  }

  /** The first k edges of the walk each have a wait-any that has scanned its list up to the second of
      the two positions; all events are idle. */
  predicate Prepared(lists: set<seq<nat>>, c: seq<Edge>, k: nat, n: nat, s: Sys)
    requires Walk(lists, c) && k <= |c|
  {
    && |s.waiters| == k && |s.events| == n && AllIdle(s) && AllHeld(s)
    && forall q | 0 <= q < k :: ReadyAt(s, c, q)
  }

  /** Call q holds its own mutex, has scanned up to the second position of its edge, and is registered
      at the first. */
  predicate ReadyAt(s: Sys, c: seq<Edge>, q: nat)
    requires q < |c| && c[q].i < c[q].j < |c[q].list|
  {
    && q < |s.waiters| && From(c[q]) < |s.events| && To(c[q]) < |s.events|
    && s.waiters[q].events == c[q].list && s.waiters[q].scanned == c[q].j
    && s.waiters[q].phase.Scan? && s.waiters[q].lock.ByCall?
    && Info(q, c[q].i) in s.events[From(c[q])].waits
  }

  lemma {:induction false} Prepare(lists: set<seq<nat>>, c: seq<Edge>, k: nat, n: nat) returns (s: Sys)
    requires Walk(lists, c) && k <= |c| && AllBelow(lists, n)
    ensures Reach(lists, s) && Prepared(lists, c, k, n, s)
  {
    if k == 0 {
      Created(lists, n, false);
      s := Sys(NewEvents(n, false), [], Start);
    } else {
      var m := Prepare(lists, c, k - 1, n);
      assert IsEdge(lists, c[k - 1]);
      Started(lists, m, c[k - 1].list, false, Infinite);
      var m1 := m.(waiters := m.waiters + [NewWaiter(c[k - 1].list, false, Infinite)]);
      s := ScanTo(lists, m1, k - 1, c[k - 1].j);
      StillReady(lists, c, k, n, m, m1, s);
    }
  }

  lemma StillReady(lists: set<seq<nat>>, c: seq<Edge>, k: nat, n: nat, m: Sys, m1: Sys, s: Sys)
    requires Walk(lists, c) && 0 < k <= |c| && AllBelow(lists, n) && Prepared(lists, c, k - 1, n, m)
    requires m1 == m.(waiters := m.waiters + [NewWaiter(c[k - 1].list, false, Infinite)])
    requires ScannedTo(m1, k - 1, c[k - 1].j, s) && AllIdle(s) && AllHeld(s)
    ensures Prepared(lists, c, k, n, s)
  {
    hide AllIdle, AllHeld;
    forall q | 0 <= q < k ensures ReadyAt(s, c, q) {
      assert IsEdge(lists, c[q]) && From(c[q]) in c[q].list && To(c[q]) in c[q].list;
      if q < k - 1 {
        assert ReadyAt(m, c, q);
        InLonger(m.events[From(c[q])].waits, s.events[From(c[q])].waits, Info(q, c[q].i));
      }
    }
  }

  lemma InLonger(a: seq<Info>, b: seq<Info>, x: Info)
    requires a <= b && x in a
    ensures x in b
  {
    var k :| 0 <= k < |a| && a[k] == x;
    assert b[k] == x;
  }

  /** The first k events of the walk have been locked by `SetEvent` calls. */
  predicate SetTo(lists: set<seq<nat>>, c: seq<Edge>, k: nat, s: Sys, t: Sys)
    requires Walk(lists, c) && k <= |c|
  {
    && t.waiters == s.waiters && |t.events| == |s.events|
    && (forall e | 0 <= e < |s.events| ::
          t.events[e].waits == s.events[e].waits && (Idle(t.events[e]) || IsSet(t.events[e])))
    && forall q | 0 <= q < k :: From(c[q]) < |t.events| && IsSet(t.events[From(c[q])])
  }

  predicate IsSet(ev: Event) {
    ev.holder == Setter(false, Drain) && ev.given == 0
  }

  lemma {:induction false} LockSets(lists: set<seq<nat>>, c: seq<Edge>, k: nat, n: nat, s: Sys) returns (t: Sys)
    requires Walk(lists, c) && k <= |c| && Reach(lists, s) && Prepared(lists, c, |c|, n, s)
    ensures Reach(lists, t) && SetTo(lists, c, k, s, t)
  {
    if k == 0 {
      t := s;
    } else {
      var m := LockSets(lists, c, k - 1, n, s);
      assert ReadyAt(s, c, k - 1);
      var x := From(c[k - 1]);
      if IsSet(m.events[x]) {
        t := m;
      } else {
        ReachStep(lists, m, LockSet(x));
        t := Apply(m, LockSet(x));
      }
    }
  }

  /** All calls of a closed walk in place, its events locked: the call that the setter of the event that
      call q wants waits for. */
  function Blocker(c: seq<Edge>, s: Sys, q: nat): nat
    requires q < |c| && c[q].j < |c[q].list| && To(c[q]) < |s.events| && s.events[To(c[q])].waits != []
  {
    s.events[To(c[q])].waits[0].waiter
  }

  ghost predicate InPlace(lists: set<seq<nat>>, c: seq<Edge>, s: Sys) {
    && ClosedWalk(lists, c) && |s.waiters| == |c| && AllHeld(s)
    && forall q | 0 <= q < |c| ::
         ReadyAt(s, c, q) && IsSet(s.events[To(c[q])]) && s.events[To(c[q])].waits != []
  }

  lemma AllInPlace(lists: set<seq<nat>>, c: seq<Edge>, n: nat, s: Sys, t: Sys)
    requires ClosedWalk(lists, c) && Prepared(lists, c, |c|, n, s) && SetTo(lists, c, |c|, s, t)
    ensures InPlace(lists, c, t)
  {
    forall e, k | 0 <= e < |t.events| && 0 <= k < |t.events[e].waits| ensures Held(t, t.events[e].waits[k]) {
      assert Held(s, s.events[e].waits[k]);
    }
    forall q | 0 <= q < |c|
      ensures ReadyAt(t, c, q) && IsSet(t.events[To(c[q])]) && t.events[To(c[q])].waits != []
    {
      AroundTheWalk(lists, c, q);
      assert ReadyAt(s, c, q) && ReadyAt(s, c, After(c, q));
    }
  }

  /** In place, call q waits for a setter, and that for the next blocker. */
  lemma TwoSteps(lists: set<seq<nat>>, c: seq<Edge>, s: Sys, q: nat)
    requires InPlace(lists, c, s) && q < |c|
    ensures Blocker(c, s, q) < |c|
    ensures Blocks(s, Waiting(q), Setting(To(c[q]))) && Blocks(s, Setting(To(c[q])), Waiting(Blocker(c, s, q)))
  {
    assert ReadyAt(s, c, q);
    assert Held(s, s.events[To(c[q])].waits[0]);
  }

  /** The blockers from q on. */
  ghost function Trail(lists: set<seq<nat>>, c: seq<Edge>, s: Sys, q: nat, k: nat): (f: seq<nat>)
    requires InPlace(lists, c, s) && q < |c|
    ensures |f| == k + 1 && f[0] == q && forall i | 0 <= i < |f| :: f[i] < |c|
    ensures forall i | 0 <= i < k :: f[i + 1] == Blocker(c, s, f[i])
    decreases k
  {
    if k == 0 then [q]
    else
      TwoSteps(lists, c, s, q);
      [q] + Trail(lists, c, s, Blocker(c, s, q), k - 1)
  }

  /** The processes along a trail. */
  function Procs(c: seq<Edge>, f: seq<nat>): seq<Proc>
    requires forall i | 0 <= i < |f| :: f[i] < |c| && c[f[i]].j < |c[f[i]].list|
  {
    seq(2 * |f|, u requires 0 <= u < 2 * |f| => if u % 2 == 0 then Waiting(f[u / 2]) else Setting(To(c[f[u / 2]])))
  }

  /** Whoever is blocked by whom: among finitely many calls the trail of blockers closes. */
  lemma TrailCloses(lists: set<seq<nat>>, c: seq<Edge>, s: Sys) returns (p: seq<Proc>)
    requires InPlace(lists, c, s)
    ensures Cycle(s, p)
  {
    hide Blocks;
    var f := Trail(lists, c, s, 0, |c|);
    var a, b := Pigeonhole(f, |c|);
    var g := f[a..b];
    assert forall k | 0 <= k < |g| :: g[k] == f[a + k];
    p := LoopBlocks(lists, c, s, g);
  }

  /** A closed piece of a trail is a cycle. */
  lemma LoopBlocks(lists: set<seq<nat>>, c: seq<Edge>, s: Sys, g: seq<nat>) returns (p: seq<Proc>)
    requires InPlace(lists, c, s) && g != [] && forall k | 0 <= k < |g| :: g[k] < |c|
    requires forall k | 0 <= k < |g| :: g[Next(k, |g|)] == Blocker(c, s, g[k])
    ensures Cycle(s, p)
  {
    hide Blocks;
    assert forall k | 0 <= k < |g| :: ReadyAt(s, c, g[k]);
    p := Procs(c, g);
    forall u | 0 <= u < |p| ensures Blocks(s, p[u], p[Next(u, |p|)]) {
      NextProc(c, g, u);
      TwoSteps(lists, c, s, g[u / 2]);
    }
  }

  /** Along a trail a waiter comes before the setter that has its list locked, and the next waiter
      after it. */
  lemma NextProc(c: seq<Edge>, g: seq<nat>, u: nat)
    requires forall i | 0 <= i < |g| :: g[i] < |c| && c[g[i]].j < |c[g[i]].list|
    requires u < 2 * |g|
    ensures
      var p, k := Procs(c, g), u / 2;
      if u % 2 == 0 then p[u] == Waiting(g[k]) && p[Next(u, |p|)] == Setting(To(c[g[k]]))
      else p[u] == Setting(To(c[g[k]])) && p[Next(u, |p|)] == Waiting(g[Next(k, |g|)])
  {
    if u % 2 == 1 {
      assert Next(u, 2 * |g|) == 2 * Next(u / 2, |g|);
    }
  }

  lemma ClosedWalkDeadlocks(lists: set<seq<nat>>, c: seq<Edge>) returns (s: Sys, p: seq<Proc>)
    requires ClosedWalk(lists, c)
    ensures Reach(lists, s) && Cycle(s, p)
  {
    var n := SomeBound(lists);
    var m := Prepare(lists, c, |c|, n);
    s := LockSets(lists, c, |c|, n, m);
    AllInPlace(lists, c, n, m, s);
    p := TrailCloses(lists, c, s);
  }

  // ---------- The exact condition ----------

  /** Some run whose multi-waits use these lists reaches a cycle of blocked calls. */
  ghost predicate CanDeadlock(lists: set<seq<nat>>) {
    exists s, p :: Reach(lists, s) && Cycle(s, p)
  }

  /** Multi-waits with these argument lists can deadlock with setters exactly if no global order fits
      all the lists. */
  lemma DeadlocksExactly(lists: set<seq<nat>>)
    ensures CanDeadlock(lists) <==> !HasOrder(lists)
  {
    if CanDeadlock(lists) && HasOrder(lists) {
      var s, p :| Reach(lists, s) && Cycle(s, p);
      var acts :| Runs(Init(), acts, s) && Listed(acts, lists);
      var rank: nat -> int :| AllIncreasing(lists, rank);
      assert OrderedRun(acts, rank);
      DeadlockFree(acts, s, rank, p);
    }
    if !HasOrder(lists) {
      NoOrderHasWalk(lists);
      var c :| ClosedWalk(lists, c);
      var s, p := ClosedWalkDeadlocks(lists, c);
    }
  }

  /** In particular any two lists that name some x and y in opposite orders can deadlock. */
  lemma OppositeOrdersDeadlock(a: Edge, b: Edge)
    requires a.i < a.j < |a.list| && b.i < b.j < |b.list| && From(a) == To(b) && To(a) == From(b)
    ensures CanDeadlock({a.list, b.list})
  {
    assert ClosedWalk({a.list, b.list}, [a, b]);
    var s, p := ClosedWalkDeadlocks({a.list, b.list}, [a, b]);
  }

  /** And so can any list that repeats an event, by itself. */
  lemma RepeatedEventDeadlocks(a: Edge)
    requires a.i < a.j < |a.list| && From(a) == To(a)
    ensures CanDeadlock({a.list})
  {
    assert ClosedWalk({a.list}, [a]);
    var s, p := ClosedWalkDeadlocks({a.list}, [a]);
  }
}
