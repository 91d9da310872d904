/** The lazily cleaned `RegisteredWaits` lists refine plain FIFO queues that hold only the waiters
    that are still waiting: expired entries, and skipping or erasing them, cannot be observed. */
module PeventsFifo {
  import opened Pevents
  import opened PeventsInvariant
  import opened PeventsPatch
  import opened PeventsSteps

  // ---------- The specification: one queue of live entries per event ----------

  datatype Op =
    | NewQueue
    | Join(e: nat, x: Info)                  // a scanning call registers, at the tail
    | Hand(e: nat, x: Info, stays: bool)    // SetEvent serves the head; a wait-all stays elsewhere
    | Leave(w: nat)                          // a call returns: it leaves every queue at once
    | Stutter

  function Without(q: seq<Info>, w: nat): seq<Info> {
    if q == [] then []
    else Without(q[..|q|-1], w) + if q[|q|-1].waiter == w then [] else [q[|q|-1]]
  }

  function LeaveAll(qs: seq<seq<Info>>, w: nat): seq<seq<Info>> {
    seq(|qs|, e requires 0 <= e < |qs| => Without(qs[e], w))
  }

  /** The entry handed over is the head of its queue. */
  predicate SpecEnabled(qs: seq<seq<Info>>, op: Op) {
    match op
    case Join(e, _) => e < |qs|
    case Hand(e, x, _) => e < |qs| && qs[e] != [] && x == qs[e][0]
    case _ => true
  }

  function SpecApply(qs: seq<seq<Info>>, op: Op): seq<seq<Info>>
    requires SpecEnabled(qs, op)
  {
    match op
    case NewQueue => qs + [[]]
    case Join(e, x) => qs[e := qs[e] + [x]]
    case Hand(e, x, stays) => if stays then qs[e := qs[e][1..]] else LeaveAll(qs, x.waiter)
    case Leave(w) => LeaveAll(qs, w)
    case Stutter => qs
  }

  predicate SpecStep(qs: seq<seq<Info>>, op: Op, qs': seq<seq<Info>>) {
    SpecEnabled(qs, op) && qs' == SpecApply(qs, op)
  }

  predicate SpecRuns(qs: seq<seq<Info>>, ops: seq<Op>, qs': seq<seq<Info>>)
    decreases |ops|
  {
    if ops == [] then qs' == qs
    else SpecEnabled(qs, ops[0]) && SpecRuns(SpecApply(qs, ops[0]), ops[1..], qs')
  }

  // ---------- The abstraction ----------

  predicate Live(ws: seq<Waiter>, x: Info) {
    x.waiter < |ws| && ws[x.waiter].stillWaiting
  }

  /** The entries whose waiter is still waiting, in order. */
  function LiveOnly(q: seq<Info>, ws: seq<Waiter>): seq<Info> {
    if q == [] then []
    else LiveOnly(q[..|q|-1], ws) + if Live(ws, q[|q|-1]) then [q[|q|-1]] else []
  }

  function Queues(s: Sys): seq<seq<Info>> {
    seq(|s.events|, e requires 0 <= e < |s.events| => LiveOnly(Out(s.events[e]), s.waiters))
  }

  /** What an action does to the queues. */
  function OpOf(s: Sys, a: Action): Op
    requires Enabled(s, a)
  {
    match a
    case CreateEvent(_) => NewQueue
    case Poll(w) =>
      var e := s.waiters[w].events[s.waiters[w].scanned];
      if s.events[e].state then Stutter else Join(e, Info(w, s.waiters[w].scanned))
    case ServeEntry(e) =>
      var x := s.events[e].waits[s.events[e].given];
      if s.waiters[x.waiter].stillWaiting then Hand(e, x, s.waiters[x.waiter].waitAll) else Stutter
    case FinishWait(w) => Leave(w)
    case _ => Stutter
  }

  function Ops(s: Sys, acts: seq<Action>): seq<Op>
    decreases |acts|
  {
    if acts == [] || !Enabled(s, acts[0]) then []
    else [OpOf(s, acts[0])] + Ops(Apply(s, acts[0]), acts[1..])
  }

  // ---------- Filtering ----------

  lemma {:induction false} LiveAppend(a: seq<Info>, b: seq<Info>, ws: seq<Waiter>)
    ensures LiveOnly(a + b, ws) == LiveOnly(a, ws) + LiveOnly(b, ws)
  {
    if b == [] {
      assert a + b == a;
    } else {
      LiveAppend(a, b[..|b|-1], ws);
      assert (a + b)[..|a + b|-1] == a + b[..|b|-1];
    }
  }

  /** Filtering depends on `StillWaiting` only. */
  lemma {:induction false} LiveSame(q: seq<Info>, ws: seq<Waiter>, ws': seq<Waiter>)
    requires forall k | 0 <= k < |q| :: Live(ws, q[k]) == Live(ws', q[k])
    ensures LiveOnly(q, ws) == LiveOnly(q, ws')
  {
    if q != [] {
      LiveSame(q[..|q|-1], ws, ws');
    }
  }

  /** When one waiter stops waiting, its entries vanish from the filtered list. */
  lemma {:induction false} LiveLeave(q: seq<Info>, ws: seq<Waiter>, w: nat, wt: Waiter)
    requires w < |ws| && !wt.stillWaiting
    ensures LiveOnly(q, ws[w := wt]) == Without(LiveOnly(q, ws), w)
  {
    if q != [] {
      LiveLeave(q[..|q|-1], ws, w, wt);
      var rest, x := LiveOnly(q[..|q|-1], ws), q[|q|-1];
      if Live(ws, x) {
        assert LiveOnly(q, ws) == rest + [x] && (rest + [x])[..|rest + [x]|-1] == rest;
      } else {
        assert LiveOnly(q, ws) == rest;
      }
      assert LiveOnly(q, ws[w := wt]) == Without(rest, w) + if Live(ws[w := wt], x) then [x] else [];
    }
  }

  lemma {:induction false} LiveDrop(q: seq<Info>, k: nat, ws: seq<Waiter>)
    requires k < |q| && !Live(ws, q[k])
    ensures LiveOnly(q[..k] + q[k+1..], ws) == LiveOnly(q, ws)
  {
    assert q == q[..k] + ([q[k]] + q[k+1..]);
    LiveAppend(q[..k], q[k+1..], ws);
    LiveAppend(q[..k], [q[k]] + q[k+1..], ws);
    LiveAppend([q[k]], q[k+1..], ws);
    assert LiveOnly([q[k]], ws) == [];
  }

  lemma {:induction false} LiveFirst(q: seq<Info>, ws: seq<Waiter>)
    requires q != []
    ensures LiveOnly(q, ws) == (if Live(ws, q[0]) then [q[0]] else []) + LiveOnly(q[1..], ws)
  {
    assert q == [q[0]] + q[1..];
    LiveAppend([q[0]], q[1..], ws);
    assert LiveOnly([q[0]], ws) == if Live(ws, q[0]) then [q[0]] else [];
  }

  // ---------- The refinement ----------

  /** Actions under which neither an outstanding list nor a `StillWaiting` flag changes. */
  predicate Plain(s: Sys, a: Action)
    requires Enabled(s, a)
  {
    match a
    case CreateEvent(_) => false
    case StartWait(_, _, _) => false
    case Poll(w) => s.events[s.waiters[w].events[s.waiters[w].scanned]].state
    case SweepEntry(e, busy) =>
      busy || s.waiters[s.events[e].waits[SweepPosition(s.events[e])].waiter].stillWaiting
    case ServeEntry(_) => false
    case FinishWait(_) => false
    case _ => true
  }

  lemma PlainOut(s: Sys, a: Action, e: nat)
    requires Enabled(s, a) && Plain(s, a) && e < |s.events| && EventOk(s, e)
    ensures |Apply(s, a).events| == |s.events| && Out(Apply(s, a).events[e]) == Out(s.events[e])
  {
  }

  lemma PlainWaiting(s: Sys, a: Action, x: Info)
    requires Enabled(s, a) && Plain(s, a)
    ensures Live(Apply(s, a).waiters, x) == Live(s.waiters, x)
  {
  }

  lemma PlainStutters(s: Sys, a: Action)
    requires Core(s) && Enabled(s, a) && Plain(s, a)
    ensures Queues(Apply(s, a)) == Queues(s)
  {
    var s' := Apply(s, a);
    forall e | 0 <= e < |s.events|
      ensures |s'.events| == |s.events| && Queues(s')[e] == Queues(s)[e]
    {
      assert EventOk(s, e);
      PlainOut(s, a, e);
      var q := Out(s.events[e]);
      forall k | 0 <= k < |q| ensures Live(s.waiters, q[k]) == Live(s'.waiters, q[k]) {
        PlainWaiting(s, a, q[k]);
      }
      LiveSame(q, s.waiters, s'.waiters);
    }
    if s.events == [] {
      assert |s'.events| == 0;
    }
  }

  lemma StartStutters(s: Sys, evs: seq<nat>, all: bool, timeout: Timeout)
    requires Core(s) && Enabled(s, StartWait(evs, all, timeout))
    ensures Queues(Apply(s, StartWait(evs, all, timeout))) == Queues(s)
  {
    var s' := Apply(s, StartWait(evs, all, timeout));
    forall e | 0 <= e < |s.events| ensures Queues(s')[e] == Queues(s)[e] {
      var q := Out(s.events[e]);
      forall k | 0 <= k < |q| ensures Live(s.waiters, q[k]) == Live(s'.waiters, q[k]) {
        assert EntryOk(s, e, s.events[e].waits[s.events[e].given + k]);
      }
      LiveSame(q, s.waiters, s'.waiters);
    }
  }

  lemma SweepFiltered(s: Sys, e: nat)
    requires Core(s) && Enabled(s, SweepEntry(e, false)) && !Plain(s, SweepEntry(e, false))
    ensures LiveOnly(Out(ApplySweep(s, e, false).events[e]), s.waiters) == LiveOnly(Out(s.events[e]), s.waiters)
  {
    hide EntriesOk, ControlsOk, RecordsOk, SlotsOk, EntryOk, ControlOk, LiveOnly, Out;
    var ev := s.events[e];
    var k := SweepPosition(ev);
    assert EventOk(s, e);
    OutWhole(ev);
    OutWhole(ApplySweep(s, e, false).events[e]);
    LiveDrop(ev.waits, k, s.waiters);
  }

  lemma SweepStutters(s: Sys, e: nat)
    requires Core(s) && Enabled(s, SweepEntry(e, false)) && !Plain(s, SweepEntry(e, false))
    ensures Queues(ApplySweep(s, e, false)) == Queues(s)
  {
    var s' := ApplySweep(s, e, false);
    SweepFiltered(s, e);
    forall f | 0 <= f < |s.events| ensures Queues(s')[f] == Queues(s)[f] {
      LiveSame(Out(s'.events[f]), s'.waiters, s.waiters);
    }
  }

  lemma PollFiltered(s: Sys, w: nat)
    requires Core(s) && Enabled(s, Poll(w)) && !Plain(s, Poll(w))
    ensures
      var e := s.waiters[w].events[s.waiters[w].scanned];
      LiveOnly(Out(ApplyPoll(s, w).events[e]), s.waiters) == Queues(s)[e] + [Info(w, s.waiters[w].scanned)]
  {
    var e := s.waiters[w].events[s.waiters[w].scanned];
    var x := Info(w, s.waiters[w].scanned);
    assert EventOk(s, e) && RecordOk(s, w);
    hide Out;
    OutWhole(s.events[e]);
    OutWhole(ApplyPoll(s, w).events[e]);
    LiveAppend(s.events[e].waits, [x], s.waiters);
    assert LiveOnly([x], s.waiters) == [x];
  }

  lemma PollJoins(s: Sys, w: nat)
    requires Core(s) && Enabled(s, Poll(w)) && !Plain(s, Poll(w))
    ensures SpecStep(Queues(s), OpOf(s, Poll(w)), Queues(ApplyPoll(s, w)))
  {
    hide Out, LiveOnly, EntriesOk, ControlsOk, SlotsOk;
    var s' := ApplyPoll(s, w);
    var e := s.waiters[w].events[s.waiters[w].scanned];
    PollFiltered(s, w);
    forall f | 0 <= f < |s.events| ensures Queues(s')[f] == LiveOnly(Out(s'.events[f]), s.waiters) {
      LiveSame(Out(s'.events[f]), s'.waiters, s.waiters);
    }
    assert Queues(s') == Queues(s)[e := Queues(s)[e] + [Info(w, s.waiters[w].scanned)]];
  }

  lemma FinishLeaves(s: Sys, w: nat)
    requires Core(s) && Enabled(s, FinishWait(w))
    ensures Queues(ApplyFinish(s, w)) == LeaveAll(Queues(s), w)
  {
    var s' := ApplyFinish(s, w);
    forall e | 0 <= e < |s.events| ensures Queues(s')[e] == Without(Queues(s)[e], w) {
      LiveLeave(Out(s.events[e]), s.waiters, w, s'.waiters[w]);
    }
  }

  /** Nothing but entry `q[0]` of event `e` changes its filtered list, for the old flags. */
  lemma ServeFiltered(s: Sys, e: nat)
    requires Core(s) && Enabled(s, ServeEntry(e))
    requires Apply(s, ServeEntry(e)).waiters[s.events[e].waits[s.events[e].given].waiter].stillWaiting
             == s.waiters[s.events[e].waits[s.events[e].given].waiter].stillWaiting
    ensures |Queues(ApplyServe(s, e))| == |s.events|
    ensures forall f | 0 <= f < |s.events| :: Queues(ApplyServe(s, e))[f] ==
              if f == e then LiveOnly(Out(s.events[e])[1..], s.waiters) else Queues(s)[f]
  {
    hide ControlOk, RecordOk, SlotOk;
    var s' := ApplyServe(s, e);
    assert EventOk(s, e) && Out(s'.events[e]) == Out(s.events[e])[1..];
    forall f | 0 <= f < |s.events| ensures Queues(s')[f] == LiveOnly(Out(s'.events[f]), s.waiters) {
      LiveSame(Out(s'.events[f]), s'.waiters, s.waiters);
    }
  }

  lemma ServeLeaves(s: Sys, e: nat)
    requires Core(s) && Enabled(s, ServeEntry(e))
    requires OpOf(s, ServeEntry(e)).Hand? && !OpOf(s, ServeEntry(e)).stays
    ensures Queues(ApplyServe(s, e))
         == LeaveAll(Queues(s), s.events[e].waits[s.events[e].given].waiter)
  {
    var s' := ApplyServe(s, e);
    var x := s.events[e].waits[s.events[e].given];
    var q := Out(s.events[e]);
    assert EventOk(s, e) && x == q[0] && Out(s'.events[e]) == q[1..];
    forall f | 0 <= f < |s.events| ensures Queues(s')[f] == Without(Queues(s)[f], x.waiter) {
      LiveLeave(Out(s.events[f]), s.waiters, x.waiter, s'.waiters[x.waiter]);
      if f == e {
        LiveFirst(q, s'.waiters);
      }
    }
  }

  lemma ServeStays(s: Sys, e: nat)
    requires Core(s) && Enabled(s, ServeEntry(e))
    requires OpOf(s, ServeEntry(e)).Hand? && OpOf(s, ServeEntry(e)).stays
    ensures Queues(s)[e] != [] && s.events[e].waits[s.events[e].given] == Queues(s)[e][0]
    ensures Queues(ApplyServe(s, e)) == Queues(s)[e := Queues(s)[e][1..]]
  {
    assert Out(s.events[e])[0] == s.events[e].waits[s.events[e].given];
    LiveFirst(Out(s.events[e]), s.waiters);
    ServeFiltered(s, e);
    hide EventsOk, EntriesOk, ControlsOk, RecordsOk, SlotsOk, LiveOnly, Out;
    assert Queues(ApplyServe(s, e)) == Queues(s)[e := Queues(s)[e][1..]];
  }

  lemma ServeExpired(s: Sys, e: nat)
    requires Core(s) && Enabled(s, ServeEntry(e)) && OpOf(s, ServeEntry(e)).Stutter?
    ensures Queues(ApplyServe(s, e)) == Queues(s)
  {
    var q := Out(s.events[e]);
    assert EventOk(s, e);
    LiveFirst(q, s.waiters);
    ServeFiltered(s, e);
    assert Queues(s)[e] == LiveOnly(q[1..], s.waiters);
    assert Queues(ApplyServe(s, e)) == Queues(s);
  }

  /** Serving a live entry takes the head of the queue, and only that queue's head. */
  lemma ServeTakesHead(s: Sys, e: nat)
    requires Core(s) && Enabled(s, ServeEntry(e))
    ensures SpecStep(Queues(s), OpOf(s, ServeEntry(e)), Queues(ApplyServe(s, e)))
  {
    var op := OpOf(s, ServeEntry(e));
    if op.Hand? && !op.stays {
      ServeLeaves(s, e);
      var q := Out(s.events[e]);
      assert EventOk(s, e);
      LiveFirst(q, s.waiters);
    } else if op.Hand? {
      ServeStays(s, e);
    } else {
      ServeExpired(s, e);
    }
  }

  /** Every action of the library is one step of the plain FIFO queues. */
  lemma FifoStep(s: Sys, a: Action)
    requires Inv(s) && Enabled(s, a)
    ensures SpecStep(Queues(s), OpOf(s, a), Queues(Apply(s, a)))
  {
    if Plain(s, a) {
      PlainStutters(s, a);
    } else if a.CreateEvent? {
      assert Queues(Apply(s, a)) == Queues(s) + [[]];
    } else if a.StartWait? {
      StartStutters(s, a.events, a.waitAll, a.timeout);
    } else if a.ServeEntry? {
      ServeTakesHead(s, a.e);
    } else if a.FinishWait? {
      FinishLeaves(s, a.w);
    } else if a.Poll? {
      PollJoins(s, a.w);
    } else {
      SweepStutters(s, a.e);
    }
  }

  /** Every run of the library is a run of the plain FIFO queues. */
  lemma {:induction false} FifoRun(s: Sys, acts: seq<Action>, s': Sys)
    requires Inv(s) && Runs(s, acts, s')
    ensures SpecRuns(Queues(s), Ops(s, acts), Queues(s'))
    decreases |acts|
  {
    if acts != [] {
      var m := Apply(s, acts[0]);
      FifoStep(s, acts[0]);
      StepInv(s, acts[0]);
      FifoRun(m, acts[1..], s');
      assert Ops(s, acts)[1..] == Ops(m, acts[1..]);
    }
  }

  /** `SetEvent` leaves a signal behind only if nobody who still waits is queued. */
  lemma LatchedMeansNobodyWaits(s: Sys, e: nat)
    requires Inv(s) && Enabled(s, EndDrain(e))
    ensures Queues(s)[e] == []
  {
    assert EventOk(s, e);
    assert Out(s.events[e]) == [];
  }
}
