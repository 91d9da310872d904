/** Every action but the two that create something rewrites at most one event and at most one
    waiter. This module shows once and for all what such a rewriting has to meet locally so that
    the invariant of every other event, waiter and position survives. */
module PeventsPatch {
  import opened Pevents
  import opened PeventsInvariant

  /** Rewrite event `e` (none if out of range) and waiter `v` (none if out of range). */
  function Patch(s: Sys, e: nat, ev: Event, v: nat, wt: Waiter, h: History): Sys {
    Sys(if e < |s.events| then s.events[e := ev] else s.events,
        if v < |s.waiters| then s.waiters[v := wt] else s.waiters,
        h)
  }

  /** The structural part of the invariant. */
  predicate Core(s: Sys) {
    EventsOk(s) && EntriesOk(s) && ControlsOk(s) && RecordsOk(s) && SlotsOk(s)
  }

  /** What rewriting the event has to respect. */
  ghost predicate EventLocal(s: Sys, e: nat, ev: Event, v: nat, s': Sys)
    requires e < |s.events| && e < |s'.events|
  {
    var was := s.events[e];
    && EventOk(s', e)
    && (ev.alive == was.alive || !InUse(s, e))
    && (was.holder.Scanner? && was.holder.call != v ==>
          ev.holder.Scanner? && ev.holder.call == was.holder.call)
    && (was.holder.Setter? && was.holder.at.Serve? ==>
          HasNext(s, was) && was.waits[was.given].waiter == v)
    && (forall w: nat :: w != v ==> Naming(Out(ev), w) == Naming(Out(was), w))
    && (forall w: nat, i: nat :: w != v ==> Copies(Out(ev), Info(w, i)) == Copies(Out(was), Info(w, i)))
    && (forall k | ev.given <= k < |ev.waits| :: ev.waits[k] in Out(was) || EntryOk(s', e, ev.waits[k]))
  }

  /** What rewriting the waiter has to respect. */
  ghost predicate CallLocal(s: Sys, e: nat, v: nat, wt: Waiter, s': Sys)
    requires v < |s.waiters| && v < |s'.waiters|
  {
    var was := s.waiters[v];
    && ControlOk(s', v) && RecordOk(s', v)
    && (forall i | 0 <= i < |s'.waiters[v].events| :: SlotOk(s', v, i))
    && wt.events == was.events && wt.scanned >= was.scanned && (Active(wt) ==> Active(was))
    && (was.phase.Sweep? && AtEvent(s, was) && was.events[was.scanned] != e ==>
          wt.phase.Sweep? && wt.scanned == was.scanned)
    && (was.lock.BySetter? && was.lock.event != e ==> wt.lock == was.lock)
  }

  /** The rewriting is sound: it meets its local conditions and notes nothing about others. */
  ghost predicate PatchOk(s: Sys, e: nat, ev: Event, v: nat, wt: Waiter, h: History) {
    var s' := Patch(s, e, ev, v, wt, h);
    && (e < |s.events| ==> EventLocal(s, e, ev, v, s'))
    && (v < |s.waiters| ==> CallLocal(s, e, v, wt, s'))
    && (forall x: nat, w: nat, i: nat :: w != v ==> Tally(h, Got(x, w, i)) == Tally(s.hist, Got(x, w, i)))
  }

  lemma PatchEvents(s: Sys, e: nat, ev: Event, v: nat, wt: Waiter, h: History)
    requires Core(s) && PatchOk(s, e, ev, v, wt, h)
    ensures EventsOk(Patch(s, e, ev, v, wt, h))
  {
    var s' := Patch(s, e, ev, v, wt, h);
    forall x | 0 <= x < |s'.events| ensures EventOk(s', x) {
      assert EventOk(s, x);
      if x != e && v < |s.waiters| {
        assert ControlOk(s, v);
      }
    }
  }

  lemma PatchEntries(s: Sys, e: nat, ev: Event, v: nat, wt: Waiter, h: History)
    requires Core(s) && PatchOk(s, e, ev, v, wt, h)
    ensures EntriesOk(Patch(s, e, ev, v, wt, h))
  {
    var s' := Patch(s, e, ev, v, wt, h);
    forall x, k | 0 <= x < |s'.events| && s'.events[x].given <= k < |s'.events[x].waits|
      ensures EntryOk(s', x, s'.events[x].waits[k])
    {
      if x == e {
        var y := ev.waits[k];
        if y in Out(s.events[e]) {
          var j :| 0 <= j < |Out(s.events[e])| && Out(s.events[e])[j] == y;
          assert EntryOk(s, e, s.events[e].waits[s.events[e].given + j]);
        }
      } else {
        assert EntryOk(s, x, s.events[x].waits[k]);
      }
    }
  }

  lemma PatchControls(s: Sys, e: nat, ev: Event, v: nat, wt: Waiter, h: History)
    requires Core(s) && PatchOk(s, e, ev, v, wt, h)
    ensures ControlsOk(Patch(s, e, ev, v, wt, h))
  {
    var s' := Patch(s, e, ev, v, wt, h);
    forall w | 0 <= w < |s'.waiters| ensures ControlOk(s', w) {
      if w != v {
        assert ControlOk(s, w);
      }
    }
  }

  lemma PatchRecords(s: Sys, e: nat, ev: Event, v: nat, wt: Waiter, h: History)
    requires Core(s) && PatchOk(s, e, ev, v, wt, h)
    ensures RecordsOk(Patch(s, e, ev, v, wt, h))
  {
    var s' := Patch(s, e, ev, v, wt, h);
    forall w | 0 <= w < |s'.waiters| ensures RecordOk(s', w) {
      if w != v {
        assert RecordOk(s, w);
        if e < |s.events| {
          RegisteredUpdate(s.events, e, ev, w);
        }
      }
    }
  }

  lemma PatchSlots(s: Sys, e: nat, ev: Event, v: nat, wt: Waiter, h: History)
    requires Core(s) && PatchOk(s, e, ev, v, wt, h)
    requires ControlsOk(Patch(s, e, ev, v, wt, h))
    ensures SlotsOk(Patch(s, e, ev, v, wt, h))
  {
    var s' := Patch(s, e, ev, v, wt, h);
    forall w, i | 0 <= w < |s'.waiters| && 0 <= i < |s'.waiters[w].events|
      ensures ControlOk(s', w) && SlotOk(s', w, i)
    {
      if w != v {
        assert ControlOk(s, w) && SlotOk(s, w, i);
      }
    }
  }

  /** A locally sound rewriting keeps the structural invariant. */
  lemma PatchKeeps(s: Sys, e: nat, ev: Event, v: nat, wt: Waiter, h: History)
    requires Core(s) && PatchOk(s, e, ev, v, wt, h)
    ensures Core(Patch(s, e, ev, v, wt, h))
  {
    PatchEvents(s, e, ev, v, wt, h);
    PatchEntries(s, e, ev, v, wt, h);
    PatchControls(s, e, ev, v, wt, h);
    PatchRecords(s, e, ev, v, wt, h);
    PatchSlots(s, e, ev, v, wt, h);
  }
}
