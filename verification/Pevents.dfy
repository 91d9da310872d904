/** The event library of src/libs/pevents.cpp as a transition system.

    The processes are the calls in progress: a thread runs one library call at a time, so a
    call's program counter is its thread's. Every `WaitForMultipleEvents` call owns exactly one
    waiter record, so its counter (`phase`, `scanned`) lives in that record; a `SetEvent`,
    `DestroyEvent` or scanning call that owns an event's mutex is described by the event's
    `holder`. Calls that hold no mutex and only wait for a free event mutex have no state of
    their own: they are actions that become enabled once that mutex is free.

    One action runs from one mutex operation to the next. `trylock` fails when its mutex is held,
    condition variables may wake spuriously, and a timed wait may expire at any time.
 */
module Pevents {

  /** `neosmart_wfmo_info_t_`: an entry of an event's `RegisteredWaits`. */
  datatype Info = Info(waiter: nat, index: nat)

  /** The `milliseconds` argument: 0, a finite number, or (uint64_t) -1. */
  datatype Timeout = Zero | Finite | Infinite

  datatype Outcome = Success | TimedOut

  /** Where a `SetEvent` call that owns the event's mutex is: about to lock the next entry's
      waiter, holding that waiter's mutex, or (auto-reset only) about to pop the front entry. */
  datatype SetPhase = Drain | Serve | Pop(served: bool)

  /** Who owns an event's mutex. `latched` is the event's state when `SetEvent` was entered;
      `next` is the position of the clean-up in `RegisteredWaits`. */
  datatype Holder =
    | Free
    | Scanner(call: nat, next: nat)
    | Destroyer(next: nat)
    | Setter(latched: bool, at: SetPhase)

  /** `neosmart_event_t_`. The first `given` entries of `waits` are in transit: `SetEvent` has
      given up their reference but has not yet removed them. `alive` ends when
      `DestroyEvent` is entered; the deleted record keeps its place and its last entries. */
  datatype Event = Event(
    autoReset: bool, state: bool, waits: seq<Info>, given: nat, holder: Holder, alive: bool)

  /** Who owns a waiter's mutex: nobody, the call it belongs to, or a `SetEvent` call. */
  datatype Lock = Unlocked | ByCall | BySetter(event: nat)

  datatype Phase =
    | Scan
    | Sweep
    | Check
    | Asleep
    | Finish(result: Outcome)
    | Done(returned: Outcome, waitIndex: int)

  /** `neosmart_wfmo_t_` with the arguments and locals of the call that allocated it. `status` is
      the union: `FiredEvent` of a wait-any, `EventsLeft` of a wait-all. `scanned` is the scan
      loop's counter. A deleted record keeps its place, marked `freed`. */
  datatype Waiter = Waiter(
    events: seq<nat>, waitAll: bool, timeout: Timeout,
    refCount: int, status: int, stillWaiting: bool, freed: bool,
    lock: Lock, phase: Phase, scanned: nat)

  /** What has happened so far, oldest first. */
  datatype History = Start | Then(past: History, last: Entry)

  datatype Entry =
    | Set(event: nat)                               // SetEvent entered
    | Got(event: nat, waiter: nat, index: nat)      // a multi-wait received the signal for a position
    | Single(event: nat)                            // WaitForEvent returned 0
    | Merged(event: nat)                            // SetEvent left a state that was already true
    | Lost(event: nat)                              // line 409 cleared an earlier latched signal
    | Discarded(event: nat)                         // ResetEvent cleared a signal
    | Freed(waiter: nat)                            // a waiter record was deleted

  datatype Sys = Sys(events: seq<Event>, waiters: seq<Waiter>, hist: History)

  datatype Action =
    | CreateEvent(manualReset: bool)
    | StartWait(events: seq<nat>, waitAll: bool, timeout: Timeout)
    | LockScanned(w: nat)
    | SweepEntry(e: nat, busy: bool)
    | Poll(w: nat)
    | EndScan(w: nat)
    | CheckDone(w: nat)
    | Wake(w: nat, timedOut: bool)
    | FinishWait(w: nat)
    | LockSet(e: nat)
    | LockWaiter(e: nat)
    | ServeEntry(e: nat)
    | PopEntry(e: nat)
    | EndDrain(e: nat)
    | TakeSingle(e: nat)
    | ResetEvent(e: nat)
    | LockDestroy(e: nat)
    | EndDestroy(e: nat)

  function Init(): Sys {
    Sys([], [], Start)
  }

  /** Has the call that owns the waiter not returned yet? */
  predicate Active(wt: Waiter) {
    !wt.phase.Done?
  }

  /** Is the event named in the arguments of a multi-wait that has not returned? */
  predicate InUse(s: Sys, e: nat) {
    exists w | 0 <= w < |s.waiters| :: Active(s.waiters[w]) && e in s.waiters[w].events
  }

  /** The event the scan of `wt` has reached. */
  predicate AtEvent(s: Sys, wt: Waiter) {
    wt.scanned < |wt.events| && wt.events[wt.scanned] < |s.events|
  }

  /** The entry whose waiter the setter of `ev` locks next, or has locked. */
  predicate HasNext(s: Sys, ev: Event) {
    ev.given < |ev.waits| && ev.waits[ev.given].waiter < |s.waiters|
  }

  /** The clean-up of `ev` by `RemoveExpiredWaitHelper` has reached this position. */
  function SweepPosition(ev: Event): nat
    requires ev.holder.Scanner? || ev.holder.Destroyer?
  {
    ev.holder.next
  }

  /** The clean-up of `ev` has reached an entry of waiter `v`, so it may hold that waiter's mutex. */
  predicate SweepsAt(ev: Event, v: nat) {
    && (ev.holder.Scanner? || ev.holder.Destroyer?)
    && SweepPosition(ev) < |ev.waits| && ev.waits[SweepPosition(ev)].waiter == v
  }

  /** `trylock` on waiter `v` may fail for the clean-up of event `e`: the mutex is held by the waiter's
      call or by `SetEvent`, or for a moment by the clean-up of another event. */
  predicate Contended(s: Sys, e: nat, v: nat)
    requires v < |s.waiters|
  {
    || !s.waiters[v].lock.Unlocked?
    || exists f | 0 <= f < |s.events| :: f != e && SweepsAt(s.events[f], v)
  }

  /** Line 314. */
  predicate Satisfied(wt: Waiter) {
    (wt.waitAll && wt.status == 0) || (!wt.waitAll && wt.status != -1)
  }

  predicate Enabled(s: Sys, a: Action) {
    match a
    case CreateEvent(_) => true
    case StartWait(events, _, _) =>
      forall e | e in events :: e < |s.events| && s.events[e].alive
    case LockScanned(w) =>
      && w < |s.waiters| && s.waiters[w].phase.Scan? && AtEvent(s, s.waiters[w])
      && s.events[s.waiters[w].events[s.waiters[w].scanned]].holder.Free?
    case SweepEntry(e, busy) =>
      && e < |s.events| && (s.events[e].holder.Scanner? || s.events[e].holder.Destroyer?)
      && var k := SweepPosition(s.events[e]);
      && k < |s.events[e].waits| && s.events[e].waits[k].waiter < |s.waiters|
      && if busy then Contended(s, e, s.events[e].waits[k].waiter)
         else s.waiters[s.events[e].waits[k].waiter].lock.Unlocked?
    case Poll(w) =>
      && w < |s.waiters| && s.waiters[w].phase.Sweep? && AtEvent(s, s.waiters[w])
      && var ev := s.events[s.waiters[w].events[s.waiters[w].scanned]];
      && ev.holder == Scanner(w, |ev.waits|)
    case EndScan(w) =>
      w < |s.waiters| && s.waiters[w].phase.Scan? && s.waiters[w].scanned == |s.waiters[w].events|
    case CheckDone(w) => w < |s.waiters| && s.waiters[w].phase.Check?
    case Wake(w, timedOut) =>
      && w < |s.waiters| && s.waiters[w].phase.Asleep? && s.waiters[w].lock.Unlocked?
      && (timedOut ==> s.waiters[w].timeout.Finite?)
    case FinishWait(w) => w < |s.waiters| && s.waiters[w].phase.Finish?
    case LockSet(e) => e < |s.events| && s.events[e].alive && s.events[e].holder.Free?
    case LockWaiter(e) =>
      && e < |s.events| && s.events[e].holder.Setter? && s.events[e].holder.at.Drain?
      && HasNext(s, s.events[e])
      && s.waiters[s.events[e].waits[s.events[e].given].waiter].lock.Unlocked?
    case ServeEntry(e) =>
      && e < |s.events| && s.events[e].holder.Setter? && s.events[e].holder.at.Serve?
      && HasNext(s, s.events[e])
    case PopEntry(e) =>
      && e < |s.events| && s.events[e].holder.Setter? && s.events[e].holder.at.Pop?
      && s.events[e].waits != []
    case EndDrain(e) =>
      && e < |s.events| && s.events[e].holder.Setter? && s.events[e].holder.at.Drain?
      && s.events[e].given == |s.events[e].waits|
    case TakeSingle(e) =>
      e < |s.events| && s.events[e].alive && s.events[e].holder.Free? && s.events[e].state
    case ResetEvent(e) => e < |s.events| && s.events[e].alive && s.events[e].holder.Free?
    case LockDestroy(e) =>
      e < |s.events| && s.events[e].alive && s.events[e].holder.Free? && !InUse(s, e)
    case EndDestroy(e) =>
      e < |s.events| && s.events[e].holder == Destroyer(|s.events[e].waits|)
  }

  function NewWaiter(events: seq<nat>, waitAll: bool, timeout: Timeout): Waiter {
    Waiter(events, waitAll, timeout,
           1, if waitAll then |events| else -1, true, false,
           ByCall, Scan, 0)
  }

  /** Drop one reference; the record is deleted when none is left. */
  function Release(wt: Waiter): Waiter {
    wt.(refCount := wt.refCount - 1, freed := wt.refCount - 1 == 0)
  }

  function Note(h: History, x: Entry): History {
    Then(h, x)
  }

  function NoteIf(h: History, b: bool, x: Entry): History {
    if b then Then(h, x) else h
  }

  /** One non-busy call of `RemoveExpiredWaitHelper` and its effect on `std::remove_if`. */
  function ApplySweep(s: Sys, e: nat, busy: bool): Sys
    requires Enabled(s, SweepEntry(e, busy))
  {
    var ev := s.events[e];
    var k := SweepPosition(ev);
    var v := ev.waits[k].waiter;
    var wt := s.waiters[v];
    if busy || wt.stillWaiting then
      s.(events := s.events[e := ev.(holder := Advance(ev.holder))])
    else
      var wt' := Release(wt);
      s.(events := s.events[e := ev.(waits := ev.waits[..k] + ev.waits[k+1..])],
         waiters := s.waiters[v := wt'],
         hist := NoteIf(s.hist, wt'.freed, Freed(v)))
  }

  function Advance(h: Holder): Holder
    requires h.Scanner? || h.Destroyer?
  {
    match h
    case Scanner(w, k) => Scanner(w, k + 1)
    case Destroyer(k) => Destroyer(k + 1)
  }

  /** Lines 260-285: take the event if it is signalled, else register. */
  function ApplyPoll(s: Sys, w: nat): Sys
    requires Enabled(s, Poll(w))
  {
    var wt := s.waiters[w];
    var i := wt.scanned;
    var e := wt.events[i];
    var ev := s.events[e];
    if ev.state then
      var wt' := if wt.waitAll then wt.(status := wt.status - 1, scanned := i + 1, phase := Scan)
                 else wt.(status := i, scanned := i + 1, phase := Finish(Success));
      s.(events := s.events[e := ev.(state := !ev.autoReset, holder := Free)],
         waiters := s.waiters[w := wt'],
         hist := Note(s.hist, Got(e, w, i)))
    else
      s.(events := s.events[e := ev.(waits := ev.waits + [Info(w, i)], holder := Free)],
         waiters := s.waiters[w := wt.(refCount := wt.refCount + 1, scanned := i + 1, phase := Scan)])
  }

  /** Lines 334-346. */
  function ApplyFinish(s: Sys, w: nat): Sys
    requires Enabled(s, FinishWait(w))
  {
    var wt := s.waiters[w];
    var wt' := Release(wt).(stillWaiting := false, lock := Unlocked,
                            phase := Done(wt.phase.result, wt.status));
    s.(waiters := s.waiters[w := wt'], hist := NoteIf(s.hist, wt'.freed, Freed(w)))
  }

  /** Lines 393-425 and 461-491: the part of `SetEvent` under a registered waiter's mutex. */
  function ApplyServe(s: Sys, e: nat): Sys
    requires Enabled(s, ServeEntry(e))
  {
    var ev := s.events[e];
    var v := ev.waits[ev.given].waiter;
    var i := ev.waits[ev.given].index;
    var wt := s.waiters[v].(lock := Unlocked);
    var latched := ev.holder.latched;
    if !wt.stillWaiting then
      var wt' := Release(wt);
      var at := if ev.autoReset then Pop(false) else Drain;
      s.(events := s.events[e := ev.(given := ev.given + 1, holder := Setter(latched, at))],
         waiters := s.waiters[v := wt'],
         hist := NoteIf(s.hist, wt'.freed, Freed(v)))
    else
      var wt' := wt.(refCount := wt.refCount - 1);
      var wt'' := if wt.waitAll then wt'.(status := wt.status - 1)
                  else wt'.(status := i, stillWaiting := false);
      var at := if ev.autoReset then Pop(true) else Drain;
      s.(events := s.events[e := ev.(state := !ev.autoReset, given := ev.given + 1,
                                     holder := Setter(latched, at))],
         waiters := s.waiters[v := wt''],
         hist := Note(NoteIf(s.hist, ev.autoReset && latched, Lost(e)), Got(e, v, i)))
  }

  /** Lines 405 and 431. */
  function ApplyPop(s: Sys, e: nat): Sys
    requires Enabled(s, PopEntry(e))
  {
    var ev := s.events[e];
    var holder := if ev.holder.at.served then Free else Setter(ev.holder.latched, Drain);
    s.(events := s.events[e := ev.(waits := ev.waits[1..], given := 0, holder := holder)])
  }

  function Apply(s: Sys, a: Action): Sys
    requires Enabled(s, a)
  {
    match a
    case CreateEvent(manualReset) =>
      s.(events := s.events + [Event(!manualReset, false, [], 0, Free, true)])
    case StartWait(events, waitAll, timeout) =>
      s.(waiters := s.waiters + [NewWaiter(events, waitAll, timeout)])
    case LockScanned(w) =>
      var e := s.waiters[w].events[s.waiters[w].scanned];
      s.(events := s.events[e := s.events[e].(holder := Scanner(w, 0))],
         waiters := s.waiters[w := s.waiters[w].(phase := Sweep)])
    case SweepEntry(e, busy) => ApplySweep(s, e, busy)
    case Poll(w) => ApplyPoll(s, w)
    case EndScan(w) =>
      var phase := if s.waiters[w].timeout.Zero? then Finish(TimedOut) else Check;
      s.(waiters := s.waiters[w := s.waiters[w].(phase := phase)])
    case CheckDone(w) =>
      var wt := s.waiters[w];
      var wt' := if Satisfied(wt) then wt.(phase := Finish(Success))
                 else wt.(phase := Asleep, lock := Unlocked);
      s.(waiters := s.waiters[w := wt'])
    case Wake(w, timedOut) =>
      var phase := if timedOut then Finish(TimedOut) else Check;
      s.(waiters := s.waiters[w := s.waiters[w].(phase := phase, lock := ByCall)])
    case FinishWait(w) => ApplyFinish(s, w)
    case LockSet(e) =>
      var ev := s.events[e];
      s.(events := s.events[e := ev.(state := true, holder := Setter(ev.state, Drain))],
         hist := Note(s.hist, Set(e)))
    case LockWaiter(e) =>
      var ev := s.events[e];
      var v := ev.waits[ev.given].waiter;
      s.(events := s.events[e := ev.(holder := Setter(ev.holder.latched, Serve))],
         waiters := s.waiters[v := s.waiters[v].(lock := BySetter(e))])
    case ServeEntry(e) => ApplyServe(s, e)
    case PopEntry(e) => ApplyPop(s, e)
    case EndDrain(e) =>
      var ev := s.events[e];
      s.(events := s.events[e := ev.(waits := [], given := 0, holder := Free)],
         hist := NoteIf(s.hist, ev.autoReset && ev.holder.latched, Merged(e)))
    case TakeSingle(e) =>
      s.(events := s.events[e := s.events[e].(state := !s.events[e].autoReset)],
         hist := Note(s.hist, Single(e)))
    case ResetEvent(e) =>
      s.(events := s.events[e := s.events[e].(state := false)],
         hist := NoteIf(s.hist, s.events[e].state, Discarded(e)))
    case LockDestroy(e) =>
      s.(events := s.events[e := s.events[e].(holder := Destroyer(0), alive := false)])
    case EndDestroy(e) =>
      s.(events := s.events[e := s.events[e].(holder := Free)])
  }

  /** `acts` is a run of the system from `s` to `s'`. */
  ghost predicate Runs(s: Sys, acts: seq<Action>, s': Sys)
    decreases |acts|
  {
    if acts == [] then s' == s
    else Enabled(s, acts[0]) && Runs(Apply(s, acts[0]), acts[1..], s')
  }
}
