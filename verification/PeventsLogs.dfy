/** One call among others: what other threads may do between its steps, and the log of a call, in which its
    own steps and the pauses it leaves to others stand in order. */
module PeventsLogs {
  import opened Pevents
  import opened PeventsInvariant
  import opened PeventsPatch
  import opened PeventsSteps
  import opened PeventsCalls
  import opened PeventsDeadlock
  import opened PeventsDestroy

  /** The call that is followed: a multi-wait; a call that uses event e but does not own its mutex, and may
      sleep until the event is signalled; a `SetEvent` that owns the mutex; a `DestroyEvent` before and after
      it owns it. */
  datatype Self = WaitCall(w: nat) | UseCall(e: nat, sleeps: bool) | SetCall(e: nat) | DestroyCall(e: nat, owner: bool)

  /** Steps that other threads do not take: those of the call itself, and those that its caller has
      to exclude, destroying an event in use and using an event that is being destroyed. */
  predicate Ours(s: Sys, me: Self, a: Action) {
    match me
    case WaitCall(w) =>
      || ((a.LockScanned? || a.Poll? || a.EndScan? || a.CheckDone? || a.Wake? || a.FinishWait?) && a.w == w)
      || (a.SweepEntry? && a.e < |s.events| && s.events[a.e].holder.Scanner? && s.events[a.e].holder.call == w)
    case UseCall(e, _) => a.LockDestroy? && a.e == e
    case SetCall(e) => (a.LockWaiter? || a.ServeEntry? || a.PopEntry? || a.EndDrain?) && a.e == e
    case DestroyCall(e, owner) =>
      || (a.LockDestroy? && a.e == e)
      || (a.StartWait? && e in a.events)
      || (owner && (a.SweepEntry? || a.EndDestroy?) && a.e == e)
  }

  /** What the steps of others leave alone. */
  ghost predicate Kept(s: Sys, me: Self, t: Sys) {
    && |s.events| <= |t.events| && |s.waiters| <= |t.waiters|
    && match me
       case WaitCall(w) =>
         && w < |s.waiters|
         && SameRecord(s.waiters[w], t.waiters[w])
         && (s.waiters[w].phase.Sweep? && AtEvent(s, s.waiters[w]) ==>
               var e := s.waiters[w].events[s.waiters[w].scanned];
               t.events[e] == s.events[e])
       case UseCall(e, _) =>
         e < |s.events| && t.events[e].alive == s.events[e].alive && t.events[e].autoReset == s.events[e].autoReset
       case SetCall(e) => e < |s.events| && t.events[e] == s.events[e]
       case DestroyCall(e, owner) =>
         && e < |s.events| && t.events[e].alive == s.events[e].alive && (owner ==> t.events[e] == s.events[e])
         && (!InUse(s, e) ==> !InUse(t, e))
         && (!InUse(s, e) && Alone(s, e) ==> Alone(t, e))
  }

  /** The call's own fields that no step but its own changes. */
  predicate SameCall(wt: Waiter, wt': Waiter) {
    wt'.events == wt.events && wt'.waitAll == wt.waitAll && wt'.timeout == wt.timeout
  }

  /** A call's record as far as no other thread changes it. */
  predicate SameRecord(was: Waiter, wt: Waiter) {
    && SameCall(was, wt) && wt.phase == was.phase && wt.scanned == was.scanned
    && (HoldsOwnLock(was.phase) ==> wt == was)
  }

  predicate Present(s: Sys, me: Self) {
    match me
    case WaitCall(w) => w < |s.waiters|
    case UseCall(e, _) => e < |s.events|
    case SetCall(e) => Owned(s, e)
    case DestroyCall(e, owner) => e < |s.events| && (owner ==> s.events[e].holder.Destroyer?)
  }

  /** The `SetEvent` call owns the event's mutex. */
  predicate Owned(s: Sys, e: nat) {
    e < |s.events| && s.events[e].holder.Setter?
  }

  /** A step of another thread changes nothing that the call relies on. */
  lemma OthersKeep(s: Sys, me: Self, a: Action)
    requires Inv(s) && Present(s, me) && Enabled(s, a) && !Ours(s, me, a)
    ensures Kept(s, me, Apply(s, a))
  {
    RecordsStay(s, a);
    EventsStay(s, a);
    hide Inv, Enabled, Apply;
    match me
    case WaitCall(w) =>
      OthersKeepRecord(s, w, a);
      OthersKeepListed(s, w, a);
    case UseCall(e, _) => OthersKeepKind(s, e, a);
    case SetCall(e) => OthersKeepSet(s, e, a);
    case DestroyCall(e, owner) => OthersKeepDestroy(s, e, owner, a);
  }

  lemma RecordsStay(s: Sys, a: Action)
    requires Enabled(s, a)
    ensures |s.waiters| <= |Apply(s, a).waiters|
  {
  }

  lemma OthersKeepRecord(s: Sys, w: nat, a: Action)
    requires Inv(s) && w < |s.waiters| && Enabled(s, a) && !Ours(s, WaitCall(w), a)
    ensures w < |Apply(s, a).waiters| && SameRecord(s.waiters[w], Apply(s, a).waiters[w])
  {
    hide EntriesOk, RecordsOk, SlotsOk, HistoryOk, LedgersOk;
    assert ControlOk(s, w);
    if a.ServeEntry? {
      assert EventOk(s, a.e);
    }
  }

  lemma OthersKeepListed(s: Sys, w: nat, a: Action)
    requires Inv(s) && w < |s.waiters| && Enabled(s, a) && !Ours(s, WaitCall(w), a)
    ensures
      var was, t := s.waiters[w], Apply(s, a);
      && |s.events| <= |t.events|
      && (was.phase.Sweep? && AtEvent(s, was) ==>
            t.events[was.events[was.scanned]] == s.events[was.events[was.scanned]])
  {
    hide EventsOk, EntriesOk, RecordsOk, SlotsOk, HistoryOk, LedgersOk;
    assert ControlOk(s, w);
  }

  lemma OthersKeepKind(s: Sys, e: nat, a: Action)
    requires e < |s.events| && Enabled(s, a) && a != LockDestroy(e)
    ensures
      var t := Apply(s, a);
      && e < |t.events| && t.events[e].alive == s.events[e].alive && t.events[e].autoReset == s.events[e].autoReset
  {
  }

  lemma OthersKeepSet(s: Sys, e: nat, a: Action)
    requires Inv(s) && Owned(s, e) && Enabled(s, a) && !Ours(s, SetCall(e), a)
    ensures e < |Apply(s, a).events| && Apply(s, a).events[e] == s.events[e]
  {
  }

  lemma OthersKeepDestroy(s: Sys, e: nat, owner: bool, a: Action)
    requires Inv(s) && Present(s, DestroyCall(e, owner)) && Enabled(s, a) && !Ours(s, DestroyCall(e, owner), a)
    ensures
      var t := Apply(s, a);
      && e < |t.events| && t.events[e].alive == s.events[e].alive && (owner ==> t.events[e] == s.events[e])
      && (!InUse(s, e) ==> !InUse(t, e))
      && (!InUse(s, e) && Alone(s, e) ==> Alone(t, e))
  {
    OthersKeepKind(s, e, a);
    if owner {
      DestroyedStays(s, e, a);
    }
    hide Inv, Enabled, Apply, InUse, Alone;
    if !InUse(s, e) {
      UnusedKept(s, a, e);
      if Alone(s, e) {
        AloneKept(s, a, e);
      }
    }
  }

  lemma DestroyedStays(s: Sys, e: nat, a: Action)
    requires Inv(s) && e < |s.events| && s.events[e].holder.Destroyer? && Enabled(s, a)
    requires !((a.SweepEntry? || a.EndDestroy?) && a.e == e)
    ensures e < |Apply(s, a).events| && Apply(s, a).events[e] == s.events[e]
  {
    hide EntriesOk, RecordsOk, SlotsOk, HistoryOk, LedgersOk;
    assert EventOk(s, e);
    if a.LockScanned? || a.Poll? {
      assert ControlOk(s, a.w);
    }
  }

  lemma KeptJoin(s: Sys, me: Self, t: Sys, u: Sys)
    requires Kept(s, me, t) && Kept(t, me, u)
    ensures Kept(s, me, u)
  {
    hide InUse, Alone;
  }

  lemma KeptAtOnce(s: Sys, me: Self)
    requires Present(s, me)
    ensures Kept(s, me, s)
  {
    hide InUse, Alone;
  }

  lemma KeptPresent(s: Sys, me: Self, t: Sys)
    requires Kept(s, me, t) && Present(s, me)
    ensures Present(t, me)
  {
    hide InUse, Alone;
  }

  // ---------- What others do in a pause ----------

  predicate Theirs(s: Sys, me: Self, a: Action) {
    Enabled(s, a) && !Ours(s, me, a)
  }

  /** The state after other threads took those of the given steps that were theirs and possible when their
      turn came. */
  function Interfered(s: Sys, me: Self, acts: seq<Action>): Sys {
    if acts == [] then s
    else
      var m := Interfered(s, me, acts[..|acts| - 1]);
      if Theirs(m, me, acts[|acts| - 1]) then Apply(m, acts[|acts| - 1]) else m
  }

  /** Those steps. */
  function Possible(s: Sys, me: Self, acts: seq<Action>): seq<Action> {
    if acts == [] then []
    else
      var init, a := acts[..|acts| - 1], acts[|acts| - 1];
      if Theirs(Interfered(s, me, init), me, a) then Possible(s, me, init) + [a] else Possible(s, me, init)
  }

  lemma {:induction false} PauseIsRun(s: Sys, me: Self, acts: seq<Action>)
    ensures Runs(s, Possible(s, me, acts), Interfered(s, me, acts))
  {
    hide Enabled, Apply, Ours;
    if acts != [] {
      var init, a := acts[..|acts| - 1], acts[|acts| - 1];
      PauseIsRun(s, me, init);
      if Theirs(Interfered(s, me, init), me, a) {
        RunsOneMore(s, Possible(s, me, init), Interfered(s, me, init), a);
      }
    }
  }

  // ---------- The log of a call ----------

  /** A step of the call, or a pause in which other threads may take the given steps. */
  datatype Piece = Own(action: Action) | Pause(me: Self, acts: seq<Action>)

  /** A call that started when the run so far was `before`, in state `start`; `others` are the steps that
      other threads are to take, pause by pause. */
  datatype Log = Log(others: seq<seq<Action>>, before: seq<Action>, start: Sys, pieces: seq<Piece>)

  /** The state after these pieces. */
  function After(s: Sys, pieces: seq<Piece>): Sys {
    if pieces == [] then s
    else
      var m := After(s, pieces[..|pieces| - 1]);
      match pieces[|pieces| - 1]
      case Own(a) => if Enabled(m, a) then Apply(m, a) else m
      case Pause(me, acts) => Interfered(m, me, acts)
  }

  /** All steps of these pieces, the call's own and those of others. */
  function Trace(s: Sys, pieces: seq<Piece>): seq<Action> {
    if pieces == [] then []
    else
      var m := After(s, pieces[..|pieces| - 1]);
      Trace(s, pieces[..|pieces| - 1]) +
      match pieces[|pieces| - 1]
      case Own(a) => [a]
      case Pause(me, acts) => Possible(m, me, acts)
  }

  /** The call's own steps. */
  function OwnSteps(pieces: seq<Piece>): seq<Action> {
    if pieces == [] then []
    else
      var own := OwnSteps(pieces[..|pieces| - 1]);
      match pieces[|pieces| - 1] case Own(a) => own + [a] case Pause(_, _) => own
  }

  function Pauses(pieces: seq<Piece>): nat {
    if pieces == [] then 0
    else Pauses(pieces[..|pieces| - 1]) + match pieces[|pieces| - 1] case Own(_) => 0 case Pause(_, _) => 1
  }

  predicate LastPaused(pieces: seq<Piece>) {
    pieces != [] && pieces[|pieces| - 1].Pause?
  }

  /** The call may take a step: it has just left room for others, or nothing is left for them to do. */
  predicate Ready(others: seq<seq<Action>>, pieces: seq<Piece>) {
    pieces == [] || LastPaused(pieces) || Pauses(pieces) == |others|
  }

  /** A multi-wait has to wait: it sleeps and has not got what it waits for, or cannot have its mutex back,
      or the mutex of the event it has reached is held. */
  predicate MustWait(s: Sys, w: nat)
    requires w < |s.waiters|
  {
    var wt := s.waiters[w];
    || (wt.phase.Asleep? && (!Satisfied(wt) || !wt.lock.Unlocked?))
    || (wt.phase.Scan? && AtEvent(s, wt) && !s.events[wt.events[wt.scanned]].holder.Free?)
  }

  /** The call cannot go on. */
  predicate Stuck(s: Sys, me: Self) {
    match me
    case WaitCall(w) => w < |s.waiters| && MustWait(s, w)
    case UseCall(e, sleeps) => e < |s.events| && (!s.events[e].holder.Free? || (sleeps && !s.events[e].state))
    case SetCall(e) => Blocked(s, Setting(e))
    case DestroyCall(e, _) => e < |s.events| && !s.events[e].holder.Free?
  }

  /** Each step of the call is possible when it is taken, and follows a pause unless nothing is left of the
      others' steps; the pauses are given to the others in order, and the call only lets one pause follow
      another when it cannot go on. */
  ghost predicate Proper(s: Sys, others: seq<seq<Action>>, pieces: seq<Piece>)
    decreases |pieces|
  {
    || pieces == []
    || var init := pieces[..|pieces| - 1];
       && Proper(s, others, init)
       && match pieces[|pieces| - 1]
          case Own(a) => Enabled(After(s, init), a) && Ready(others, init)
          case Pause(me, acts) =>
            && Pauses(init) < |others| && acts == others[Pauses(init)]
            && (LastPaused(init) ==> Stuck(After(s, init), me))
  }

  /** A call's log is a piece of a run of the transition system. */
  lemma {:induction false} LogIsRun(s: Sys, others: seq<seq<Action>>, pieces: seq<Piece>)
    requires Proper(s, others, pieces)
    ensures Runs(s, Trace(s, pieces), After(s, pieces))
    decreases |pieces|
  {
    hide Enabled, Apply, Ready, Stuck;
    if pieces != [] {
      var init, m := pieces[..|pieces| - 1], After(s, pieces[..|pieces| - 1]);
      LogIsRun(s, others, init);
      match pieces[|pieces| - 1]
      case Own(a) => RunsOneMore(s, Trace(s, init), m, a);
      case Pause(me, acts) =>
        PauseIsRun(m, me, acts);
        RunsJoin(s, Trace(s, init), m, Possible(m, me, acts), Interfered(m, me, acts));
    }
  }

  lemma {:induction false} RunsJoin(s: Sys, acts: seq<Action>, m: Sys, more: seq<Action>, t: Sys)
    requires Runs(s, acts, m) && Runs(m, more, t)
    ensures Runs(s, acts + more, t)
    decreases |acts|
  {
    hide Enabled, Apply;
    if acts == [] {
      assert acts + more == more;
    } else {
      RunsJoin(Apply(s, acts[0]), acts[1..], m, more, t);
      assert (acts + more)[1..] == acts[1..] + more;
    }
  }

  /** In each pause the others were left their list, in order. */
  lemma {:induction false} PausesInOrder(s: Sys, others: seq<seq<Action>>, pieces: seq<Piece>, k: nat)
    requires Proper(s, others, pieces) && k < |pieces| && pieces[k].Pause?
    ensures Pauses(pieces[..k]) < |others| && pieces[k].acts == others[Pauses(pieces[..k])]
    decreases |pieces|
  {
    hide Enabled, Apply, Ready, Stuck, After;
    var init := pieces[..|pieces| - 1];
    if k < |init| {
      PausesInOrder(s, others, init, k);
      assert init[..k] == pieces[..k];
    }
  }

  function Now(log: Log): Sys {
    After(log.start, log.pieces)
  }

  /** The whole run so far. */
  function Acts(log: Log): seq<Action> {
    log.before + Trace(log.start, log.pieces)
  }

  function Add(log: Log, p: Piece): Log {
    log.(pieces := log.pieces + [p])
  }

  /** The same call, later. */
  predicate Continues(was: Log, log: Log) {
    log.others == was.others && log.before == was.before && log.start == was.start && was.pieces <= log.pieces
  }

  /** How often the call has handed its signal to a waiter. */
  function Delivered(s: Sys, e: nat, pieces: seq<Piece>): nat {
    if pieces == [] then 0
    else
      var init := pieces[..|pieces| - 1];
      Delivered(s, e, init) + if Delivers(After(s, init), e, pieces[|pieces| - 1]) then 1 else 0
  }

  predicate Delivers(s: Sys, e: nat, p: Piece) {
    p == Own(ServeEntry(e)) && Enabled(s, ServeEntry(e)) && NextIsLive(s, e)
  }

  /** Nothing but pauses has come to the log. */
  ghost predicate Idle(was: Log, log: Log) {
    && Continues(was, log) && OwnSteps(log.pieces) == OwnSteps(was.pieces)
    && forall e: nat :: Delivered(log.start, e, log.pieces) == Delivered(was.start, e, was.pieces)
  }

  /** One step of the call has come to the log. */
  lemma OwnAdded(log: Log, a: Action)
    requires Proper(log.start, log.others, log.pieces) && Ready(log.others, log.pieces) && Enabled(Now(log), a)
    ensures
      var later := Add(log, Own(a));
      && Proper(later.start, later.others, later.pieces) && Continues(log, later)
      && Now(later) == Apply(Now(log), a)
      && Acts(later) == Acts(log) + [a]
      && OwnSteps(later.pieces) == OwnSteps(log.pieces) + [a] && Pauses(later.pieces) == Pauses(log.pieces)
      && !LastPaused(later.pieces)
      && forall e: nat :: Delivered(later.start, e, later.pieces)
           == Delivered(log.start, e, log.pieces) + if Delivers(Now(log), e, Own(a)) then 1 else 0
  {
    hide Enabled, Apply, Delivers, Ready;
    var later := Add(log, Own(a));
    assert later.pieces[..|log.pieces|] == log.pieces;
    assert log.before + (Trace(log.start, log.pieces) + [a]) == Acts(log) + [a];
  }

  /** A pause has come to the log. */
  lemma {:induction false} PauseAdded(log: Log, me: Self, acts: seq<Action>)
    requires Proper(log.start, log.others, log.pieces)
    requires Pauses(log.pieces) < |log.others| && acts == log.others[Pauses(log.pieces)]
    requires LastPaused(log.pieces) ==> Stuck(Now(log), me)
    ensures
      var later := Add(log, Pause(me, acts));
      && Proper(later.start, later.others, later.pieces) && Idle(log, later)
      && Now(later) == Interfered(Now(log), me, acts)
      && Acts(later) == Acts(log) + Possible(Now(log), me, acts)
      && Pauses(later.pieces) == Pauses(log.pieces) + 1 && LastPaused(later.pieces)
  {
    hide Enabled, Apply, Ready, Stuck, Interfered, Possible;
    var later, more := Add(log, Pause(me, acts)), Possible(Now(log), me, acts);
    assert later.pieces[..|log.pieces|] == log.pieces;
    assert log.before + (Trace(log.start, log.pieces) + more) == Acts(log) + more;
  }

  // ---------- Signals counted ----------

  function Occurrences(acts: seq<Action>, a: Action): nat {
    if acts == [] then 0 else Occurrences(acts[..|acts| - 1], a) + if acts[|acts| - 1] == a then 1 else 0
  }

  lemma {:induction false} OccurrencesJoin(acts: seq<Action>, more: seq<Action>, a: Action)
    ensures Occurrences(acts + more, a) == Occurrences(acts, a) + Occurrences(more, a)
    decreases |more|
  {
    if more == [] {
      assert acts + more == acts;
    } else {
      OccurrencesJoin(acts, more[..|more| - 1], a);
      assert (acts + more)[..|acts + more| - 1] == acts + more[..|more| - 1];
    }
  }

  lemma {:induction false} NoOccurrence(a: Action)
    ensures Occurrences([], a) == 0
  {
  }

  /** The steps that others took. */
  function OthersSteps(s: Sys, pieces: seq<Piece>): seq<Action> {
    if pieces == [] then []
    else
      var init := pieces[..|pieces| - 1];
      match pieces[|pieces| - 1]
      case Own(_) => OthersSteps(s, init)
      case Pause(me, acts) => OthersSteps(s, init) + Possible(After(s, init), me, acts)
  }

  lemma {:induction false} OwnAndOthers(s: Sys, pieces: seq<Piece>, a: Action)
    ensures
      Occurrences(Trace(s, pieces), a) == Occurrences(OwnSteps(pieces), a) + Occurrences(OthersSteps(s, pieces), a)
    decreases |pieces|
  {
    hide After, Possible, Occurrences;
    if pieces == [] {
      NoOccurrence(a);
    } else {
      var init := pieces[..|pieces| - 1];
      OwnAndOthers(s, init, a);
      match pieces[|pieces| - 1]
      case Own(b) =>
        OccurrencesJoin(Trace(s, init), [b], a);
        OccurrencesJoin(OwnSteps(init), [b], a);
      case Pause(me, acts) =>
        OccurrencesJoin(Trace(s, init), Possible(After(s, init), me, acts), a);
        OccurrencesJoin(OthersSteps(s, init), Possible(After(s, init), me, acts), a);
    }
  }

  /** Over a run the ledger of an event counts the entries of `SetEvent`, one by one. */
  lemma {:induction false} SetsCounted(s: Sys, acts: seq<Action>, t: Sys, e: nat)
    requires Runs(s, acts, t)
    ensures Tally(t.hist, Set(e)) == Tally(s.hist, Set(e)) + Occurrences(acts, LockSet(e))
    decreases |acts|
  {
    hide Enabled, Apply, Occurrences;
    if acts == [] {
      NoOccurrence(LockSet(e));
    } else {
      SetCounted(s, acts[0], e);
      SetsCounted(Apply(s, acts[0]), acts[1..], t, e);
      assert acts == [acts[0]] + acts[1..];
      OccurrencesJoin([acts[0]], acts[1..], LockSet(e));
      OneOccurrence(acts[0], LockSet(e));
    }
  }

  lemma {:induction false} OneOccurrence(b: Action, a: Action)
    ensures Occurrences([b], a) == if b == a then 1 else 0
  {
    assert [b][..0] == [];
  }

  lemma SetCounted(s: Sys, a: Action, e: nat)
    requires Enabled(s, a)
    ensures Tally(Apply(s, a).hist, Set(e)) == Tally(s.hist, Set(e)) + if a == LockSet(e) then 1 else 0
  {
  }
}
