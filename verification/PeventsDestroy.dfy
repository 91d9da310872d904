/** What `DestroyEvent` leaves behind. Its clean-up skips an entry whose waiter's mutex is held; the event
    is deleted with that entry, and the reference it stood for is never given up. */
module PeventsDestroy {
  import opened Pevents
  import opened PeventsInvariant
  import opened PeventsPatch
  import opened PeventsSteps
  import opened PeventsTheorems
  import opened PeventsRuns
  import opened PeventsCalls

  /** The event can still be used, or somebody is still at work on it. */
  predicate Stirs(ev: Event) {
    ev.alive || !ev.holder.Free?
  }

  /** An event other than e that stirs has an entry of waiter v. */
  ghost predicate NamedElsewhere(s: Sys, e: nat, v: nat) {
    exists f: nat, x :: f < |s.events| && f != e && Stirs(s.events[f]) && x in Out(s.events[f]) && x.waiter == v
  }

  /** No waiter with an entry at e has one at another event that stirs. */
  ghost predicate Alone(s: Sys, e: nat) {
    e < |s.events| && forall x | x in Out(s.events[e]) :: !NamedElsewhere(s, e, x.waiter)
  }

  // ---------- Entries only come from scans ----------

  /** The step registers its call at event f. */
  predicate RegistersAt(s: Sys, a: Action, f: nat, x: Info) {
    && a.Poll? && x.waiter == a.w < |s.waiters| && AtEvent(s, s.waiters[a.w])
    && s.waiters[a.w].events[s.waiters[a.w].scanned] == f
  }

  /** The entries of an event after a step were there before, unless the step registered one. */
  predicate NoneNew(ev: Event, ev': Event, x: Info) {
    && (x in ev'.waits ==> x in ev.waits)
    && (x in Out(ev') ==> x in Out(ev))
  }

  lemma EntriesFrom(s: Sys, a: Action, f: nat, x: Info)
    requires Inv(s) && Enabled(s, a) && f < |Apply(s, a).events|
    ensures f >= |s.events| ==> Apply(s, a).events[f].waits == []
    ensures f < |s.events| ==> NoneNew(s.events[f], Apply(s, a).events[f], x) || RegistersAt(s, a, f, x)
  {
    if f < |s.events| {
      if a.SweepEntry? && a.e == f {
        EntriesSwept(s, a, x);
      } else if a.Poll? {
        EntriesPolled(s, a, f, x);
      } else {
        EntriesElse(s, a, f, x);
      }
    }
  }

  lemma EntriesSwept(s: Sys, a: Action, x: Info)
    requires Inv(s) && Enabled(s, a) && a.SweepEntry? && a.e < |s.events| && a.e < |Apply(s, a).events|
    ensures NoneNew(s.events[a.e], Apply(s, a).events[a.e], x)
  {
    hide Apply, Enabled, Inv, NoneNew, Out;
    SweptWaits(s, a.e, a.busy);
    var ev, ev' := s.events[a.e], Apply(s, a).events[a.e];
    NoneNewIn(ev, ev', SweepPosition(ev), x);
  }

  lemma NoneNewIn(ev: Event, ev': Event, k: nat, x: Info)
    requires k < |ev.waits| && (ev'.waits == ev.waits || ev'.waits == ev.waits[..k] + ev.waits[k + 1..])
    requires Out(ev) == ev.waits && Out(ev') == ev'.waits
    ensures NoneNew(ev, ev', x)
  {
    hide Out;
    if ev'.waits != ev.waits && x in ev'.waits {
      InRemoved(ev.waits, k, x);
    }
  }

  lemma SweptWaits(s: Sys, e: nat, busy: bool)
    requires Inv(s) && Enabled(s, SweepEntry(e, busy))
    ensures e < |s.events| && (s.events[e].holder.Scanner? || s.events[e].holder.Destroyer?)
    ensures e < |Apply(s, SweepEntry(e, busy)).events|
    ensures
      var ev, ev' := s.events[e], Apply(s, SweepEntry(e, busy)).events[e];
      var k := SweepPosition(ev);
      && k < |ev.waits| && (ev'.waits == ev.waits || ev'.waits == ev.waits[..k] + ev.waits[k + 1..])
      && Out(ev) == ev.waits && Out(ev') == ev'.waits
  {
    hide EntriesOk, ControlsOk, RecordsOk, SlotsOk, HistoryOk, LedgersOk;
    assert EventOk(s, e);
    var ev' := Apply(s, SweepEntry(e, busy)).events[e];
    assert ev'.given == 0 && ev'.waits[0..] == ev'.waits;
  }

  lemma InRemoved(q: seq<Info>, k: nat, x: Info)
    requires k < |q| && x in q[..k] + q[k + 1..]
    ensures x in q
  {
  }

  lemma EntriesPolled(s: Sys, a: Action, f: nat, x: Info)
    requires Enabled(s, a) && a.Poll? && f < |s.events| && Inv(s) && f < |Apply(s, a).events|
    ensures NoneNew(s.events[f], Apply(s, a).events[f], x) || RegistersAt(s, a, f, x)
  {
    PolledWaits(s, a.w, f);
    hide Apply, Enabled, Inv, Out;
    var ev, ev' := s.events[f], Apply(s, a).events[f];
    if ev'.waits != ev.waits && x in ev'.waits && x !in ev.waits {
      InLonger(ev.waits, Info(a.w, s.waiters[a.w].scanned), x);
    }
  }

  lemma InLonger(q: seq<Info>, y: Info, x: Info)
    requires x in q + [y] && x !in q
    ensures x == y
  {
  }

  /** A poll registers its call, or leaves all entries alone. */
  lemma PolledWaits(s: Sys, w: nat, f: nat)
    requires Inv(s) && Enabled(s, Poll(w)) && f < |s.events|
    ensures f < |Apply(s, Poll(w)).events|
    ensures w < |s.waiters| && AtEvent(s, s.waiters[w])
    ensures
      var ev, ev' := s.events[f], Apply(s, Poll(w)).events[f];
      || (ev'.waits == ev.waits && Out(ev') == Out(ev))
      || (&& s.waiters[w].events[s.waiters[w].scanned] == f
          && Out(ev) == ev.waits && Out(ev') == ev'.waits && ev'.waits == ev.waits + [Info(w, s.waiters[w].scanned)])
  {
    hide EntriesOk, ControlsOk, RecordsOk, SlotsOk, HistoryOk, LedgersOk;
    assert EventOk(s, f);
  }

  lemma EntriesElse(s: Sys, a: Action, f: nat, x: Info)
    requires Inv(s) && Enabled(s, a) && !a.Poll? && !(a.SweepEntry? && a.e == f) && f < |s.events|
    ensures NoneNew(s.events[f], Apply(s, a).events[f], x)
  {
    ElseWaits(s, a, f);
  }

  lemma ElseWaits(s: Sys, a: Action, f: nat)
    requires Inv(s) && Enabled(s, a) && !a.Poll? && !(a.SweepEntry? && a.e == f) && f < |s.events|
    ensures Shrunk(s.events[f], Apply(s, a).events[f])
  {
    if a.ServeEntry? && a.e == f {
      ServeWaits(s, f);
    } else if a.PopEntry? && a.e == f {
      PopWaits(s, f);
    } else {
      var ev, ev' := s.events[f], Apply(s, a).events[f];
      assert (ev'.waits == ev.waits && ev'.given == ev.given) || ev'.waits == [];
    }
  }

  /** The entries are the same, or lost their first one, or are gone. */
  predicate Shrunk(ev: Event, ev': Event) {
    || (ev'.waits == ev.waits && Out(ev') == Out(ev))
    || (ev'.waits == ev.waits && Out(ev) != [] && Out(ev') == Out(ev)[1..])
    || (ev.waits != [] && ev'.waits == ev.waits[1..] && Out(ev') == Out(ev))
    || (ev'.waits == [] && Out(ev') == [])
  }

  lemma ServeWaits(s: Sys, f: nat)
    requires Enabled(s, ServeEntry(f))
    ensures Shrunk(s.events[f], Apply(s, ServeEntry(f)).events[f])
  {
    var ev, ev' := s.events[f], Apply(s, ServeEntry(f)).events[f];
    assert Out(ev') == Out(ev)[1..];
  }

  lemma PopWaits(s: Sys, f: nat)
    requires Inv(s) && Enabled(s, PopEntry(f))
    ensures Shrunk(s.events[f], Apply(s, PopEntry(f)).events[f])
  {
    hide EntriesOk, ControlsOk, RecordsOk, SlotsOk, HistoryOk, LedgersOk;
    assert EventOk(s, f);
    var ev, ev' := s.events[f], Apply(s, PopEntry(f)).events[f];
    assert Out(ev') == ev.waits[1..] == Out(ev);
  }

  lemma StirsFrom(s: Sys, a: Action, f: nat)
    requires Inv(s) && Enabled(s, a) && f < |s.events| && Stirs(Apply(s, a).events[f])
    ensures Stirs(s.events[f])
  {
    hide EntriesOk, RecordsOk, SlotsOk, HistoryOk, LedgersOk;
    if a.LockScanned? {
      assert ControlOk(s, a.w);
    }
  }

  /** The caller of `DestroyEvent` promises this: no running call lists the event, and none starts to. */
  predicate LeavesUnused(a: Action, e: nat) {
    a.StartWait? ==> e !in a.events
  }

  lemma UnusedKept(s: Sys, a: Action, e: nat)
    requires Enabled(s, a) && !InUse(s, e) && LeavesUnused(a, e)
    ensures !InUse(Apply(s, a), e)
  {
    var t := Apply(s, a);
    forall w | 0 <= w < |t.waiters| && Active(t.waiters[w]) ensures e !in t.waiters[w].events {
      if w < |s.waiters| {
        assert Active(s.waiters[w]) && t.waiters[w].events == s.waiters[w].events;
      }
    }
  }

  lemma ListsIt(events: seq<nat>, i: nat)
    requires i < |events|
    ensures events[i] in events
  {
  }

  /** The call of an entry at an unused event has returned. */
  lemma OwnerGone(s: Sys, e: nat, x: Info)
    requires Inv(s) && e < |s.events| && !InUse(s, e) && x in Out(s.events[e])
    ensures x.waiter < |s.waiters| && !Active(s.waiters[x.waiter]) && !s.waiters[x.waiter].stillWaiting
    ensures !s.waiters[x.waiter].lock.ByCall?
  {
    NamedIsLive(s, e, x);
    var wt := s.waiters[x.waiter];
    ListsIt(wt.events, x.index);
    assert RecordOk(s, x.waiter) && ControlOk(s, x.waiter);
  }

  lemma AloneKept(s: Sys, a: Action, e: nat)
    requires Inv(s) && Enabled(s, a) && !InUse(s, e) && LeavesUnused(a, e) && Alone(s, e)
    ensures Alone(Apply(s, a), e)
  {
    hide Inv, Apply, Enabled, InUse;
    var t := Apply(s, a);
    EventsStay(s, a);
    forall x | x in Out(t.events[e]) ensures !NamedElsewhere(t, e, x.waiter) {
      EntriesFrom(s, a, e, x);
      NoScanOfUnused(s, a, e, x);
      OwnerGone(s, e, x);
      if NamedElsewhere(t, e, x.waiter) {
        NamedBefore(s, a, e, x.waiter);
      }
    }
  }

  /** A call that has returned gets no new entries. */
  lemma NamedBefore(s: Sys, a: Action, e: nat, v: nat)
    requires Inv(s) && Enabled(s, a) && NamedElsewhere(Apply(s, a), e, v)
    requires v < |s.waiters| && !Active(s.waiters[v])
    ensures NamedElsewhere(s, e, v)
  {
    hide Inv, Apply, Enabled;
    var t := Apply(s, a);
    var f: nat, y :| f < |t.events| && f != e && Stirs(t.events[f]) && y in Out(t.events[f]) && y.waiter == v;
    EntriesFrom(s, a, f, y);
    PollerRuns(s, a, f, y);
    StirsFrom(s, a, f);
  }

  lemma PollerRuns(s: Sys, a: Action, f: nat, x: Info)
    requires Enabled(s, a)
    ensures RegistersAt(s, a, f, x) ==> Active(s.waiters[x.waiter]) && f in s.waiters[x.waiter].events
  {
  }

  lemma NoScanOfUnused(s: Sys, a: Action, e: nat, x: Info)
    requires Enabled(s, a) && !InUse(s, e)
    ensures !RegistersAt(s, a, e, x)
  {
    PollerRuns(s, a, e, x);
  }

  // ---------- The clean-up ----------

  /** `DestroyEvent` is cleaning up event e, and has skipped k entries. */
  ghost predicate Cleaning(s: Sys, e: nat, k: nat) {
    e < |s.events| && !s.events[e].alive && s.events[e].holder == Destroyer(k) && !InUse(s, e)
  }

  /** How many times the clean-up of e failed to lock a waiter. */
  function FailedTries(acts: seq<Action>, e: nat): nat {
    if acts == [] then 0
    else (if acts[0] == SweepEntry(e, true) then 1 else 0) + FailedTries(acts[1..], e)
  }

  lemma CleaningStep(s: Sys, e: nat, k: nat, a: Action)
    requires Inv(s) && Cleaning(s, e, k) && Enabled(s, a) && a != EndDestroy(e)
    ensures Cleaning(Apply(s, a), e, k + if a == SweepEntry(e, true) then 1 else 0)
  {
    hide InUse, Registered, Naming, Copies, Tally, RecordOk, SlotOk;
    assert EventOk(s, e);
    UnusedKept(s, a, e);
    if a == SweepEntry(e, false) {
      OwnerGone(s, e, s.events[e].waits[k]);
    } else if a.LockScanned? || a.Poll? {
      assert ControlOk(s, a.w);
    }
  }

  lemma {:induction false} CleaningRun(s: Sys, e: nat, k: nat, acts: seq<Action>, t: Sys)
    requires Inv(s) && Cleaning(s, e, k) && Runs(s, acts, t) && EndDestroy(e) !in acts
    ensures Inv(t) && Cleaning(t, e, k + FailedTries(acts, e))
    decreases |acts|
  {
    hide Inv, Cleaning, Enabled, Apply;
    if acts != [] {
      CleaningStep(s, e, k, acts[0]);
      StepInv(s, acts[0]);
      CleaningRun(Apply(s, acts[0]), e, k + if acts[0] == SweepEntry(e, true) then 1 else 0, acts[1..], t);
    }
  }

  lemma CleaningStarts(s: Sys, e: nat)
    requires Inv(s) && Enabled(s, LockDestroy(e))
    ensures Inv(Apply(s, LockDestroy(e))) && Cleaning(Apply(s, LockDestroy(e)), e, 0)
  {
    StepInv(s, LockDestroy(e));
    UnusedKept(s, LockDestroy(e), e);
  }

  /** Whatever the other threads do meanwhile, when the clean-up of `DestroyEvent` has come to its end
      the event is deleted with exactly one entry for each failed `trylock`: none if and only if none
      failed. */
  lemma {:induction false} LeftBehind(s: Sys, e: nat, acts: seq<Action>, t: Sys)
    requires Inv(s) && Enabled(s, LockDestroy(e))
    requires Runs(Apply(s, LockDestroy(e)), acts, t) && EndDestroy(e) !in acts && Enabled(t, EndDestroy(e))
    ensures |t.events[e].waits| == FailedTries(acts, e)
    ensures Apply(t, EndDestroy(e)).events[e].waits == t.events[e].waits
  {
    CleaningStarts(s, e);
    DeleteState(t, e);
    hide Inv, Apply, InUse;
    CleaningRun(Apply(s, LockDestroy(e)), e, 0, acts, t);
  }

  lemma DeadStays(s: Sys, e: nat, a: Action)
    requires Inv(s) && e < |s.events| && !s.events[e].alive && s.events[e].holder.Free? && Enabled(s, a)
    ensures Apply(s, a).events[e] == s.events[e]
  {
    hide EntriesOk, RecordsOk, SlotsOk, HistoryOk, LedgersOk;
    if a.LockScanned? || a.Poll? {
      assert ControlOk(s, a.w);
    }
  }

  /** A reference left behind is never dropped: in every later state the deleted event still has its
      entries, and their waiter records are not deleted. */
  lemma {:induction false} LeakIsForever(s: Sys, e: nat, x: Info, acts: seq<Action>, t: Sys)
    requires Inv(s) && e < |s.events| && !s.events[e].alive && s.events[e].holder.Free?
    requires x in s.events[e].waits && Runs(s, acts, t)
    ensures e < |t.events| && t.events[e] == s.events[e]
    ensures x.waiter < |t.waiters| && !t.waiters[x.waiter].freed && t.waiters[x.waiter].refCount >= 1
    decreases |acts|
  {
    if acts == [] {
      assert EventOk(s, e);
      var k :| 0 <= k < |s.events[e].waits| && s.events[e].waits[k] == x;
      ListedIsLive(s, e, k);
    } else {
      hide Inv, Apply, Enabled;
      DeadStays(s, e, acts[0]);
      EventsStay(s, acts[0]);
      StepInv(s, acts[0]);
      LeakIsForever(Apply(s, acts[0]), e, x, acts[1..], t);
    }
  }

  // ---------- When nothing is left ----------

  /** While the waiters with entries at e have none elsewhere, no `trylock` of its clean-up fails. */
  lemma NeverFails(s: Sys, e: nat, k: nat)
    requires Inv(s) && Cleaning(s, e, k) && Alone(s, e)
    ensures !Enabled(s, SweepEntry(e, true))
  {
    if Enabled(s, SweepEntry(e, true)) {
      var x := s.events[e].waits[k];
      assert EventOk(s, e) && x in Out(s.events[e]);
      OwnerGone(s, e, x);
      FailureNames(s, e, x.waiter);
    }
  }

  /** If `trylock` can fail on the waiter of a call that has returned, another event that stirs has an
      entry of it. */
  lemma FailureNames(s: Sys, e: nat, v: nat)
    requires Inv(s) && e < |s.events| && s.events[e].holder.Destroyer? && v < |s.waiters|
    requires Contended(s, e, v) && !s.waiters[v].lock.ByCall?
    ensures NamedElsewhere(s, e, v)
  {
    if s.waiters[v].lock.BySetter? {
      LockerNames(s, v);
      var f := s.waiters[v].lock.event;
      assert f != e && Stirs(s.events[f]);
    } else {
      var f: nat :| f < |s.events| && f != e && SweepsAt(s.events[f], v);
      SweeperNames(s, f);
      assert Stirs(s.events[f]);
    }
  }

  lemma LockerNames(s: Sys, v: nat)
    requires Inv(s) && v < |s.waiters| && s.waiters[v].lock.BySetter?
    ensures
      var f := s.waiters[v].lock.event;
      && f < |s.events| && s.events[f].holder.Setter? && s.events[f].given < |s.events[f].waits|
      && s.events[f].waits[s.events[f].given] in Out(s.events[f])
      && s.events[f].waits[s.events[f].given].waiter == v
  {
    assert ControlOk(s, v);
    var ev := s.events[s.waiters[v].lock.event];
    assert ev.waits[ev.given] == Out(ev)[0];
  }

  lemma SweeperNames(s: Sys, f: nat)
    requires Inv(s) && f < |s.events| && (s.events[f].holder.Scanner? || s.events[f].holder.Destroyer?)
    requires SweepPosition(s.events[f]) < |s.events[f].waits|
    ensures s.events[f].waits[SweepPosition(s.events[f])] in Out(s.events[f])
  {
    assert EventOk(s, f);
    assert Out(s.events[f])[SweepPosition(s.events[f])] == s.events[f].waits[SweepPosition(s.events[f])];
  }

  lemma {:induction false} NoneFails(s: Sys, e: nat, k: nat, acts: seq<Action>, t: Sys)
    requires Inv(s) && Cleaning(s, e, k) && Alone(s, e) && Runs(s, acts, t) && EndDestroy(e) !in acts
    ensures FailedTries(acts, e) == 0
    decreases |acts|
  {
    if acts != [] {
      assert EventOk(s, e);
      hide Inv, Apply, Enabled, Alone;
      NeverFails(s, e, k);
      UnusedIsLeft(s, e, k, acts[0]);
      AloneKept(s, acts[0], e);
      CleaningStep(s, e, k, acts[0]);
      StepInv(s, acts[0]);
      NoneFails(Apply(s, acts[0]), e, k, acts[1..], t);
    }
  }

  lemma UnusedIsLeft(s: Sys, e: nat, k: nat, a: Action)
    requires Cleaning(s, e, k) && Enabled(s, a)
    ensures LeavesUnused(a, e)
  {
  }

  /** Some run in which this call of `DestroyEvent` deletes the event with an entry. */
  ghost predicate MayLeak(s: Sys, e: nat)
    requires Enabled(s, LockDestroy(e))
  {
    exists acts, t ::
      && Runs(Apply(s, LockDestroy(e)), acts, t) && EndDestroy(e) !in acts
      && Enabled(t, EndDestroy(e)) && t.events[e].waits != []
  }

  /** A condition the caller can check: if no waiter with an entry at the event has an entry at another
      event, nothing is left behind, whatever the other threads do. */
  lemma AloneLeavesNothing(s: Sys, e: nat)
    requires Inv(s) && Enabled(s, LockDestroy(e)) && Alone(s, e)
    ensures !MayLeak(s, e)
  {
    if MayLeak(s, e) {
      var acts, t :|
        && Runs(Apply(s, LockDestroy(e)), acts, t) && EndDestroy(e) !in acts
        && Enabled(t, EndDestroy(e)) && t.events[e].waits != [];
      LeftBehind(s, e, acts, t);
      CleaningStarts(s, e);
      assert EventOk(s, e);
      AloneKept(s, LockDestroy(e), e);
      NoneFails(Apply(s, LockDestroy(e)), e, 0, acts, t);
    }
  }

  // ---------- When something can be left ----------

  /** Some entry is one of waiter v. */
  ghost predicate Names(q: seq<Info>, v: nat) {
    exists x :: x in q && x.waiter == v
  }

  /** One that is not the first is still there without the first. */
  lemma NamesRest(q: seq<Info>, k: nat, v: nat)
    requires k < |q| && Names(q[k..], v) && q[k].waiter != v
    ensures Names(q[k + 1..], v)
  {
    var x :| x in q[k..] && x.waiter == v;
    assert q[k..] == [q[k]] + q[k + 1..];
    assert x in q[k + 1..];
  }

  /** `DestroyEvent` has locked e, call w cleans up f, and waiter v has entries ahead of both; all other
      mutexes are free. */
  ghost predicate Closing(s: Sys, e: nat, f: nat, v: nat, w: nat) {
    && Inv(s) && Cleaning(s, e, 0) && f < |s.events| && f != e && w < |s.waiters|
    && s.events[f].holder.Scanner? && s.events[f].holder.next <= |s.events[f].waits|
    && Names(s.events[f].waits[s.events[f].holder.next..], v) && Names(s.events[e].waits, v)
    && OthersUnlocked(s, w)
  }

  /** No waiter's mutex is held but that of call w, which is registered nowhere. */
  predicate OthersUnlocked(s: Sys, w: nat) {
    && w < |s.waiters| && s.waiters[w].scanned == 0
    && forall u | 0 <= u < |s.waiters| && u != w :: s.waiters[u].lock.Unlocked?
  }

  /** Entries are not those of a call that has not scanned anything. */
  lemma EntryUnlocked(s: Sys, f: nat, k: nat, w: nat)
    requires Inv(s) && OthersUnlocked(s, w) && f < |s.events| && s.events[f].given <= k < |s.events[f].waits|
    ensures
      var u := s.events[f].waits[k].waiter;
      u < |s.waiters| && u != w && s.waiters[u].lock.Unlocked?
  {
    assert EntryOk(s, f, s.events[f].waits[k]);
  }

  /** The clean-up of f reaches an entry of v, whose mutex it then holds for a moment. */
  lemma {:induction false} ReachWaiter(s: Sys, acts: seq<Action>, m: Sys, e: nat, f: nat, v: nat, w: nat)
    returns (acts': seq<Action>, t: Sys)
    requires Runs(s, acts, m) && EndDestroy(e) !in acts && Closing(m, e, f, v, w)
    ensures Runs(s, acts', t) && EndDestroy(e) !in acts'
    ensures Closing(t, e, f, v, w) && SweepsAt(t.events[f], v)
    decreases |m.events[f].waits| - m.events[f].holder.next
  {
    var k := m.events[f].holder.next;
    assert EventOk(m, f);
    if m.events[f].waits[k].waiter == v {
      acts', t := acts, m;
    } else {
      EntryUnlocked(m, f, k, w);
      var a := SweepEntry(f, false);
      assert Enabled(m, a) && Inv(m) && Cleaning(m, e, 0);
      hide Inv, Cleaning, Enabled, Apply, Closing;
      RunsOneMore(s, acts, m, a);
      StepInv(m, a);
      CleaningStep(m, e, 0, a);
      NextCloses(m, e, f, v, w);
      assert EndDestroy(e) !in acts + [a];
      acts', t := ReachWaiter(s, acts + [a], Apply(m, a), e, f, v, w);
    }
  }

  /** One step of a clean-up: the entry is passed or dropped; mutexes and counters stay. */
  lemma SweepEffect(s: Sys, e: nat, busy: bool)
    requires Enabled(s, SweepEntry(e, busy))
    ensures
      var t, ev := Apply(s, SweepEntry(e, busy)), s.events[e];
      var k := SweepPosition(ev);
      && SameLocks(s, t)
      && if busy || s.waiters[ev.waits[k].waiter].stillWaiting then
           t.events == s.events[e := ev.(holder := Advance(ev.holder))]
         else
           t.events == s.events[e := ev.(waits := ev.waits[..k] + ev.waits[k + 1..])]
  {
  }

  predicate SameLocks(s: Sys, t: Sys) {
    && |t.waiters| == |s.waiters|
    && forall u | 0 <= u < |s.waiters| ::
         t.waiters[u].lock == s.waiters[u].lock && t.waiters[u].scanned == s.waiters[u].scanned
  }

  lemma NextCloses(m: Sys, e: nat, f: nat, v: nat, w: nat)
    requires Closing(m, e, f, v, w) && Enabled(m, SweepEntry(f, false)) && Inv(Apply(m, SweepEntry(f, false)))
    requires Cleaning(Apply(m, SweepEntry(f, false)), e, 0)
    requires m.events[f].waits[m.events[f].holder.next].waiter != v
    ensures
      var t := Apply(m, SweepEntry(f, false));
      && Closing(t, e, f, v, w)
      && |t.events[f].waits| - t.events[f].holder.next == |m.events[f].waits| - m.events[f].holder.next - 1
  {
    SweepEffect(m, f, false);
    hide Inv, Cleaning, Apply, Enabled, Names;
    var t := Apply(m, SweepEntry(f, false));
    var k, q := m.events[f].holder.next, m.events[f].waits;
    NamesRest(q, k, v);
    assert t.events[f].waits[t.events[f].holder.next..] == q[k + 1..];
    assert t.events[e].waits == m.events[e].waits;
  }

  /** The clean-up of e, with the one of f standing at an entry of v: the entries of v are skipped. */
  ghost predicate Skipping(s: Sys, e: nat, f: nat, v: nat, w: nat, k: nat) {
    && Inv(s) && Cleaning(s, e, k) && f < |s.events| && f != e && SweepsAt(s.events[f], v)
    && v < |s.waiters| && k <= |s.events[e].waits|
    && (k > 0 || Names(s.events[e].waits, v))
    && OthersUnlocked(s, w)
  }

  lemma {:induction false} FinishSkipping(s: Sys, acts: seq<Action>, m: Sys, e: nat, f: nat, v: nat, w: nat, k: nat)
    returns (acts': seq<Action>, t: Sys)
    requires Runs(s, acts, m) && EndDestroy(e) !in acts && Skipping(m, e, f, v, w, k) && e < |m.events|
    ensures Runs(s, acts', t) && EndDestroy(e) !in acts'
    ensures Enabled(t, EndDestroy(e)) && t.events[e].waits != []
    decreases |m.events[e].waits| - k
  {
    assert EventOk(m, e);
    if k == |m.events[e].waits| {
      acts', t := acts, m;
    } else {
      EntryUnlocked(m, e, k, w);
      var busy := m.events[e].waits[k].waiter == v;
      var a := SweepEntry(e, busy);
      assert Enabled(m, a);
      hide Inv, Cleaning, Enabled, Apply, Skipping;
      RunsOneMore(s, acts, m, a);
      StepInv(m, a);
      CleaningStep(m, e, k, a);
      var k' := if busy then k + 1 else k;
      NextSkips(m, e, f, v, w, k, busy);
      assert EndDestroy(e) !in acts + [a];
      acts', t := FinishSkipping(s, acts + [a], Apply(m, a), e, f, v, w, k');
    }
  }

  /** The clean-up of an unused event drops every entry it can lock. */
  lemma SkipEffect(m: Sys, e: nat, k: nat, busy: bool)
    requires Inv(m) && Cleaning(m, e, k) && Enabled(m, SweepEntry(e, busy))
    ensures
      var t, ev := Apply(m, SweepEntry(e, busy)), m.events[e];
      && k < |ev.waits| && SameLocks(m, t)
      && t.events == m.events[e :=
           if busy then ev.(holder := Destroyer(k + 1)) else ev.(waits := ev.waits[..k] + ev.waits[k + 1..])]
  {
    assert EventOk(m, e);
    OwnerGone(m, e, Out(m.events[e])[k]);
    SweepEffect(m, e, busy);
  }

  lemma NextSkips(m: Sys, e: nat, f: nat, v: nat, w: nat, k: nat, busy: bool)
    requires Skipping(m, e, f, v, w, k) && k < |m.events[e].waits| && busy == (m.events[e].waits[k].waiter == v)
    requires Enabled(m, SweepEntry(e, busy)) && Inv(Apply(m, SweepEntry(e, busy)))
    requires Cleaning(Apply(m, SweepEntry(e, busy)), e, k + if busy then 1 else 0)
    ensures
      var t := Apply(m, SweepEntry(e, busy));
      && e < |t.events| && Skipping(t, e, f, v, w, k + if busy then 1 else 0)
      && |t.events[e].waits| - (k + if busy then 1 else 0) == |m.events[e].waits| - k - 1
  {
    var q := m.events[e].waits;
    SkipEffect(m, e, k, busy);
    hide Inv, Apply, Enabled, InUse, SweepsAt, Names;
    var t := Apply(m, SweepEntry(e, busy));
    assert t.events[f] == m.events[f];
    if !busy && k == 0 {
      assert q[0..] == q && q[..0] + q[1..] == q[1..];
      NamesRest(q, 0, v);
    }
  }

  /** With no mutex held, a call of `DestroyEvent` can leave an entry behind exactly if some waiter with
      an entry at the event has one at another event that is still alive. */
  lemma LeaksExactly(s: Sys, e: nat)
    requires Inv(s) && Quiescent(s) && Enabled(s, LockDestroy(e))
    ensures MayLeak(s, e) <==> !Alone(s, e)
  {
    if Alone(s, e) {
      AloneLeavesNothing(s, e);
    } else {
      var x :| x in Out(s.events[e]) && NamedElsewhere(s, e, x.waiter);
      var f: nat, y :| f < |s.events| && f != e && Stirs(s.events[f]) && y in Out(s.events[f]) && y.waiter == x.waiter;
      Leak(s, e, f, x, y);
    }
  }

  lemma Leak(s: Sys, e: nat, f: nat, x: Info, y: Info)
    requires Inv(s) && Quiescent(s) && Enabled(s, LockDestroy(e)) && x in s.events[e].waits
    requires f < |s.events| && f != e && s.events[f].alive && y in Out(s.events[f]) && y.waiter == x.waiter
    ensures MayLeak(s, e)
  {
    var w, v := |s.waiters|, x.waiter;
    var s1 := Apply(s, LockDestroy(e));
    var acts, m := OtherScan(s, e, f, x, y);
    acts, m := ReachWaiter(s1, acts, m, e, f, v, w);
    assert EventOk(m, f) && EntryOk(m, f, m.events[f].waits[m.events[f].holder.next]);
    var t;
    acts, t := FinishSkipping(s1, acts, m, e, f, v, w, 0);
  }

  /** A multi-wait on f starts its clean-up just after e was locked. */
  lemma OtherScan(s: Sys, e: nat, f: nat, x: Info, y: Info) returns (acts: seq<Action>, t: Sys)
    requires Inv(s) && Quiescent(s) && Enabled(s, LockDestroy(e)) && x in s.events[e].waits
    requires f < |s.events| && f != e && s.events[f].alive && y in Out(s.events[f]) && y.waiter == x.waiter
    ensures Runs(Apply(s, LockDestroy(e)), acts, t) && EndDestroy(e) !in acts
    ensures Closing(t, e, f, x.waiter, |s.waiters|)
  {
    var s1 := Apply(s, LockDestroy(e));
    var a1, a2 := StartWait([f], false, Infinite), LockScanned(|s.waiters|);
    ScanBegins(s, e, f);
    t := Apply(Apply(s1, a1), a2);
    acts := [a1] + [a2];
    OpenBoth(s, e, f, x, y);
    hide Inv, Apply, Enabled, Closing;
    RunsOneMore(s1, [], s1, a1);
    assert [] + [a1] == [a1];
    RunsOneMore(s1, [a1], Apply(s1, a1), a2);
  }

  lemma OpenBoth(s: Sys, e: nat, f: nat, x: Info, y: Info)
    requires Inv(s) && Quiescent(s) && Enabled(s, LockDestroy(e)) && x in s.events[e].waits
    requires f < |s.events| && f != e && s.events[f].alive && y in Out(s.events[f]) && y.waiter == x.waiter
    ensures
      var w, s1 := |s.waiters|, Apply(s, LockDestroy(e));
      && Enabled(s1, StartWait([f], false, Infinite))
      && Enabled(Apply(s1, StartWait([f], false, Infinite)), LockScanned(w))
      && Closing(Apply(Apply(s1, StartWait([f], false, Infinite)), LockScanned(w)), e, f, x.waiter, w)
  {
    assert EventOk(s, f) && Out(s.events[f]) == s.events[f].waits;
    CleaningStarts(s, e);
    ScanBegins(s, e, f);
    hide Inv, Apply, Enabled, Cleaning, Quiescent, Out, InUse;
    var s1 := Apply(s, LockDestroy(e));
    var a1, a2 := StartWait([f], false, Infinite), LockScanned(|s.waiters|);
    CleaningTwice(s1, e, a1, a2);
    assert Apply(Apply(s1, a1), a2).events[f].waits[0..] == s.events[f].waits;
  }

  lemma CleaningTwice(s: Sys, e: nat, a: Action, b: Action)
    requires Inv(s) && Cleaning(s, e, 0) && Enabled(s, a) && Enabled(Apply(s, a), b)
    requires !a.SweepEntry? && !a.EndDestroy? && !b.SweepEntry? && !b.EndDestroy?
    ensures Inv(Apply(Apply(s, a), b)) && Cleaning(Apply(Apply(s, a), b), e, 0)
  {
    hide Inv, Apply, Enabled, Cleaning;
    CleaningStep(s, e, 0, a);
    StepInv(s, a);
    CleaningStep(Apply(s, a), e, 0, b);
    StepInv(Apply(s, a), b);
  }

  lemma ScanBegins(s: Sys, e: nat, f: nat)
    requires Quiescent(s) && Enabled(s, LockDestroy(e)) && f < |s.events| && f != e && s.events[f].alive
    ensures Enabled(Apply(s, LockDestroy(e)), StartWait([f], false, Infinite))
    ensures Enabled(Apply(Apply(s, LockDestroy(e)), StartWait([f], false, Infinite)), LockScanned(|s.waiters|))
    ensures
      var w := |s.waiters|;
      var t := Apply(Apply(Apply(s, LockDestroy(e)), StartWait([f], false, Infinite)), LockScanned(w));
      && |t.events| == |s.events| && t.events[e].waits == s.events[e].waits
      && t.events[f].waits == s.events[f].waits && t.events[f].holder == Scanner(w, 0)
      && |t.waiters| == w + 1 && OthersUnlocked(t, w)
  {
  }

  // ---------- An example ----------

  /** A wait-any on two events that may not wait and takes nothing leaves an entry at each, so that
      destroying the first can leave one behind. */
  lemma PolledTwoCanLeak() returns (s: Sys)
    ensures Reach({[0, 1]}, s) && Inv(s) && Quiescent(s) && Enabled(s, LockDestroy(0)) && MayLeak(s, 0)
  {
    var lists := {[0, 1]};
    var s2 := PolledTwo();
    ReachStep(lists, s2, EndScan(0));
    var s3 := Apply(s2, EndScan(0));
    ReachStep(lists, s3, FinishWait(0));
    s := Apply(s3, FinishWait(0));
    assert Out(s.events[1]) == s.events[1].waits;
    assert Quiescent(s) && Enabled(s, LockDestroy(0));
    hide Inv, Apply, Enabled;
    ReachInv(lists, s);
    Leak(s, 0, 1, Info(0, 0), Info(0, 1));
  }

  lemma PolledTwo() returns (s: Sys)
    ensures Reach({[0, 1]}, s) && AllIdle(s) && |s.waiters| == 1 && |s.events| == 2
    ensures s.waiters[0] == NewWaiter([0, 1], false, Zero).(refCount := s.waiters[0].refCount, scanned := 2)
    ensures Info(0, 0) in s.events[0].waits && Info(0, 1) in s.events[1].waits
  {
    var lists := {[0, 1]};
    Created(lists, 2, false);
    var s0 := Sys(NewEvents(2, false), [], Start);
    Started(lists, s0, [0, 1], false, Zero);
    var s1 := s0.(waiters := s0.waiters + [NewWaiter([0, 1], false, Zero)]);
    s := ScanTo(lists, s1, 0, 2);
    assert Info(0, 0) in s.events[s1.waiters[0].events[0]].waits;
    assert Info(0, 1) in s.events[s1.waiters[0].events[1]].waits;
  }
}
