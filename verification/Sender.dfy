/** src/libs/Sender.cpp: the bounded queue between the packager and the socket, under every
    interleaving of the threads that offer packets, the sending thread and the destructor. */
module Sender {
  import opened Bytes
  import opened Packager
  import opened Unpackager
  import opened Pipeline

  const QUEUE_MAX := 1000
  const PACKET_MAX := 1500

  type Datagram = seq<byte>

  /** Where the sending thread is: before the test of line 42, between it and the lock of line 43,
      in the wait of line 45, or past the end. */
  datatype Consumer = AtTest | AtLock | Waiting | Exited

  /** `notified`: line 38 has woken the sleeping thread, which has not run yet. `offered` and `accepted`
      record the packets passed to `receiveRtpPacket` and those it queued. */
  datatype State = State(
    queue: seq<Datagram>,
    sending: bool,
    consumer: Consumer,
    notified: bool,
    sent: seq<Datagram>,
    offered: seq<Datagram>,
    accepted: seq<Datagram>)

  /** After `init`. */
  const STARTED := State.State([], true, AtTest, false, [], [], [])

  /** A step is what one thread does while it holds the mutex, or the unlocked test of line 42, or the
      unlocked write of line 14. */
  datatype Action = Offer(packet: Datagram) | Test | Lock | Wake(spurious: bool) | Stop

  predicate Enabled(s: State, a: Action) {
    match a
    case Offer(p) => |p| <= PACKET_MAX
    case Test => s.consumer.AtTest?
    case Lock => s.consumer.AtLock?
    case Wake(spurious) => s.consumer.Waiting? && (spurious || s.notified)
    case Stop => true
  }

  /** Lines 50-51. */
  function SendFront(s: State): State
    requires s.queue != []
  {
    s.(sent := s.sent + [s.queue[0]], queue := s.queue[1..], consumer := AtTest, notified := false)
  }

  function SendOrWait(s: State): State {
    if s.queue == [] then s.(consumer := Waiting, notified := false) else SendFront(s)
  }

  function Apply(s: State, a: Action): State
    requires Enabled(s, a)
  {
    match a
    case Offer(p) =>
      var o := s.(offered := s.offered + [p]);
      if !s.sending then o
      else
        var q := if |s.queue| < QUEUE_MAX then o.(queue := s.queue + [p], accepted := s.accepted + [p]) else o;
        q.(notified := s.notified || s.consumer.Waiting?)
    case Test => s.(consumer := if s.sending then AtLock else Exited)
    case Lock => SendOrWait(s)
    case Wake(_) => if !s.sending then s.(consumer := Exited, notified := false) else SendOrWait(s)
    case Stop => s.(sending := false)
  }

  ghost predicate Runs(s: State, actions: seq<Action>, t: State)
    decreases |actions|
  {
    if actions == [] then s == t
    else Enabled(s, actions[0]) && Runs(Apply(s, actions[0]), actions[1..], t)
  }

  // ---------- What every step keeps ----------

  predicate Inv(s: State) {
    && |s.queue| <= QUEUE_MAX
    && s.sent + s.queue == s.accepted
    && (s.consumer.Waiting? && s.queue != [] ==> s.notified)
  }

  lemma StepInv(s: State, a: Action)
    requires Inv(s) && Enabled(s, a)
    ensures Inv(Apply(s, a))
  {
    var t := Apply(s, a);
    if t.queue != [] && t.queue == s.queue + [t.queue[|t.queue| - 1]] {
      assert s.sent + (s.queue + [t.queue[|t.queue| - 1]]) == s.sent + s.queue + [t.queue[|t.queue| - 1]];
    }
    if s.queue != [] {
      assert s.sent + [s.queue[0]] + s.queue[1..] == s.sent + s.queue;
    }
  }

  /** In every reachable state the packets sent, followed by those queued, are the packets accepted, in
      order; no more than 1000 are queued; and the sending thread never sleeps on a non-empty queue
      without a wake-up on its way. */
  lemma {:induction false} QueueKeepsOrder(s: State, actions: seq<Action>, t: State)
    requires Inv(s) && Runs(s, actions, t)
    ensures t.sent + t.queue == t.accepted && |t.queue| <= QUEUE_MAX
    ensures t.consumer.Waiting? && t.queue != [] ==> t.notified
    ensures Inv(t)
    decreases |actions|
  {
    hide Enabled, Apply;
    if actions != [] {
      StepInv(s, actions[0]);
      QueueKeepsOrder(Apply(s, actions[0]), actions[1..], t);
    }
  }

  // ---------- The queue as a bounded channel ----------

  /** A channel without threads: all packets ever taken in, how many of them are out again, and whether
      it is open. */
  datatype Channel = Channel(stream: seq<Datagram>, out: nat, open: bool)

  function Put(c: Channel, p: Datagram): Channel {
    if c.open && |c.stream| - c.out < QUEUE_MAX then c.(stream := c.stream + [p]) else c
  }

  function AsChannel(s: State): Channel {
    Channel(s.accepted, |s.sent|, s.sending)
  }

  /** Every step is a put, a take, a close or nothing to the channel, and the packets on the wire are
      always the first `out` of its stream. */
  lemma StepRefinesChannel(s: State, a: Action)
    requires Inv(s) && Enabled(s, a)
    ensures
      var c, d, t := AsChannel(s), AsChannel(Apply(s, a)), Apply(s, a);
      && d.out <= |d.stream| && t.sent == d.stream[..d.out]
      && match a
         case Offer(p) => d == Put(c, p)
         case Stop => d == c.(open := false)
         case Test => d == c
         case Lock => d == if c.out < |c.stream| then c.(out := c.out + 1) else c
         case Wake(_) => d == if c.open && c.out < |c.stream| then c.(out := c.out + 1) else c
  {
    StepInv(s, a);
    assert |s.accepted| == |s.sent| + |s.queue|;
    var t := Apply(s, a);
    assert t.accepted[..|t.sent|] == t.sent;
  }

  // ---------- Drops ----------

  predicate Dropped(s: State, a: Action) {
    a.Offer? && !(s.sending && |s.queue| < QUEUE_MAX)
  }

  function Offers(actions: seq<Action>): seq<Datagram> {
    if actions == [] then []
    else (if actions[0].Offer? then [actions[0].packet] else []) + Offers(actions[1..])
  }

  /** Whether each offer of a run was queued. */
  ghost function Mask(s: State, actions: seq<Action>, t: State): (mask: seq<bool>)
    requires Runs(s, actions, t)
    ensures |mask| == |Offers(actions)|
    decreases |actions|
  {
    if actions == [] then []
    else
      (if actions[0].Offer? then [!Dropped(s, actions[0])] else [])
      + Mask(Apply(s, actions[0]), actions[1..], t)
  }

  /** What is accepted is exactly the subsequence of the packets offered while the sender was active
      and had fewer than 1000 queued. */
  lemma {:induction false} AcceptedIsSubsequence(s: State, actions: seq<Action>, t: State)
    requires Runs(s, actions, t)
    ensures t.accepted == s.accepted + Keep(Offers(actions), Mask(s, actions, t))
    ensures t.offered == s.offered + Offers(actions)
    decreases |actions|
  {
    if actions == [] {
      assert t.accepted + [] == t.accepted && t.offered + [] == t.offered;
    } else {
      var n := Apply(s, actions[0]);
      AcceptedIsSubsequence(n, actions[1..], t);
      if actions[0].Offer? {
        OfferFirst(s, actions, t);
      } else {
        OtherFirst(s, actions, t);
      }
    }
  }

  lemma {:induction false} OfferFirst(s: State, actions: seq<Action>, t: State)
    requires actions != [] && actions[0].Offer? && Runs(s, actions, t)
    ensures
      var n, rest := Apply(s, actions[0]), actions[1..];
      && n.accepted + Keep(Offers(rest), Mask(n, rest, t)) == s.accepted + Keep(Offers(actions), Mask(s, actions, t))
      && n.offered + Offers(rest) == s.offered + Offers(actions)
  {
    hide Keep;
    var p, kept := actions[0].packet, !Dropped(s, actions[0]);
    var n, rest := Apply(s, actions[0]), actions[1..];
    KeepHead(p, kept, Offers(rest), Mask(n, rest, t));
    Regroup(s.accepted, if kept then [p] else [], Keep(Offers(rest), Mask(n, rest, t)));
    Regroup(s.offered, [p], Offers(rest));
    assert s.accepted + [] == s.accepted;
  }

  lemma {:induction false} OtherFirst(s: State, actions: seq<Action>, t: State)
    requires actions != [] && !actions[0].Offer? && Runs(s, actions, t)
    ensures
      var n, rest := Apply(s, actions[0]), actions[1..];
      && n.accepted == s.accepted && n.offered == s.offered
      && Offers(rest) == Offers(actions) && Mask(n, rest, t) == Mask(s, actions, t)
  {
    assert [] + Offers(actions[1..]) == Offers(actions[1..]);
    assert [] + Mask(Apply(s, actions[0]), actions[1..], t) == Mask(Apply(s, actions[0]), actions[1..], t);
  }

  // ---------- End to end ----------

  /** Whatever is dropped, what reaches the receiver is made of packets offered, in order, so that every
      received byte shows up in it once. */
  lemma {:induction false} WireBytesConserved(actions: seq<Action>, t: State)
    requires Runs(STARTED, actions, t)
    requires forall k | 0 <= k < |t.sent| :: Readable(t.sent[k])
    ensures t.sent <= Keep(Offers(actions), Mask(STARTED, actions, t))
    ensures
      ReceiveAll(FRESH, t.sent)
      == if StretchesFit(FRESH, t.sent) then Received(FeedBytes(FRESH, t.sent)) else Overrun
    ensures Held(FeedBytes(FRESH, t.sent)) == Payloads(t.sent)
    ensures |FeedBytes(FRESH, t.sent).frames| == Markers(t.sent)
  {
    hide Runs, FeedBytes, Payloads, Markers, Readable, Keep, Mask, Offers, ReceiveAll, StretchesFit;
    QueueKeepsOrder(STARTED, actions, t);
    AcceptedIsSubsequence(STARTED, actions, t);
    assert STARTED.accepted + Keep(Offers(actions), Mask(STARTED, actions, t))
        == Keep(Offers(actions), Mask(STARTED, actions, t));
    assert t.sent <= t.accepted;
    BytesConserved(FRESH, t.sent);
    assert Held(FRESH) + Payloads(t.sent) == Payloads(t.sent);
  }

  /** With no drop, what has been delivered end to end at any moment is a prefix of the frames sent. */
  lemma {:induction false} DeliveredSoFar(frames: seq<Source>, actions: seq<Action>, t: State)
    requires NonEmpty(frames) && Runs(STARTED, actions, t)
    requires Offers(actions) <= WrapAll(AllPackets(frames, 0))
    requires forall k | 0 <= k < |Mask(STARTED, actions, t)| :: Mask(STARTED, actions, t)[k]
    ensures forall k | 0 <= k < |t.sent| :: Readable(t.sent[k])
    ensures
      var r := FeedBytes(FRESH, t.sent).frames;
      |r| <= |Emitted(-1, frames)| == |frames| && r == Emitted(-1, frames)[..|r|]
    ensures
      ReceiveAll(FRESH, t.sent)
      == if StretchesFit(FRESH, t.sent) then Received(FeedBytes(FRESH, t.sent)) else Overrun
    ensures FramesFit(frames) ==> StretchesFit(FRESH, t.sent)
  {
    hide Runs, Wrap, Readable, FeedBytes, Feed, AllPackets, Emitted, ReceiveAll, StretchesFit, FramesFit;
    QueueKeepsOrder(STARTED, actions, t);
    AcceptedIsSubsequence(STARTED, actions, t);
    KeepAll(Offers(actions), Mask(STARTED, actions, t));
    assert STARTED.accepted + Offers(actions) == Offers(actions);
    var packets := AllPackets(frames, 0);
    assert t.sent <= t.accepted;
    assert t.sent == WrapAll(packets[..|t.sent|]);
    FeedWrapped(FRESH, packets[..|t.sent|]);
    DeliveredIsPrefix(frames, |t.sent|);
  }

  // ---------- Recovery after a drop ----------

  /** The mask up to the n-th thing kept; nothing after that gets through. */
  function CutAfter(mask: seq<bool>, n: nat): (cut: seq<bool>)
    ensures |cut| == |mask|
  {
    if mask == [] then []
    else [mask[0] && n > 0] + CutAfter(mask[1..], if mask[0] && n > 0 then n - 1 else n)
  }

  lemma {:induction false} CutKeepsFirst<T>(p: seq<T>, mask: seq<bool>, n: nat)
    requires |mask| == |p| && n <= |Keep(p, mask)|
    ensures Keep(p, CutAfter(mask, n)) == Keep(p, mask)[..n]
    decreases |p|
  {
    if p != [] {
      var rest := if mask[0] && n > 0 then n - 1 else n;
      if mask[0] || n == 0 {
        if n == 0 {
          CutToNothing(p, mask);
        } else {
          CutKeepsFirst(p[1..], mask[1..], rest);
        }
      } else {
        CutKeepsFirst(p[1..], mask[1..], rest);
      }
    }
  }

  lemma {:induction false} CutToNothing<T>(p: seq<T>, mask: seq<bool>)
    requires |mask| == |p|
    ensures Keep(p, CutAfter(mask, 0)) == []
    decreases |p|
  {
    if p != [] {
      CutToNothing(p[1..], mask[1..]);
    }
  }

  /** Up to a position that no more than n things before it get through, the cut changes nothing. */
  lemma {:induction false} CutLeaves<T>(p: seq<T>, mask: seq<bool>, n: nat, q: nat)
    requires |mask| == |p| && q <= |p| && |Keep(p[..q], mask[..q])| <= n
    ensures CutAfter(mask, n)[..q] == mask[..q]
    decreases |p|
  {
    if q > 0 {
      assert p[..q] == [p[0]] + p[1..][..q - 1] && mask[..q] == [mask[0]] + mask[1..][..q - 1];
      KeepHead(p[0], mask[0], p[1..][..q - 1], mask[1..][..q - 1]);
      CutLeaves(p[1..], mask[1..], if mask[0] then n - 1 else n, q - 1);
      if !(mask[0] && n > 0) {
        assert !mask[0];
      }
      var rest := CutAfter(mask[1..], if mask[0] then n - 1 else n);
      assert CutAfter(mask, n) == [mask[0]] + rest;
      assert CutAfter(mask, n)[..q] == [mask[0]] + rest[..q - 1];
    }
  }

  lemma {:induction false} KeepWrapped(p: seq<Packet>, mask: seq<bool>)
    requires |mask| == |p|
    ensures Keep(WrapAll(p), mask) == WrapAll(Keep(p, mask))
    decreases |p|
  {
    hide Wrap;
    if p != [] {
      KeepWrapped(p[1..], mask[1..]);
      assert WrapAll(p)[1..] == WrapAll(p[1..]);
    }
  }

  /** Which packets of a run of frames have gone through the sender at a moment. */
  ghost function Through(frames: seq<Source>, actions: seq<Action>, t: State): (mask: seq<bool>)
    requires Runs(STARTED, actions, t) && |Offers(actions)| <= |AllPackets(frames, 0)|
    ensures |mask| == |AllPackets(frames, 0)|
  {
    CutAfter(Mask(STARTED, actions, t), |t.sent|) + seq(|AllPackets(frames, 0)| - |Offers(actions)|, _ => false)
  }

  lemma {:induction false} KeepNone<T>(p: seq<T>)
    ensures Keep(p, seq(|p|, _ => false)) == []
    decreases |p|
  {
    if p != [] {
      assert seq(|p|, _ => false)[1..] == seq(|p[1..]|, _ => false);
      KeepNone(p[1..]);
    }
  }

  /** What is on the wire is what the mask lets through of the packets of the frames. */
  lemma {:induction false} SentIsThrough(frames: seq<Source>, actions: seq<Action>, t: State)
    requires Runs(STARTED, actions, t) && Offers(actions) <= WrapAll(AllPackets(frames, 0))
    ensures t.sent == WrapAll(Keep(AllPackets(frames, 0), Through(frames, actions, t)))
  {
    hide Runs, AllPackets, Offers, Mask, Keep, CutAfter, Wrap;
    var offers, mask := Offers(actions), Mask(STARTED, actions, t);
    var wrapped := WrapAll(AllPackets(frames, 0));
    QueueKeepsOrder(STARTED, actions, t);
    AcceptedIsSubsequence(STARTED, actions, t);
    assert [] + Keep(offers, mask) == Keep(offers, mask);
    assert t.sent == t.accepted[..|t.sent|];
    CutKeepsFirst(offers, mask, |t.sent|);
    var rest := wrapped[|offers|..];
    assert wrapped == offers + rest;
    KeepNone(rest);
    KeepJoin(offers, rest, CutAfter(mask, |t.sent|), seq(|rest|, _ => false));
    assert t.sent + [] == t.sent;
    KeepWrapped(AllPackets(frames, 0), Through(frames, actions, t));
  }

  /** Frame j has gone through whole, and so has the last packet before it, which carries the marker of
      frame j - 1; what was dropped before and after is left open. */
  ghost predicate WentThrough(frames: seq<Source>, j: nat, actions: seq<Action>, t: State)
    requires j < |frames| && Runs(STARTED, actions, t)
  {
    var offers, mask := Offers(actions), Mask(STARTED, actions, t);
    var m, k := StartOf(frames, j), StartOf(frames, j + 1);
    && m <= k <= |offers|
    && (j > 0 && m > 0 ==> mask[m - 1])
    && (forall i | m <= i < k :: mask[i])
    && |Keep(offers[..k], mask[..k])| <= |t.sent|
  }

  /** After any drops: a frame of which every packet was accepted, as was the packet before its first
      one, comes out of the receiver byte for byte once those packets have been sent, as the next frame
      after those that the packets accepted earlier made up. */
  lemma {:induction false} RecoveredEndToEnd(frames: seq<Source>, j: nat, actions: seq<Action>, t: State)
    requires NonEmpty(frames) && j < |frames| && Runs(STARTED, actions, t)
    requires Offers(actions) <= WrapAll(AllPackets(frames, 0))
    requires WentThrough(frames, j, actions, t)
    ensures forall i | 0 <= i < |t.sent| :: Readable(t.sent[i])
    ensures
      var m, mask := StartOf(frames, j), Mask(STARTED, actions, t);
      var earlier := Keep(AllPackets(frames[..j], 0), mask[..m]);
      var before := Feed(FRESH, earlier);
      var first := if before.first == -1 then Ts(frames[j]) else before.first;
      var all := FeedBytes(FRESH, t.sent).frames;
      && WrapAll(earlier) == Keep(Offers(actions)[..m], mask[..m])
      && |before.frames| < |all|
      && all[|before.frames|] == Frame(frames[j].data, Quotient(Ts(frames[j]) - first, 90))
      && forall h: nat | FirstMarker(frames, Through(frames, actions, t), h) :: first == Ts(frames[h])
    ensures
      ReceiveAll(FRESH, t.sent)
      == if StretchesFit(FRESH, t.sent) then Received(FeedBytes(FRESH, t.sent)) else Overrun
  {
    hide Runs, AllPackets, Offers, Mask, Keep, CutAfter, Wrap, Feed, FeedBytes, Ts, Quotient, Readable;
    hide ReceiveAll, StretchesFit, FirstMarker;
    var offers, mask := Offers(actions), Mask(STARTED, actions, t);
    var m, k := StartOf(frames, j), StartOf(frames, j + 1);
    var all, through := AllPackets(frames, 0), Through(frames, actions, t);
    SentIsThrough(frames, actions, t);
    FeedWrapped(FRESH, Keep(all, through));
    ReceivedExactly(FRESH, t.sent);
    CutLeaves(offers, mask, |t.sent|, k);
    SamePrefix(CutAfter(mask, |t.sent|), mask, through, m, k);
    SplitAt(frames, j);
    Recovery(frames, j, through);
    KeepWrapped(AllPackets(frames[..j], 0), mask[..m]);
    assert offers[..m] == WrapAll(all)[..m] == WrapAll(all[..m]);
  }

  lemma SamePrefix(cut: seq<bool>, mask: seq<bool>, through: seq<bool>, m: nat, k: nat)
    requires m <= k <= |cut| == |mask| && cut <= through && cut[..k] == mask[..k]
    ensures through[..m] == mask[..m]
    ensures forall i | 0 <= i < k :: through[i] == mask[i]
  {
    forall i | 0 <= i < k ensures through[i] == mask[i] {
      assert cut[..k][i] == mask[..k][i];
    }
  }

  // ---------- The thread goes on ----------

  /** The thread ends only after `sending_` was cleared. */
  lemma {:induction false} ExitedMeansStopped(s: State, actions: seq<Action>, t: State)
    requires (s.consumer.Exited? ==> !s.sending) && Runs(s, actions, t)
    ensures t.consumer.Exited? ==> !t.sending
    decreases |actions|
  {
    if actions != [] {
      ExitedMeansStopped(Apply(s, actions[0]), actions[1..], t);
    }
  }

  /** The steps of the sending thread by itself up to the next packet on the wire: from a wait it has to be
      woken, from its test it goes on to the lock. */
  function Onward(s: State): seq<Action> {
    match s.consumer
    case AtTest => [Test, Lock]
    case AtLock => [Lock]
    case Waiting => [Wake(false)]
    case Exited => []
  }

  /** In every reachable state with `sending_` set and a packet queued, at most two steps of the sending
      thread, none of them a spurious wake-up, put the next packet on the wire; the thread is then again
      before its test, and the rest of the queue is as it was. */
  lemma {:induction false} NextPacketGoesOut(actions: seq<Action>, t: State)
    requires Runs(STARTED, actions, t) && t.sending && t.queue != []
    ensures Onward(t) != [] && NoSpuriousWake(Onward(t))
    ensures
      Runs(t, Onward(t),
           t.(sent := t.sent + [t.queue[0]], queue := t.queue[1..], consumer := AtTest, notified := false))
  {
    QueueKeepsOrder(STARTED, actions, t);
    ExitedMeansStopped(STARTED, actions, t);
    match t.consumer {
      case AtTest =>
        var u := Apply(t, Test);
        assert [Test, Lock][1..] == [Lock] && [Lock][1..] == [];
        assert Runs(u, [Lock], Apply(u, Lock));
      case AtLock =>
        assert [Lock][1..] == [];
      case Waiting =>
        assert [Wake(false)][1..] == [];
      case Exited =>
        assert false;
    }
  }

  /** So the thread by itself puts the whole queue on the wire, in order, and goes on. */
  lemma {:induction false} QueueGoesOut(actions: seq<Action>, t: State) returns (own: seq<Action>, u: State)
    requires Runs(STARTED, actions, t) && t.sending
    ensures Runs(t, own, u) && NoSpuriousWake(own) && forall k | 0 <= k < |own| :: !own[k].Offer? && !own[k].Stop?
    ensures u.sent == t.sent + t.queue && u.queue == [] && u.sending && !u.consumer.Exited?
    decreases |t.queue|
  {
    if t.queue == [] {
      ExitedMeansStopped(STARTED, actions, t);
      own, u := [], t;
      assert t.sent + [] == t.sent;
    } else {
      NextPacketGoesOut(actions, t);
      var n := t.(sent := t.sent + [t.queue[0]], queue := t.queue[1..], consumer := AtTest, notified := false);
      RunsJoin(STARTED, actions, t, Onward(t), n);
      var rest;
      rest, u := QueueGoesOut(actions + Onward(t), n);
      own := Onward(t) + rest;
      RunsJoin(t, Onward(t), n, rest, u);
      assert t.sent + [t.queue[0]] + t.queue[1..] == t.sent + t.queue;
    }
  }

  // ---------- Shutting down ----------

  /** After `sending_` is cleared at most one more packet goes out, and none unless the thread had
      already passed the test of line 42. */
  lemma {:induction false} AtMostOneAfterStop(s: State, actions: seq<Action>, t: State)
    requires !s.sending && Runs(s, actions, t)
    ensures !t.sending && t.accepted == s.accepted
    ensures |s.sent| <= |t.sent| <= |s.sent| + if s.consumer.AtLock? then 1 else 0
    decreases |actions|
  {
    if actions != [] {
      AtMostOneAfterStop(Apply(s, actions[0]), actions[1..], t);
    }
  }

  predicate NoSpuriousWake(actions: seq<Action>) {
    forall k | 0 <= k < |actions| :: !(actions[k].Wake? && actions[k].spurious)
  }

  /** The sending thread sleeps, or is about to, and nothing but a spurious wake-up will end that. */
  predicate Stranded(s: State) {
    !s.sending && ((s.consumer.Waiting? && !s.notified) || (s.consumer.AtLock? && s.queue == []))
  }

  lemma {:induction false} StrandedForever(s: State, actions: seq<Action>, t: State)
    requires Stranded(s) && Runs(s, actions, t) && NoSpuriousWake(actions)
    ensures Stranded(t)
    decreases |actions|
  {
    if actions != [] {
      StrandedForever(Apply(s, actions[0]), actions[1..], t);
    }
  }

  ghost predicate CanJoin(s: State) {
    exists actions, t :: Runs(s, actions, t) && NoSpuriousWake(actions) && t.consumer.Exited?
  }

  /** The destructor clears `sending_` without notifying. Its join can end without a spurious wake-up
      exactly if at that moment the sending thread is not asleep without a wake-up pending, nor between
      its test and its lock with nothing queued. */
  lemma JoinEndsExactly(s: State)
    requires !s.sending
    ensures CanJoin(s) <==> !Stranded(s)
  {
    if Stranded(s) {
      if CanJoin(s) {
        var actions, t :| Runs(s, actions, t) && NoSpuriousWake(actions) && t.consumer.Exited?;
        StrandedForever(s, actions, t);
      }
    } else if s.consumer.Exited? {
      assert Runs(s, [], s);
    } else if s.consumer.AtTest? {
      LastStep(s, Test);
    } else if s.consumer.Waiting? {
      LastStep(s, Wake(false));
    } else {
      var n := Apply(s, Lock);
      assert [Lock, Test][1..] == [Test] && [Test][1..] == [];
      assert Runs(n, [Test], Apply(n, Test));
      assert Runs(s, [Lock, Test], Apply(n, Test));
    }
  }

  lemma LastStep(s: State, a: Action)
    requires Enabled(s, a) && Apply(s, a).consumer.Exited? && !(a.Wake? && a.spurious)
    ensures CanJoin(s)
  {
    assert [a][1..] == [];
    assert Runs(s, [a], Apply(s, a));
  }

  // ---------- The class ----------

  lemma {:induction false} RunsJoin(s: State, a: seq<Action>, t: State, b: seq<Action>, u: State)
    requires Runs(s, a, t) && Runs(t, b, u)
    ensures Runs(s, a + b, u)
    decreases |a|
  {
    hide Enabled, Apply;
    if a == [] {
      assert a + b == b;
    } else {
      RunsJoin(Apply(s, a[0]), a[1..], t, b, u);
      assert (a + b)[1..] == a[1..] + b;
    }
  }

  lemma {:induction false} RunsOn(s: State, actions: seq<Action>, t: State, a: Action)
    requires Runs(s, actions, t) && Enabled(t, a)
    ensures Runs(s, actions + [a], Apply(t, a))
  {
    hide Enabled, Apply;
    assert [a][1..] == [];
    RunsJoin(s, actions, t, [a], Apply(t, a));
  }

  lemma {:induction false} RunsSplit(s: State, a: seq<Action>, t: State, b: seq<Action>, u: State)
    requires Runs(s, a, t) && Runs(s, a + b, u)
    ensures Runs(t, b, u)
    decreases |a|
  {
    hide Enabled, Apply;
    if a == [] {
      assert a + b == b;
    } else {
      assert (a + b)[1..] == a[1..] + b;
      RunsSplit(Apply(s, a[0]), a[1..], t, b, u);
    }
  }

  // ---------- The thread does not dawdle ----------

  /** If action k is one of another thread, the sending thread waits without having been woken, or has just
      made its test and waits for the mutex. */
  predicate Attends(u: State, actions: seq<Action>, k: nat)
    requires k < |actions|
  {
    actions[k].Offer? || actions[k].Stop? ==>
      || (u.consumer.Waiting? && !u.notified)
      || (u.consumer.AtLock? && k > 0 && actions[k - 1].Test?)
  }

  ghost predicate Prompt(s: State, actions: seq<Action>) {
    forall k: nat, u | k < |actions| && Runs(s, actions[..k], u) :: Attends(u, actions, k)
  }

  lemma {:induction false} PromptJoin(s: State, a: seq<Action>, t: State, b: seq<Action>)
    requires Runs(s, a, t) && Prompt(s, a) && Prompt(t, b)
    ensures Prompt(s, a + b)
  {
    hide Runs;
    forall k: nat, u | k < |a + b| && Runs(s, (a + b)[..k], u) ensures Attends(u, a + b, k) {
      if k < |a| {
        assert (a + b)[..k] == a[..k];
        assert Attends(u, a, k);
      } else {
        assert (a + b)[..k] == a + b[..k - |a|];
        RunsSplit(s, a, t, b[..k - |a|], u);
        assert Attends(u, b, k - |a|);
      }
    }
  }

  /** One more action, of the thread itself or at a moment when it waits. */
  lemma {:induction false} PromptOn(s: State, actions: seq<Action>, t: State, a: Action)
    requires Runs(s, actions, t) && Prompt(s, actions)
    requires Attends(t, actions + [a], |actions|)
    ensures Prompt(s, actions + [a])
  {
    hide Runs;
    forall k: nat, u | k < |actions + [a]| && Runs(s, (actions + [a])[..k], u) ensures Attends(u, actions + [a], k) {
      assert (actions + [a])[..k] == actions[..k];
      if k == |actions| {
        assert actions[..k] == actions == actions + [];
        RunsSplit(s, actions, t, [], u);
        NoSteps(t, u);
      } else {
        assert Attends(u, actions, k);
      }
    }
  }

  lemma {:induction false} NoSteps(s: State, t: State)
    requires Runs(s, [], t)
    ensures s == t
  {
  }

  /** What happens elsewhere at a moment when the mutex is free; `Waking` ends a wait spuriously. */
  datatype Other = Offering(buffer: seq<byte>, size: nat) | Stopping | Waking

  predicate Fits(o: Other) {
    o.Offering? ==> o.size <= |o.buffer| && o.size <= PACKET_MAX
  }

  predicate AllFit(others: seq<Other>) {
    forall k | 0 <= k < |others| :: Fits(others[k])
  }

  function ActionsOf(o: Other): seq<Action>
    requires Fits(o)
  {
    match o
    case Offering(b, n) => [Offer(b[..n])]
    case Stopping => [Stop]
    case Waking => []
  }

  function AllActionsOf(others: seq<Other>): seq<Action>
    requires AllFit(others)
  {
    if others == [] then [] else AllActionsOf(others[..|others| - 1]) + ActionsOf(others[|others| - 1])
  }

  /** The steps of a run that are not the sending thread's own. */
  function Foreign(actions: seq<Action>): seq<Action> {
    if actions == [] then []
    else (if actions[0].Offer? || actions[0].Stop? then [actions[0]] else []) + Foreign(actions[1..])
  }

  lemma {:induction false} ForeignJoin(a: seq<Action>, b: seq<Action>)
    ensures Foreign(a + b) == Foreign(a) + Foreign(b)
    decreases |a|
  {
    if a == [] {
      assert a + b == b;
    } else {
      ForeignJoin(a[1..], b);
      ForeignHead(a[0], a[1..] + b);
      ForeignHead(a[0], a[1..]);
      hide Foreign;
      assert a == [a[0]] + a[1..] && a + b == [a[0]] + (a[1..] + b);
    }
  }

  lemma {:induction false} ForeignHead(a: Action, b: seq<Action>)
    ensures Foreign([a] + b) == (if a.Offer? || a.Stop? then [a] else []) + Foreign(b)
  {
    assert ([a] + b)[1..] == b;
  }

  lemma OneMore(others: seq<Other>, i: nat, j: nat)
    requires i <= j < |others| && AllFit(others)
    ensures AllActionsOf(others[i..j + 1]) == AllActionsOf(others[i..j]) + ActionsOf(others[j])
  {
    assert others[i..j + 1][..j - i] == others[i..j];
  }

  lemma {:induction false} UpTo(others: seq<Other>, i: nat, j: nat)
    requires i <= j <= |others| && AllFit(others)
    ensures AllActionsOf(others[..j]) == AllActionsOf(others[..i]) + AllActionsOf(others[i..j])
    decreases j
  {
    hide ActionsOf, Fits;
    if i < j {
      UpTo(others, i, j - 1);
      assert others[..j][..j - 1] == others[..j - 1];
      assert others[i..j][..j - i - 1] == others[i..j - 1];
      var a, b, c := AllActionsOf(others[..i]), AllActionsOf(others[i..j - 1]), ActionsOf(others[j - 1]);
      assert a + b + c == a + (b + c);
    } else {
      assert AllActionsOf(others[..i]) + [] == AllActionsOf(others[..i]);
    }
  }

  /** A prefix of a run of the other threads. */
  lemma {:induction false} Used(others: seq<Other>, i: nat)
    requires i <= |others| && AllFit(others)
    ensures AllActionsOf(others[..i]) <= AllActionsOf(others)
  {
    hide AllActionsOf;
    UpTo(others, i, |others|);
    assert others[..|others|] == others;
  }

  /** A run of which the foreign part is known grows by another one, or by a step of the thread. */
  predicate Log(actions: seq<Action>, others: seq<Other>, i: nat)
    requires i <= |others| && AllFit(others)
  {
    Foreign(actions) == AllActionsOf(others[..i])
  }

  lemma LogOwn(actions: seq<Action>, others: seq<Other>, i: nat, a: Action)
    requires i <= |others| && AllFit(others) && Log(actions, others, i)
    requires a.Test? || a.Lock? || a.Wake?
    ensures Log(actions + [a], others, i)
  {
    ForeignJoin(actions, [a]);
    assert [a][1..] == [] && Foreign(actions) + [] == Foreign(actions);
  }

  lemma {:induction false} LogMore(actions: seq<Action>, others: seq<Other>, i: nat, j: nat, more: seq<Action>)
    requires i <= j <= |others| && AllFit(others) && Log(actions, others, i)
    requires Foreign(more) == AllActionsOf(others[i..j])
    ensures Log(actions + more, others, j)
  {
    hide AllActionsOf;
    ForeignJoin(actions, more);
    UpTo(others, i, j);
  }

  class Sender {
    var sendQueue: seq<Datagram>
    var sending: bool
    var wire: seq<Datagram>             // what `sendto` was given
    var consumer: Consumer              // `send_Thread_`
    var notified: bool                  // `cond_`
    ghost var offered: seq<Datagram>
    ghost var accepted: seq<Datagram>

    ghost function Abstract(): State
      reads this
    {
      State.State(sendQueue, sending, consumer, notified, wire, offered, accepted)
    }

    /** Construction and `init`, lines 9-25. */
    constructor ()
      ensures Abstract() == STARTED
    {
      sendQueue, sending, wire := [], true, [];
      consumer, notified, offered, accepted := AtTest, false, [], [];
    }

    /** Lines 28-39. The packet has to fit the 1500 bytes of a queue entry, which the code does not
        check. */
    method ReceiveRtpPacket(inBuff: seq<byte>, buffSize: nat)
      requires buffSize <= |inBuff| && buffSize <= PACKET_MAX
      modifies this
      ensures Abstract() == Apply(old(Abstract()), Offer(inBuff[..buffSize]))
    {
      offered := offered + [inBuff[..buffSize]];
      if sending == false {
        return;
      }
      if |sendQueue| < QUEUE_MAX {
        sendQueue := sendQueue + [inBuff[..buffSize]];
        accepted := accepted + [inBuff[..buffSize]];
      }
      notified := notified || consumer.Waiting?;
    }

    method Clear()
      modifies this
      ensures Abstract() == Apply(old(Abstract()), Stop)
    {
      sending := false;
    }

    method Elsewhere(other: Other) returns (ghost actions: seq<Action>)
      requires Fits(other)
      modifies this
      ensures Runs(old(Abstract()), actions, Abstract()) && consumer == old(consumer)
      ensures actions == Foreign(actions) == ActionsOf(other)
    {
      actions := ActionsOf(other);
      match other {
        case Offering(b, n) => ReceiveRtpPacket(b, n);
        case Stopping => Clear();
        case Waking =>
      }
      if actions != [] {
        assert actions[1..] == [];
      }
    }

    /** The wait of line 45: `others` go on from position i until one of them notifies, or the thread
        wakes for no reason; not woken means that `others` is used up. */
    method Wait(others: seq<Other>, i: nat) returns (j: nat, woken: bool, spurious: bool, ghost actions: seq<Action>)
      requires i <= |others| && AllFit(others) && consumer.Waiting?
      modifies this
      ensures i <= j <= |others| && consumer.Waiting? && Runs(old(Abstract()), actions, Abstract())
      ensures if woken then i < j && (spurious || notified) else j == |others| && (old(notified) || !notified)
      ensures Foreign(actions) == AllActionsOf(others[i..j])
      ensures !old(notified) ==> Prompt(old(Abstract()), actions)
    {
      hide Runs, ActionsOf, Fits, Prompt;
      j, woken, spurious, actions := i, false, false, [];
      Stay(Abstract());
      while j < |others| && !woken
        invariant i <= j <= |others| && consumer.Waiting? && Runs(old(Abstract()), actions, Abstract())
        invariant woken ==> i < j && (spurious || notified)
        invariant old(notified) || (woken || !notified)
        invariant Foreign(actions) == AllActionsOf(others[i..j])
        invariant !old(notified) ==> Prompt(old(Abstract()), actions)
      {
        ghost var s := Abstract();
        ghost var more := Elsewhere(others[j]);
        RunsJoin(old(Abstract()), actions, s, more, Abstract());
        if !old(notified) {
          OtherPrompt(old(Abstract()), actions, s, others[j]);
        }
        ForeignJoin(actions, more);
        OneMore(others, i, j);
        actions := actions + more;
        spurious := others[j].Waking?;
        woken := spurious || notified;
        j := j + 1;
      }
    }

    /** Lines 41-53, with any actions of the other threads at the moments when the mutex is free: a run
        of the transition system with exactly those actions in it. `finished` means that the thread has
        ended, perhaps before the last of `others`, after `sending_` was cleared; else it is seen on its way
        when they are used up, waiting or about to lock. The thread lets the others act only while it waits
        and once after each test; whenever it can go on it does. */
    method SendLoop(others: seq<Other>) returns (finished: bool, ghost actions: seq<Action>)
      requires AllFit(others) && consumer.AtTest?
      modifies this
      ensures Runs(old(Abstract()), actions, Abstract())
      ensures finished <==> consumer.Exited?
      ensures if finished then !sending else consumer.AtLock? || (consumer.Waiting? && !notified)
      ensures Prompt(old(Abstract()), actions)
      ensures if finished then Foreign(actions) <= AllActionsOf(others) else Foreign(actions) == AllActionsOf(others)
    {
      hide Runs, Story, Prompt, Foreign, AllActionsOf, ActionsOf, Fits;
      var i := 0;
      actions := [];
      NothingYet(Abstract(), others);
      while true
        invariant 0 <= i <= |others| && consumer.AtTest? && Story(old(Abstract()), actions, Abstract(), others, i)
        decreases |others| - i
      {
        StoryOwn(old(Abstract()), actions, Abstract(), others, i, Test);
        actions := actions + [Test];
        consumer := if sending then AtLock else Exited;
        if !sending {
          Ended(old(Abstract()), actions, Abstract(), others, i);
          return true, actions;
        }
        if i == |others| {
          Ended(old(Abstract()), actions, Abstract(), others, i);
          return false, actions;
        }
        ghost var s := Abstract();
        ghost var more := Elsewhere(others[i]);
        StoryOther(old(Abstract()), actions, s, others, i, Abstract());
        actions, i := actions + more, i + 1;
        ghost var step := Lock;
        while |sendQueue| == 0
          invariant 0 <= i <= |others| && Story(old(Abstract()), actions, Abstract(), others, i)
          invariant Enabled(Abstract(), step) && (step.Lock? || (step.Wake? && sending))
          decreases |others| - i
        {
          StoryOwn(old(Abstract()), actions, Abstract(), others, i, step);
          actions := actions + [step];
          consumer, notified := Waiting, false;
          s := Abstract();
          var j, woken, spurious;
          j, woken, spurious, more := Wait(others, i);
          StoryWait(old(Abstract()), actions, s, others, i, j, more, Abstract());
          actions, i := actions + more, j;
          if !woken {
            Ended(old(Abstract()), actions, Abstract(), others, i);
            return false, actions;
          }
          step := Wake(spurious);
          if !sending {
            StoryOwn(old(Abstract()), actions, Abstract(), others, i, step);
            actions := actions + [step];
            consumer, notified := Exited, false;
            Ended(old(Abstract()), actions, Abstract(), others, i);
            return true, actions;
          }
        }
        StoryOwn(old(Abstract()), actions, Abstract(), others, i, step);
        actions := actions + [step];
        wire := wire + [sendQueue[0]];
        sendQueue := sendQueue[1..];
        consumer, notified := AtTest, false;
      }
    }
  }

  /** Another thread acts while the thread waits, or just after its test. */
  lemma {:induction false} OtherPrompt(s: State, actions: seq<Action>, t: State, o: Other)
    requires Fits(o) && Runs(s, actions, t) && Prompt(s, actions)
    requires
      || (t.consumer.Waiting? && !t.notified)
      || (t.consumer.AtLock? && actions != [] && actions[|actions| - 1].Test?)
    ensures Prompt(s, actions + ActionsOf(o))
  {
    hide Runs, Prompt;
    if o.Waking? {
      assert actions + [] == actions;
    } else {
      PromptOn(s, actions, t, ActionsOf(o)[0]);
      assert ActionsOf(o) == [ActionsOf(o)[0]];
    }
  }

  lemma {:induction false} Stay(s: State)
    ensures Runs(s, [], s) && Foreign([]) == [] && Prompt(s, [])
  {
  }

  /** A run of the sending thread among the first i of the others' actions. */
  ghost predicate Story(s: State, actions: seq<Action>, t: State, others: seq<Other>, i: nat)
    requires i <= |others| && AllFit(others)
  {
    Runs(s, actions, t) && Prompt(s, actions) && Log(actions, others, i)
  }

  lemma NothingYet(s: State, others: seq<Other>)
    requires AllFit(others)
    ensures Story(s, [], s, others, 0)
  {
    Stay(s);
  }

  lemma StoryOwn(s: State, actions: seq<Action>, t: State, others: seq<Other>, i: nat, a: Action)
    requires i <= |others| && AllFit(others) && Story(s, actions, t, others, i)
    requires Enabled(t, a) && (a.Test? || a.Lock? || a.Wake?)
    ensures Story(s, actions + [a], Apply(t, a), others, i)
  {
    hide Runs, Prompt, Log, Apply, Enabled;
    RunsOn(s, actions, t, a);
    PromptOn(s, actions, t, a);
    LogOwn(actions, others, i, a);
  }

  /** Just after the test. */
  lemma {:induction false} StoryOther(s: State, actions: seq<Action>, t: State, others: seq<Other>, i: nat, u: State)
    requires i < |others| && AllFit(others) && Story(s, actions, t, others, i)
    requires t.consumer.AtLock? && actions != [] && actions[|actions| - 1].Test?
    requires Runs(t, ActionsOf(others[i]), u) && Foreign(ActionsOf(others[i])) == ActionsOf(others[i])
    ensures Story(s, actions + ActionsOf(others[i]), u, others, i + 1)
  {
    hide Runs, Prompt, Log, ActionsOf;
    RunsJoin(s, actions, t, ActionsOf(others[i]), u);
    OtherPrompt(s, actions, t, others[i]);
    OneOther(others, i);
    LogMore(actions, others, i, i + 1, ActionsOf(others[i]));
  }

  /** During a wait. */
  lemma {:induction false} StoryWait(
    s: State, actions: seq<Action>, t: State, others: seq<Other>, i: nat, j: nat, more: seq<Action>, u: State)
    requires i <= j <= |others| && AllFit(others) && Story(s, actions, t, others, i)
    requires Runs(t, more, u) && Prompt(t, more) && Foreign(more) == AllActionsOf(others[i..j])
    ensures Story(s, actions + more, u, others, j)
  {
    hide Runs, Prompt, Log, AllActionsOf, Foreign;
    RunsJoin(s, actions, t, more, u);
    PromptJoin(s, actions, t, more);
    LogMore(actions, others, i, j, more);
  }

  lemma OneOther(others: seq<Other>, i: nat)
    requires i < |others| && AllFit(others)
    ensures AllActionsOf(others[i..i + 1]) == ActionsOf(others[i])
  {
    OneMore(others, i, i);
    assert [] + ActionsOf(others[i]) == ActionsOf(others[i]);
  }

  lemma {:induction false} Ended(s: State, actions: seq<Action>, t: State, others: seq<Other>, i: nat)
    requires i <= |others| && AllFit(others) && Story(s, actions, t, others, i)
    ensures Runs(s, actions, t) && Prompt(s, actions) && Foreign(actions) <= AllActionsOf(others)
    ensures i == |others| ==> Foreign(actions) == AllActionsOf(others)
  {
    hide Runs, Prompt;
    Used(others, i);
    assert others[..|others|] == others;
  }
}
