/** How much loss the receiver's buffer stands. A frame whose marker is lost stays in the buffer, in front
    of the next one. */
module Losses {
  import opened Bytes
  import opened Fragmenter
  import opened Packager
  import opened Unpackager
  import opened Pipeline
  import S = Sender

  // ---------- What a caller can check before a run ----------

  /** The bytes of a frame in front of its last packet, which carries the marker. */
  function BeforeMarker(data: seq<byte>): nat {
    if data == [] then 0 else FRAGMENT_MAX * ((|data| - 1) / FRAGMENT_MAX)
  }

  /** What frames can leave in the buffer whose markers are lost. */
  function Carried(frames: seq<Source>): nat {
    if frames == [] then 0
    else Carried(frames[..|frames| - 1]) + BeforeMarker(frames[|frames| - 1].data)
  }

  /** Every frame fits the buffer behind what up to n frames before it can leave there. */
  predicate WindowsFit(frames: seq<Source>, n: nat) {
    forall i, j | 0 <= i <= j < |frames| && j - i <= n :: Carried(frames[i..j]) + |frames[j].data| <= BUFFER_SIZE
  }

  // ---------- Loss ----------

  /** Packet q is the last one of frame k, the one with the marker. */
  predicate EndsFrame(frames: seq<Source>, k: nat, q: int) {
    k < |frames| && q + 1 == StartOf(frames, k + 1)
  }

  ghost predicate MarkerIsLost(frames: seq<Source>, mask: seq<bool>, k: nat) {
    forall q | 0 <= q < |mask| && EndsFrame(frames, k, q) :: !mask[q]
  }

  /** The markers of frames i to j - 1 are lost. */
  ghost predicate MarkersLost(frames: seq<Source>, mask: seq<bool>, i: nat, j: nat) {
    j <= |frames| && forall k: nat | i <= k < j :: MarkerIsLost(frames, mask, k)
  }

  /** Some packet of frame j arrives. */
  ghost predicate SomeArrives(frames: seq<Source>, mask: seq<bool>, j: nat) {
    j < |frames| && exists q | StartOf(frames, j) <= q < StartOf(frames, j + 1) && q < |mask| :: mask[q]
  }

  /** No more than n markers in a row are lost before a frame of which something arrives. */
  ghost predicate InARow(frames: seq<Source>, mask: seq<bool>, n: nat) {
    forall i: nat, j: nat | i <= j && MarkersLost(frames, mask, i, j) && SomeArrives(frames, mask, j) :: j - i <= n
  }

  /** The receiver gets what a loss leaves of a run without overrunning its buffer. */
  ghost predicate Survives(frames: seq<Source>, mask: seq<bool>)
    requires |mask| == |AllPackets(frames, 0)|
  {
    var b := WrapAll(Keep(AllPackets(frames, 0), mask));
    (forall k | 0 <= k < |b| :: Readable(b[k])) && ReceiveAll(FRESH, b).Received?
  }

  lemma {:induction false} SurvivesIfSuffices(frames: seq<Source>, mask: seq<bool>)
    requires |mask| == |AllPackets(frames, 0)|
    ensures Survives(frames, mask) <==> Suffices(FRESH, Keep(AllPackets(frames, 0), mask))
  {
    hide Readable, WrapAll, ReceiveAll, Suffices, Keep, AllPackets;
    WrappedReceived(FRESH, Keep(AllPackets(frames, 0), mask));
  }

  // ---------- Volumes ----------

  function Volume(p: seq<Packet>): nat {
    if p == [] then 0 else |p[0].payload| + Volume(p[1..])
  }

  lemma {:induction false} VolumeSuffices(s: State, p: seq<Packet>)
    ensures |Feed(s, p).pending| <= |s.pending| + Volume(p)
    ensures |s.pending| + Volume(p) <= BUFFER_SIZE ==> Suffices(s, p)
    ensures (forall k | 0 <= k < |p| :: !p[k].last) ==> |Feed(s, p).pending| == |s.pending| + Volume(p)
    decreases |p|
  {
    hide Quotient;
    if p != [] {
      VolumeSuffices(AcceptPacket(s, p[0]), p[1..]);
    }
  }

  lemma {:induction false} VolumeKept(p: seq<Packet>, mask: seq<bool>)
    requires |mask| == |p|
    ensures Volume(Keep(p, mask)) <= Volume(p)
    decreases |p|
  {
    if p != [] {
      VolumeKept(p[1..], mask[1..]);
      if mask[0] {
        assert ([p[0]] + Keep(p[1..], mask[1..]))[1..] == Keep(p[1..], mask[1..]);
      } else {
        assert [] + Keep(p[1..], mask[1..]) == Keep(p[1..], mask[1..]);
      }
    }
  }

  lemma {:induction false} VolumeOfFrame(data: seq<byte>, timestamp: uint32, n: nat)
    requires data != []
    ensures
      var p := PacketsOf(data, timestamp, n);
      p != [] && Volume(p) == |data| && Volume(p[..|p| - 1]) == BeforeMarker(data)
    decreases |data|
  {
    var p := PacketsOf(data, timestamp, n);
    if |data| <= FRAGMENT_MAX {
      assert p[1..] == [];
    } else {
      var tail := data[FRAGMENT_MAX..];
      var q := PacketsOf(tail, timestamp, n + 1);
      VolumeOfFrame(tail, timestamp, n + 1);
      assert p[1..] == q && p[..|p| - 1][1..] == q[..|q| - 1];
    }
  }

  // ---------- One frame behind what is pending ----------

  /** What frame j adds to what is pending, with its marker lost. */
  lemma {:induction false} MarkerLost(s: State, data: seq<byte>, timestamp: uint32, n: nat, mask: seq<bool>)
    requires data != [] && |mask| == |PacketsOf(data, timestamp, n)| && mask != [] && !mask[|mask| - 1]
    ensures
      var p := Keep(PacketsOf(data, timestamp, n), mask);
      && |Feed(s, p).pending| <= |s.pending| + BeforeMarker(data)
      && ((forall k | 0 <= k < |mask| - 1 :: mask[k]) ==> |Feed(s, p).pending| == |s.pending| + BeforeMarker(data))
  {
    hide Keep, Feed, Volume, PacketsOf, BeforeMarker;
    var p := PacketsOf(data, timestamp, n);
    var m := |p| - 1;
    LastLost(p, mask);
    VolumeOfFrame(data, timestamp, n);
    VolumeKept(p[..m], mask[..m]);
    VolumeSuffices(s, Keep(p[..m], mask[..m]));
    if forall k | 0 <= k < m :: mask[k] {
      KeepAll(p[..m], mask[..m]);
      PacketNumbers(data, timestamp, n);
    }
  }

  lemma {:induction false} SomeSuffice(s: State, data: seq<byte>, timestamp: uint32, n: nat, mask: seq<bool>)
    requires data != [] && |mask| == |PacketsOf(data, timestamp, n)|
    requires |s.pending| + |data| <= BUFFER_SIZE || forall k | 0 <= k < |mask| :: !mask[k]
    ensures Suffices(s, Keep(PacketsOf(data, timestamp, n), mask))
  {
    hide Keep, Feed, Volume, PacketsOf;
    var p := PacketsOf(data, timestamp, n);
    if forall k | 0 <= k < |mask| :: !mask[k] {
      NothingKept(p, mask);
    } else {
      VolumeOfFrame(data, timestamp, n);
      VolumeKept(p, mask);
      VolumeSuffices(s, Keep(p, mask));
    }
  }

  // ---------- The windows suffice ----------

  lemma CarriedOn(frames: seq<Source>, i: nat, j: nat)
    requires i <= j < |frames|
    ensures Carried(frames[i..j + 1]) == Carried(frames[i..j]) + BeforeMarker(frames[j].data)
  {
    hide BeforeMarker;
    assert frames[i..j + 1][..j - i] == frames[i..j];
  }

  lemma {:induction false} FitsSoFar(frames: seq<Source>, mask: seq<bool>, n: nat, j: nat) returns (i: nat)
    requires NonEmpty(frames) && |mask| == |AllPackets(frames, 0)| && j <= |frames|
    requires WindowsFit(frames, n) && InARow(frames, mask, n)
    ensures i <= j && MarkersLost(frames, mask, i, j) && StartOf(frames, j) <= |mask|
    ensures Suffices(FRESH, SoFar(frames, mask, j))
    ensures |Feed(FRESH, SoFar(frames, mask, j)).pending| <= Carried(frames[i..j])
    decreases j
  {
    hide Ts, PacketsOf, Keep, AllPackets, Feed, Suffices, Carried, BeforeMarker, InARow, WindowsFit, SomeArrives;
    if j == 0 {
      i := 0;
      NothingSoFar(frames, mask);
    } else {
      var h := FitsSoFar(frames, mask, n, j - 1);
      SoFarOn(frames, mask, j - 1);
      var f, m, k := frames[j - 1], StartOf(frames, j - 1), StartOf(frames, j);
      var s, own, om := Feed(FRESH, SoFar(frames, mask, j - 1)), PacketsOf(f.data, Ts(f), m), mask[m..k];
      WindowOf(frames, mask, n, h, j - 1);
      SomeSuffice(s, f.data, Ts(f), m, om);
      SufficesJoin(FRESH, SoFar(frames, mask, j - 1), Keep(own, om));
      FeedJoin(FRESH, SoFar(frames, mask, j - 1), Keep(own, om));
      PacketNumbers(f.data, Ts(f), m);
      if om[|om| - 1] {
        i := j;
        MarkerFlushes(s, own, om);
      } else {
        i := h;
        MarkerLost(s, f.data, Ts(f), m, om);
        CarriedOn(frames, h, j - 1);
      }
    }
  }

  lemma NothingSoFar(frames: seq<Source>, mask: seq<bool>)
    ensures StartOf(frames, 0) == 0 && SoFar(frames, mask, 0) == []
    ensures Suffices(FRESH, []) && Feed(FRESH, []).pending == [] && Carried(frames[0..0]) == 0
  {
    assert frames[..0] == [];
  }

  /** At frame j either the window of the lost markers before it bounds what is pending, or nothing of it
      arrives. */
  lemma WindowOf(frames: seq<Source>, mask: seq<bool>, n: nat, i: nat, j: nat)
    requires i <= j < |frames| && |mask| == |AllPackets(frames, 0)| && MarkersLost(frames, mask, i, j)
    requires WindowsFit(frames, n) && InARow(frames, mask, n)
    requires StartOf(frames, j) <= StartOf(frames, j + 1) <= |mask|
    ensures
      var om := mask[StartOf(frames, j)..StartOf(frames, j + 1)];
      || Carried(frames[i..j]) + |frames[j].data| <= BUFFER_SIZE
      || forall k | 0 <= k < |om| :: !om[k]
  {
    hide AllPackets, Carried, StartOf;
    var m, k := StartOf(frames, j), StartOf(frames, j + 1);
    if !SomeArrives(frames, mask, j) {
      forall q | 0 <= q < k - m ensures !mask[m..k][q] {
        assert !mask[m + q];
      }
    }
  }

  // ---------- The windows are needed ----------

  lemma {:induction false} StartsGrow(frames: seq<Source>, a: nat, b: nat)
    requires NonEmpty(frames) && a <= b <= |frames|
    ensures StartOf(frames, a) <= StartOf(frames, b) <= |AllPackets(frames, 0)|
    ensures a < b ==> StartOf(frames, a) < StartOf(frames, b)
    decreases b
  {
    hide Ts, PacketsOf, AllPackets;
    if a < b {
      StartsGrow(frames, a, b - 1);
      SplitAt(frames, b - 1);
      PacketNumbers(frames[b - 1].data, Ts(frames[b - 1]), StartOf(frames, b - 1));
    } else {
      PrefixOfAll(frames, b);
    }
  }

  /** The packet is the last one of one of the frames i to j - 1. */
  ghost predicate EndsOne(frames: seq<Source>, i: nat, j: nat, q: nat) {
    exists k: nat | i <= k < j :: EndsFrame(frames, k, q)
  }

  /** The loss of just the markers of frames i to j - 1. */
  ghost function WithoutMarkers(frames: seq<Source>, i: nat, j: nat): (mask: seq<bool>)
    ensures |mask| == |AllPackets(frames, 0)|
  {
    seq(|AllPackets(frames, 0)|, q requires 0 <= q => !EndsOne(frames, i, j, q))
  }

  /** A packet of frame k is lost exactly if it is the last one, and k is one of the frames. */
  lemma {:induction false} LostOfFrame(frames: seq<Source>, i: nat, j: nat, k: nat, q: nat)
    requires NonEmpty(frames) && k < |frames| && StartOf(frames, k) <= q < StartOf(frames, k + 1)
    ensures q < |AllPackets(frames, 0)|
    ensures WithoutMarkers(frames, i, j)[q] <==> !(i <= k < j && q + 1 == StartOf(frames, k + 1))
  {
    hide AllPackets, StartOf;
    StartsGrow(frames, k + 1, |frames|);
    assert q + 1 == StartOf(frames, k + 1) ==> EndsFrame(frames, k, q);
    if EndsOne(frames, i, j, q) {
      var h: nat :| i <= h < j && EndsFrame(frames, h, q);
      if h < k {
        StartsGrow(frames, h + 1, k);
      } else if h > k {
        StartsGrow(frames, k + 1, h + 1);
      }
    }
  }

  lemma FewInARow(frames: seq<Source>, i: nat, j: nat)
    requires NonEmpty(frames) && i <= j <= |frames|
    ensures InARow(frames, WithoutMarkers(frames, i, j), j - i)
  {
    hide AllPackets, StartOf, WithoutMarkers, EndsOne;
    var mask := WithoutMarkers(frames, i, j);
    forall a: nat, b: nat | a <= b && MarkersLost(frames, mask, a, b) && SomeArrives(frames, mask, b)
      ensures b - a <= j - i
    {
      if a < b {
        OneOfThem(frames, i, j, a);
        OneOfThem(frames, i, j, b - 1);
      }
    }
  }

  lemma OneOfThem(frames: seq<Source>, i: nat, j: nat, k: nat)
    requires NonEmpty(frames) && k < |frames| && MarkerIsLost(frames, WithoutMarkers(frames, i, j), k)
    ensures i <= k < j
  {
    hide AllPackets, StartOf, WithoutMarkers;
    StartsGrow(frames, k, k + 1);
    LostOfFrame(frames, i, j, k, StartOf(frames, k + 1) - 1);
    assert EndsFrame(frames, k, StartOf(frames, k + 1) - 1);
  }

  /** Behind a marker that arrives, all bytes up to the lost markers pile up. */
  lemma {:induction false} PilesUp(frames: seq<Source>, i: nat, j: nat, k: nat)
    requires NonEmpty(frames) && i <= k <= j < |frames|
    ensures
      var mask := WithoutMarkers(frames, i, j);
      && StartOf(frames, k) <= |mask|
      && |Feed(FRESH, SoFar(frames, mask, k)).pending| == Carried(frames[i..k])
    decreases k
  {
    hide Ts, PacketsOf, Keep, AllPackets, Feed, Carried, BeforeMarker, WithoutMarkers;
    var mask := WithoutMarkers(frames, i, j);
    StartsGrow(frames, k, |frames|);
    if k == i {
      if i > 0 {
        StartsGrow(frames, i - 1, i);
        LostOfFrame(frames, i, j, i - 1, StartOf(frames, i) - 1);
      }
      NothingPending(frames, i, mask);
      NothingCarried(frames, i);
    } else {
      PilesUp(frames, i, j, k - 1);
      SoFarOn(frames, mask, k - 1);
      var f, m, e := frames[k - 1], StartOf(frames, k - 1), StartOf(frames, k);
      var own := PacketsOf(f.data, Ts(f), m);
      forall q | m <= q < e ensures mask[q] <==> q + 1 != e {
        LostOfFrame(frames, i, j, k - 1, q);
      }
      PacketNumbers(f.data, Ts(f), m);
      FeedJoin(FRESH, SoFar(frames, mask, k - 1), Keep(own, mask[m..e]));
      MarkerLost(Feed(FRESH, SoFar(frames, mask, k - 1)), f.data, Ts(f), m, mask[m..e]);
      CarriedOn(frames, i, k - 1);
    }
  }

  lemma NothingCarried(frames: seq<Source>, i: nat)
    requires i <= |frames|
    ensures Carried(frames[i..i]) == 0
  {
  }

  /** The last of the frames then needs the whole window. */
  lemma WindowNeeded(frames: seq<Source>, i: nat, j: nat)
    requires NonEmpty(frames) && i <= j < |frames| && Survives(frames, WithoutMarkers(frames, i, j))
    ensures Carried(frames[i..j]) + |frames[j].data| <= BUFFER_SIZE
  {
    hide Ts, PacketsOf, Keep, AllPackets, Feed, Carried, WithoutMarkers, Suffices, Survives;
    var mask := WithoutMarkers(frames, i, j);
    SurvivesIfSuffices(frames, mask);
    PilesUp(frames, i, j, j);
    SoFarOn(frames, mask, j);
    var f, m, e := frames[j], StartOf(frames, j), StartOf(frames, j + 1);
    var own, rest := PacketsOf(f.data, Ts(f), m), Keep(AllPackets(frames, 0)[e..], mask[e..]);
    forall q | m <= q < e ensures mask[q] {
      LostOfFrame(frames, i, j, j, q);
    }
    KeepAll(own, mask[m..e]);
    var s := Feed(FRESH, SoFar(frames, mask, j));
    SufficesJoin(FRESH, SoFar(frames, mask, j), own + rest);
    SufficesJoin(s, own, rest);
    FrameFits(s, f.data, Ts(f), m);
  }

  // ---------- The exact bound ----------

  /** The receiver's buffer stands every loss with no more than n markers lost in a row exactly if every
      frame fits behind what up to n frames before it can leave there. */
  lemma {:induction false} LossFitsExactly(frames: seq<Source>, n: nat)
    requires NonEmpty(frames)
    ensures
      (forall mask | |mask| == |AllPackets(frames, 0)| && InARow(frames, mask, n) :: Survives(frames, mask))
      <==> WindowsFit(frames, n)
  {
    hide AllPackets, InARow, Survives, Carried, WithoutMarkers;
    if WindowsFit(frames, n) {
      forall mask | |mask| == |AllPackets(frames, 0)| && InARow(frames, mask, n) ensures Survives(frames, mask) {
        LossFits(frames, mask, n);
      }
    }
    if forall mask | |mask| == |AllPackets(frames, 0)| && InARow(frames, mask, n) :: Survives(frames, mask) {
      forall i, j | 0 <= i <= j < |frames| && j - i <= n
        ensures Carried(frames[i..j]) + |frames[j].data| <= BUFFER_SIZE
      {
        FewInARow(frames, i, j);
        MoreInARow(frames, WithoutMarkers(frames, i, j), j - i, n);
        WindowNeeded(frames, i, j);
      }
    }
  }

  lemma MoreInARow(frames: seq<Source>, mask: seq<bool>, m: nat, n: nat)
    requires InARow(frames, mask, m) && m <= n
    ensures InARow(frames, mask, n)
  {
  }

  lemma {:induction false} LossFits(frames: seq<Source>, mask: seq<bool>, n: nat)
    requires NonEmpty(frames) && |mask| == |AllPackets(frames, 0)|
    requires WindowsFit(frames, n) && InARow(frames, mask, n)
    ensures Survives(frames, mask)
  {
    hide AllPackets, InARow, Survives, Keep, Suffices, WindowsFit;
    var i := FitsSoFar(frames, mask, n, |frames|);
    assert frames[..|frames|] == frames;
    assert mask[..|mask|] == mask;
    SurvivesIfSuffices(frames, mask);
  }

  lemma AlwaysInARow(frames: seq<Source>, mask: seq<bool>)
    ensures InARow(frames, mask, |frames|)
  {
  }

  /** So it stands every loss at all exactly if the windows of all lengths fit. */
  lemma {:induction false} AnyLossFitsExactly(frames: seq<Source>)
    requires NonEmpty(frames)
    ensures
      (forall mask | |mask| == |AllPackets(frames, 0)| :: Survives(frames, mask)) <==> WindowsFit(frames, |frames|)
  {
    hide AllPackets, InARow, Survives, WindowsFit;
    forall mask: seq<bool> ensures InARow(frames, mask, |frames|) {
      AlwaysInARow(frames, mask);
    }
    LossFitsExactly(frames, |frames|);
  }

  /** With the sender in between: whatever it drops, the receiver gets all that was sent if no more
      markers in a row are dropped than the windows stand. */
  lemma {:induction false} SentFits(frames: seq<Source>, actions: seq<S.Action>, t: S.State, n: nat)
    requires NonEmpty(frames) && S.Runs(S.STARTED, actions, t)
    requires S.Offers(actions) <= WrapAll(AllPackets(frames, 0)) && WindowsFit(frames, n)
    requires n >= |frames| || InARow(frames, S.Through(frames, actions, t), n)
    ensures forall k | 0 <= k < |t.sent| :: Readable(t.sent[k])
    ensures ReceiveAll(FRESH, t.sent) == Received(FeedBytes(FRESH, t.sent))
  {
    hide AllPackets, InARow, Readable, WrapAll, ReceiveAll, FeedBytes, StretchesFit, Keep, WindowsFit;
    hide S.Runs, S.Offers, S.Through;
    var mask := S.Through(frames, actions, t);
    if n >= |frames| {
      AlwaysInARow(frames, mask);
      MoreInARow(frames, mask, |frames|, n);
    }
    S.SentIsThrough(frames, actions, t);
    LossFits(frames, mask, n);
    ReceivedExactly(FRESH, t.sent);
  }
}
