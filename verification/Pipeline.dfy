/** `Packager` and `Unpackager` back to back, over a channel that keeps order but may lose packets. */
module Pipeline {
  import opened Bytes
  import opened RtpHeaders
  import opened Fragmenter
  import opened Packager
  import opened Unpackager

  /** A frame as the packager gets it: its bytes, its dts, and the clock when it arrives. */
  datatype Source = Source(data: seq<byte>, dts: int, millis: nat)

  function Ts(f: Source): uint32 {
    TimestampOf(f.dts, f.millis)
  }

  /** The frame's media time in milliseconds. */
  function TimeOf(f: Source): int {
    MediaTime(f.dts, f.millis)
  }

  /** Everything a packager sends for a sequence of frames, numbered from `n`. */
  function AllPackets(frames: seq<Source>, n: nat): seq<Packet>
    decreases |frames|
  {
    if frames == [] then []
    else
      var p := PacketsOf(frames[0].data, Ts(frames[0]), n);
      p + AllPackets(frames[1..], n + |p|)
  }

  function AcceptPacket(s: State, p: Packet): State {
    Accept(s, p.payload, p.last, p.timestamp)
  }

  function Feed(s: State, p: seq<Packet>): State
    decreases |p|
  {
    if p == [] then s else Feed(AcceptPacket(s, p[0]), p[1..])
  }

  /** The receiver fed with raw packets. */
  function FeedBytes(s: State, b: seq<seq<byte>>): State
    requires forall k | 0 <= k < |b| :: Readable(b[k])
    decreases |b|
  {
    if b == [] then s else FeedBytes(Receive(s, b[0]), b[1..])
  }

  /** The receiver with its buffer fed with raw packets. */
  function ReceiveAll(s: State, b: seq<seq<byte>>): Reception
    requires forall k | 0 <= k < |b| :: Readable(b[k])
    decreases |b|
  {
    if b == [] then Received(s)
    else if !HasRoom(s, Payload(b[0])) then Overrun
    else ReceiveAll(Receive(s, b[0]), b[1..])
  }

  // ---------- From bytes to packets ----------

  lemma ReceiveWrapped(s: State, p: Packet)
    ensures Readable(Wrap(p)) && Receive(s, Wrap(p)) == AcceptPacket(s, p)
  {
    hide Wrap, View, HeaderLength, Swap16, Swap32, Accept;
    WrapFields(p);
  }

  lemma {:induction false} FeedWrapped(s: State, p: seq<Packet>)
    ensures forall k | 0 <= k < |p| :: Readable(Wrap(p[k]))
    ensures (forall k | 0 <= k < |p| :: Readable(WrapAll(p)[k])) && FeedBytes(s, WrapAll(p)) == Feed(s, p)
    decreases |p|
  {
    hide Wrap, Readable, AcceptPacket, Receive;
    if p != [] {
      ReceiveWrapped(s, p[0]);
      FeedWrapped(AcceptPacket(s, p[0]), p[1..]);
      forall k | 0 <= k < |p| ensures Readable(Wrap(p[k])) {
        ReceiveWrapped(s, p[k]);
      }
      assert WrapAll(p)[1..] == WrapAll(p[1..]);
    }
  }

  lemma {:induction false} FeedJoin(s: State, a: seq<Packet>, b: seq<Packet>)
    ensures Feed(s, a + b) == Feed(Feed(s, a), b)
    decreases |a|
  {
    hide AcceptPacket;
    if a == [] {
      assert a + b == b;
    } else {
      FeedJoin(AcceptPacket(s, a[0]), a[1..], b);
      assert (a + b)[1..] == a[1..] + b;
    }
  }

  // ---------- One frame ----------

  /** All packets of a frame together act like one marked packet with all its bytes. */
  lemma {:induction false} FrameFed(s: State, data: seq<byte>, timestamp: uint32, n: nat)
    requires data != []
    ensures Feed(s, PacketsOf(data, timestamp, n)) == Accept(s, data, true, timestamp)
    decreases |data|
  {
    var p := PacketsOf(data, timestamp, n);
    if |data| <= FRAGMENT_MAX {
      assert p[1..] == [];
    } else {
      var head, tail := data[..FRAGMENT_MAX], data[FRAGMENT_MAX..];
      assert p[1..] == PacketsOf(tail, timestamp, n + 1);
      FrameFed(AcceptPacket(s, p[0]), tail, timestamp, n + 1);
      assert s.pending + head + tail == s.pending + data;
    }
  }

  // ---------- Whole runs without loss ----------

  /** What the sink should get for the frames, `first` being the first media time received. */
  function Emitted(first: int, frames: seq<Source>): seq<Frame>
    decreases |frames|
  {
    if frames == [] then []
    else
      var t := Ts(frames[0]);
      var f := if first == -1 then t else first;
      [Frame(frames[0].data, Quotient(t - f, 90))] + Emitted(f, frames[1..])
  }

  predicate NonEmpty(frames: seq<Source>) {
    forall k | 0 <= k < |frames| :: frames[k].data != []
  }

  lemma AcceptFrame(s: State, data: seq<byte>, t: uint32)
    requires s.pending == []
    ensures
      var first := if s.first == -1 then t else s.first;
      Accept(s, data, true, t) == State([], first, s.frames + [Frame(data, Quotient(t - first, 90))])
  {
    assert s.pending + data == data;
  }

  lemma {:induction false} AllFed(s: State, frames: seq<Source>, n: nat)
    requires NonEmpty(frames) && s.pending == []
    ensures
      var r := Feed(s, AllPackets(frames, n));
      r.pending == [] && r.frames == s.frames + Emitted(s.first, frames)
    decreases |frames|
  {
    hide Ts, Quotient, Accept, PacketsOf, AcceptPacket;
    if frames != [] {
      var f := frames[0];
      var p := PacketsOf(f.data, Ts(f), n);
      FeedJoin(s, p, AllPackets(frames[1..], n + |p|));
      FrameFed(s, f.data, Ts(f), n);
      AcceptFrame(s, f.data, Ts(f));
      var next := Accept(s, f.data, true, Ts(f));
      AllFed(next, frames[1..], n + |p|);
      assert next.frames + Emitted(next.first, frames[1..]) == s.frames + Emitted(s.first, frames);
    }
  }

  lemma {:induction false} EmittedAt(first: int, frames: seq<Source>, i: nat)
    requires i < |frames|
    ensures |Emitted(first, frames)| == |frames|
    ensures
      var f := if first == -1 then Ts(frames[0]) else first;
      Emitted(first, frames)[i] == Frame(frames[i].data, Quotient(Ts(frames[i]) - f, 90))
    decreases |frames|
  {
    hide Ts, Quotient;
    if i > 0 {
      EmittedAt(if first == -1 then Ts(frames[0]) else first, frames[1..], i - 1);
    } else if |frames| > 1 {
      EmittedAt(if first == -1 then Ts(frames[0]) else first, frames[1..], 0);
    }
  }

  // ---------- The receiver's buffer ----------

  function Payloads(b: seq<seq<byte>>): seq<byte>
    requires forall k | 0 <= k < |b| :: Readable(b[k])
    decreases |b|
  {
    if b == [] then [] else Payload(b[0]) + Payloads(b[1..])
  }

  /** Packets i to j - 1 start at the first one or after a marker, and none before the last is marked. */
  predicate Stretch(b: seq<seq<byte>>, i: nat, j: nat)
    requires forall k | 0 <= k < |b| :: Readable(b[k])
  {
    && i < j <= |b| && (i == 0 || Marked(b[i - 1]))
    && forall k | i <= k < j - 1 :: !Marked(b[k])
  }

  /** The bytes received between two markers, or since the start or the last marker, fit the buffer,
      those included that were pending at the start. */
  ghost predicate StretchesFit(s: State, b: seq<seq<byte>>)
    requires forall k | 0 <= k < |b| :: Readable(b[k])
  {
    forall i: nat, j: nat | Stretch(b, i, j) :: (if i == 0 then |s.pending| else 0) + |Payloads(b[i..j])| <= BUFFER_SIZE
  }

  /** The buffer suffices for a run of packets exactly if all its stretches fit; then the run ends as it
      would with a buffer without end. */
  lemma {:induction false} ReceivedExactly(s: State, b: seq<seq<byte>>)
    requires forall k | 0 <= k < |b| :: Readable(b[k])
    ensures ReceiveAll(s, b) == if StretchesFit(s, b) then Received(FeedBytes(s, b)) else Overrun
    decreases |b|
  {
    hide Readable, Payload, Marked, Timestamp, Payloads;
    if b != [] {
      var t := Receive(s, b[0]);
      ReceivedExactly(t, b[1..]);
      if StretchesFit(s, b) {
        FirstFits(s, b);
        RestFits(s, b);
      } else if HasRoom(s, Payload(b[0])) && StretchesFit(t, b[1..]) {
        WholeFits(s, b);
      }
    }
  }

  lemma OnePayload(b: seq<seq<byte>>)
    requires b != [] && forall k | 0 <= k < |b| :: Readable(b[k])
    ensures Payloads(b[0..1]) == Payload(b[0])
  {
    hide Readable, Payload;
    assert b[0..1][1..] == [] && Payload(b[0]) + [] == Payload(b[0]);
  }

  lemma FirstFits(s: State, b: seq<seq<byte>>)
    requires b != [] && (forall k | 0 <= k < |b| :: Readable(b[k])) && StretchesFit(s, b)
    ensures HasRoom(s, Payload(b[0]))
  {
    hide Readable, Payload, Marked, Payloads;
    assert Stretch(b, 0, 1);
    OnePayload(b);
  }

  /** A stretch that goes on with the second packet, together with the first. */
  lemma FirstAndRest(b: seq<seq<byte>>, j: nat)
    requires 0 < j <= |b| && forall k | 0 <= k < |b| :: Readable(b[k])
    ensures Payloads(b[0..j]) == Payload(b[0]) + Payloads(b[1..][0..j - 1])
  {
    hide Readable, Payload;
    assert b[0..j][1..] == b[1..][0..j - 1];
  }

  lemma RestFits(s: State, b: seq<seq<byte>>)
    requires b != [] && (forall k | 0 <= k < |b| :: Readable(b[k])) && StretchesFit(s, b)
    ensures StretchesFit(Receive(s, b[0]), b[1..])
  {
    hide Readable, Payload, Marked, Timestamp, Payloads;
    var t, c := Receive(s, b[0]), b[1..];
    forall i: nat, j: nat | Stretch(c, i, j)
      ensures (if i == 0 then |t.pending| else 0) + |Payloads(c[i..j])| <= BUFFER_SIZE
    {
      if i == 0 && !Marked(b[0]) {
        assert Stretch(b, 0, j + 1);
        FirstAndRest(b, j + 1);
      } else {
        assert Stretch(b, i + 1, j + 1) && c[i..j] == b[i + 1..j + 1];
      }
    }
  }

  lemma WholeFits(s: State, b: seq<seq<byte>>)
    requires b != [] && (forall k | 0 <= k < |b| :: Readable(b[k])) && HasRoom(s, Payload(b[0]))
    requires StretchesFit(Receive(s, b[0]), b[1..])
    ensures StretchesFit(s, b)
  {
    hide Readable, Payload, Marked, Timestamp, Payloads;
    var t, c := Receive(s, b[0]), b[1..];
    forall i: nat, j: nat | Stretch(b, i, j)
      ensures (if i == 0 then |s.pending| else 0) + |Payloads(b[i..j])| <= BUFFER_SIZE
    {
      if i > 0 {
        assert Stretch(c, i - 1, j - 1) && c[i - 1..j - 1] == b[i..j];
      } else if j == 1 {
        OnePayload(b);
      } else {
        assert Stretch(c, 0, j - 1);
        FirstAndRest(b, j);
      }
    }
  }

  /** The buffer suffices at every packet. */
  predicate Suffices(s: State, p: seq<Packet>)
    decreases |p|
  {
    p == [] || (HasRoom(s, p[0].payload) && Suffices(AcceptPacket(s, p[0]), p[1..]))
  }

  lemma PayloadWrapped(p: Packet)
    ensures Readable(Wrap(p)) && Payload(Wrap(p)) == p.payload
  {
    hide Wrap, View, HeaderLength, Swap16, Swap32;
    WrapFields(p);
  }

  lemma {:induction false} ReceivedIfSuffices(s: State, p: seq<Packet>)
    requires forall k | 0 <= k < |p| :: Readable(WrapAll(p)[k])
    ensures ReceiveAll(s, WrapAll(p)) == if Suffices(s, p) then Received(Feed(s, p)) else Overrun
    decreases |p|
  {
    hide Wrap, Readable, Payload, AcceptPacket, Receive;
    if p != [] {
      PayloadWrapped(p[0]);
      ReceiveWrapped(s, p[0]);
      assert WrapAll(p)[1..] == WrapAll(p[1..]);
      ReceivedIfSuffices(AcceptPacket(s, p[0]), p[1..]);
    }
  }

  /** The same for packets of the packager. */
  lemma {:induction false} WrappedReceived(s: State, p: seq<Packet>)
    ensures forall k | 0 <= k < |p| :: Readable(WrapAll(p)[k])
    ensures ReceiveAll(s, WrapAll(p)) == if Suffices(s, p) then Received(Feed(s, p)) else Overrun
    ensures StretchesFit(s, WrapAll(p)) <==> Suffices(s, p)
  {
    hide Readable, WrapAll, Suffices, StretchesFit;
    FeedWrapped(s, p);
    ReceivedIfSuffices(s, p);
    ReceivedExactly(s, WrapAll(p));
  }

  lemma {:induction false} SufficesJoin(s: State, a: seq<Packet>, b: seq<Packet>)
    ensures Suffices(s, a + b) <==> Suffices(s, a) && Suffices(Feed(s, a), b)
    decreases |a|
  {
    hide AcceptPacket;
    if a == [] {
      assert a + b == b;
    } else {
      SufficesJoin(AcceptPacket(s, a[0]), a[1..], b);
      assert (a + b)[1..] == a[1..] + b;
    }
  }

  /** The packets of a frame fit exactly if its bytes do, behind those that are pending. */
  lemma {:induction false} FrameFits(s: State, data: seq<byte>, timestamp: uint32, n: nat)
    requires data != []
    ensures Suffices(s, PacketsOf(data, timestamp, n)) <==> |s.pending| + |data| <= BUFFER_SIZE
    decreases |data|
  {
    var p := PacketsOf(data, timestamp, n);
    if |data| <= FRAGMENT_MAX {
      assert p[1..] == [];
    } else {
      var tail := data[FRAGMENT_MAX..];
      assert p[1..] == PacketsOf(tail, timestamp, n + 1);
      FrameFits(AcceptPacket(s, p[0]), tail, timestamp, n + 1);
    }
  }

  predicate FramesFit(frames: seq<Source>) {
    forall k | 0 <= k < |frames| :: |frames[k].data| <= BUFFER_SIZE
  }

  /** Without loss the buffer suffices exactly if it does for every frame by itself. */
  lemma {:induction false} RunFits(s: State, frames: seq<Source>, n: nat)
    requires NonEmpty(frames) && s.pending == []
    ensures Suffices(s, AllPackets(frames, n)) <==> FramesFit(frames)
    decreases |frames|
  {
    hide Ts, Quotient, PacketsOf, AcceptPacket, Suffices;
    if frames == [] {
      NothingFits(s);
    } else {
      var f := frames[0];
      var p := PacketsOf(f.data, Ts(f), n);
      SufficesJoin(s, p, AllPackets(frames[1..], n + |p|));
      FrameFits(s, f.data, Ts(f), n);
      FrameFed(s, f.data, Ts(f), n);
      RunFits(Feed(s, p), frames[1..], n + |p|);
      FirstOfAll(frames);
    }
  }

  lemma {:induction false} NothingFits(s: State)
    ensures Suffices(s, [])
  {
  }

  lemma FirstOfAll(frames: seq<Source>)
    requires frames != []
    ensures FramesFit(frames) <==> |frames[0].data| <= BUFFER_SIZE && FramesFit(frames[1..])
  {
    if FramesFit(frames[1..]) {
      assert forall k | 1 <= k < |frames| :: frames[k] == frames[1..][k - 1];
    }
  }

  // ---------- The media clock ----------

  /** How often the 32-bit 90 kHz clock has wrapped at a media time in milliseconds. */
  function Epoch(t: int): int {
    90 * t / 0x1_0000_0000
  }

  lemma QuotientExact(k: int)
    ensures Quotient(90 * k, 90) == k
  {
  }

  lemma QuotientApart(k: int, d: int)
    requires d >= 90 || d <= -90
    ensures Quotient(90 * k + d, 90) != k
  {
  }

  /** Stamps that are no multiple of 90 apart, as other senders may give them, are cut to the whole
      millisecond towards zero. */
  lemma CutTowardsZero(a: int)
    ensures
      var q := Quotient(a, 90);
      if a >= 0 then 90 * q <= a < 90 * q + 90 else 90 * q - 90 < a <= 90 * q
  {
  }

  /** The receiver recovers the distance of two frames in time exactly if the sender's 32-bit clock
      had wrapped equally often at both. */
  lemma MediaClock(t: int, t0: int)
    ensures Quotient(90 * t % 0x1_0000_0000 - 90 * t0 % 0x1_0000_0000, 90) == t - t0 <==> Epoch(t) == Epoch(t0)
  {
    var a, b := 90 * t % 0x1_0000_0000, 90 * t0 % 0x1_0000_0000;
    var wraps := Epoch(t0) - Epoch(t);
    assert a - b == 90 * (t - t0) + 0x1_0000_0000 * wraps;
    if wraps == 0 {
      QuotientExact(t - t0);
    } else {
      QuotientApart(t - t0, 0x1_0000_0000 * wraps);
    }
  }

  /** Round trip: every sequence of non-empty frames, sent by a fresh packager and received by a fresh
      unpackager, comes out as the same frames in the same order, each stamped with its time since
      the first frame, provided (and for the stamp only if) the 32-bit clock did not wrap between. The
      receiver's buffer suffices for the run exactly if it does for every frame. */
  lemma {:induction false} RoundTrip(frames: seq<Source>)
    requires NonEmpty(frames)
    ensures
      var sent := WrapAll(AllPackets(frames, 0));
      (forall k | 0 <= k < |sent| :: Readable(sent[k])) &&
      var r := FeedBytes(FRESH, sent);
      && ReceiveAll(FRESH, sent) == (if FramesFit(frames) then Received(r) else Overrun)
      && r.pending == [] && |r.frames| == |frames|
      && forall i | 0 <= i < |frames| ::
           && r.frames[i].data == frames[i].data
           && (r.frames[i].dts == TimeOf(frames[i]) - TimeOf(frames[0])
               <==> Epoch(TimeOf(frames[i])) == Epoch(TimeOf(frames[0])))
  {
    hide Readable, Wrap, Feed, AllPackets, Emitted, Epoch, TimeOf, FeedBytes, ReceiveAll, FramesFit, Suffices;
    FeedWrapped(FRESH, AllPackets(frames, 0));
    WrappedReceived(FRESH, AllPackets(frames, 0));
    RunFits(FRESH, frames, 0);
    AllFed(FRESH, frames, 0);
    var out := Emitted(-1, frames);
    assert FRESH.frames + out == out;
    if frames == [] {
      NothingEmitted();
    } else {
      EmittedAt(-1, frames, 0);
      forall i | 0 <= i < |frames|
        ensures out[i].data == frames[i].data
        ensures out[i].dts == TimeOf(frames[i]) - TimeOf(frames[0])
          <==> Epoch(TimeOf(frames[i])) == Epoch(TimeOf(frames[0]))
      {
        EmittedInTime(frames, i);
      }
    }
  }

  lemma {:induction false} EmittedInTime(frames: seq<Source>, i: nat)
    requires i < |frames|
    ensures |Emitted(-1, frames)| == |frames|
    ensures
      var f := Emitted(-1, frames)[i];
      && f.data == frames[i].data
      && (f.dts == TimeOf(frames[i]) - TimeOf(frames[0]) <==> Epoch(TimeOf(frames[i])) == Epoch(TimeOf(frames[0])))
  {
    hide Emitted, Epoch, Quotient, MediaTime;
    EmittedAt(-1, frames, i);
    MediaClock(TimeOf(frames[i]), TimeOf(frames[0]));
  }

  lemma NothingEmitted()
    ensures Emitted(-1, []) == []
  {
  }

  lemma SmallTimesShareEpoch(t: int)
    requires 0 <= t && 90 * t < 0x1_0000_0000
    ensures Epoch(t) == 0
  {
  }

  /** In particular, every sequence of non-empty frames with 0 < dts and 90 dts < 2^32 comes out
      unchanged, each frame with its dts relative to that of the first. */
  lemma {:induction false} ExactRoundTrip(frames: seq<Source>)
    requires NonEmpty(frames)
    requires forall k | 0 <= k < |frames| :: 0 < frames[k].dts && 90 * frames[k].dts < 0x1_0000_0000
    ensures
      var sent := WrapAll(AllPackets(frames, 0));
      (forall k | 0 <= k < |sent| :: Readable(sent[k])) &&
      var r := FeedBytes(FRESH, sent);
      && ReceiveAll(FRESH, sent) == (if FramesFit(frames) then Received(r) else Overrun)
      && r.pending == []
      && r.frames == seq(|frames|, k requires 0 <= k < |frames| => Frame(frames[k].data, frames[k].dts - frames[0].dts))
  {
    hide Readable, WrapAll, FeedBytes, ReceiveAll, FramesFit, AllPackets, Epoch, NarrowedDts;
    RoundTrip(frames);
    forall k | 0 <= k < |frames| ensures MediaTime(frames[k].dts, frames[k].millis) == frames[k].dts {
      TimeIsDtsExactly(frames[k].dts, frames[k].millis);
    }
    forall k | 0 <= k < |frames| ensures Epoch(MediaTime(frames[k].dts, frames[k].millis)) == 0 {
      TimeIsDtsExactly(frames[k].dts, frames[k].millis);
      SmallTimesShareEpoch(frames[k].dts);
    }
  }

  /** And every sequence of non-empty frames without a dts, sent while 90 times the clock stays below 2^32,
      comes out unchanged, each frame with its clock relative to that of the first. */
  lemma {:induction false} ClockRoundTrip(frames: seq<Source>)
    requires NonEmpty(frames)
    requires forall k | 0 <= k < |frames| ::
               frames[k].dts % 0x1_0000_0000 == 0 && 90 * frames[k].millis < 0x1_0000_0000
    ensures
      var sent := WrapAll(AllPackets(frames, 0));
      (forall k | 0 <= k < |sent| :: Readable(sent[k])) &&
      var r := FeedBytes(FRESH, sent);
      && ReceiveAll(FRESH, sent) == (if FramesFit(frames) then Received(r) else Overrun)
      && r.pending == []
      && r.frames
         == seq(|frames|, k requires 0 <= k < |frames| => Frame(frames[k].data, frames[k].millis - frames[0].millis))
  {
    hide Readable, WrapAll, FeedBytes, ReceiveAll, FramesFit, AllPackets, Epoch, MediaTime;
    RoundTrip(frames);
    forall k | 0 <= k < |frames| ensures TimeOf(frames[k]) == frames[k].millis && Epoch(frames[k].millis) == 0 {
      TimeIsDtsExactly(frames[k].dts, frames[k].millis);
      SmallTimesShareEpoch(frames[k].millis);
    }
  }

  // ---------- Numbers ----------

  /** Over a whole run packet k is number n + k, so it carries (n + k) mod 65536; every packet is
      between 13 and 1111 bytes long, and within every buffer on its way. */
  lemma {:induction false} RunNumbers(frames: seq<Source>, n: nat, k: nat)
    requires k < |AllPackets(frames, n)|
    ensures
      var p := AllPackets(frames, n)[k];
      && p.sequence == n + k
      && MIN_SIZE < |Wrap(p)| <= 1111
      && Swap16(View(Wrap(p)).seqnum) == (n + k) % 0x1_0000
    decreases |frames|
  {
    hide Wrap, View, Swap16;
    var f := frames[0];
    var p := PacketsOf(f.data, Ts(f), n);
    PacketNumbers(f.data, Ts(f), n);
    if k < |p| {
      WrapFields(p[k]);
    } else {
      RunNumbers(frames[1..], n + |p|, k - |p|);
    }
  }

  // ---------- Conservation ----------

  function Markers(b: seq<seq<byte>>): nat
    requires forall k | 0 <= k < |b| :: Readable(b[k])
    decreases |b|
  {
    if b == [] then 0 else (if Marked(b[0]) then 1 else 0) + Markers(b[1..])
  }

  function FrameBytes(f: seq<Frame>): seq<byte> {
    if f == [] then [] else FrameBytes(f[..|f|-1]) + f[|f|-1].data
  }

  /** The bytes handed over plus the bytes pending. */
  function Held(s: State): seq<byte> {
    FrameBytes(s.frames) + s.pending
  }

  lemma AcceptHolds(s: State, payload: seq<byte>, marked: bool, timestamp: uint32)
    ensures Held(Accept(s, payload, marked, timestamp)) == Held(s) + payload
    ensures |Accept(s, payload, marked, timestamp).frames| == |s.frames| + if marked then 1 else 0
  {
    var r := Accept(s, payload, marked, timestamp);
    if marked {
      assert r.frames[..|r.frames|-1] == s.frames;
    }
    assert FrameBytes(s.frames) + (s.pending + payload) == Held(s) + payload;
  }

  /** Whatever packets arrive, and whichever are lost, no received byte is lost, duplicated or moved,
      and there is one frame for every marker; provided that what arrives between two markers fits the
      buffer, without which it is overrun. */
  lemma {:induction false} BytesConserved(s: State, b: seq<seq<byte>>)
    requires forall k | 0 <= k < |b| :: Readable(b[k])
    ensures ReceiveAll(s, b) == if StretchesFit(s, b) then Received(FeedBytes(s, b)) else Overrun
    ensures Held(FeedBytes(s, b)) == Held(s) + Payloads(b)
    ensures |FeedBytes(s, b).frames| == |s.frames| + Markers(b)
    decreases |b|
  {
    hide Readable, Payload, Marked, Timestamp, Accept, Held, ReceiveAll, StretchesFit;
    ReceivedExactly(s, b);
    if b == [] {
      assert Held(s) + [] == Held(s);
    } else {
      AcceptHolds(s, Payload(b[0]), Marked(b[0]), Timestamp(b[0]));
      BytesConserved(Receive(s, b[0]), b[1..]);
      assert Held(s) + Payload(b[0]) + Payloads(b[1..]) == Held(s) + Payloads(b);
    }
  }

  // ---------- What comes out, by the packets alone ----------

  /** The positions of the marked packets, in order. */
  function MarkersAt(b: seq<seq<byte>>): (m: seq<nat>)
    requires forall k | 0 <= k < |b| :: Readable(b[k])
    ensures forall i | 0 <= i < |m| :: m[i] < |b|
    ensures forall i, j | 0 <= i < j < |m| :: m[i] < m[j]
  {
    if b == [] then []
    else
      var n := |b| - 1;
      MarkersAt(b[..n]) + if Marked(b[n]) then [n] else []
  }

  /** They are the marked ones, and all of them. */
  lemma {:induction false} MarkersAtExactly(b: seq<seq<byte>>, k: nat)
    requires k < |b| && forall k | 0 <= k < |b| :: Readable(b[k])
    ensures k in MarkersAt(b) <==> Marked(b[k])
    decreases |b|
  {
    hide Readable, Marked;
    var n := |b| - 1;
    var m := MarkersAt(b[..n]);
    assert forall i | 0 <= i < |m| :: m[i] < n;
    if k < n {
      MarkersAtExactly(b[..n], k);
    }
  }

  /** Where the packets of the n-th frame that comes out start. */
  function FrameStart(m: seq<nat>, n: nat): nat
    requires n <= |m|
  {
    if n == 0 then 0 else m[n - 1] + 1
  }

  lemma {:induction false} FeedBytesLast(s: State, b: seq<seq<byte>>, x: seq<byte>)
    requires Readable(x) && forall k | 0 <= k < |b| :: Readable(b[k])
    ensures FeedBytes(s, b + [x]) == Receive(FeedBytes(s, b), x)
    decreases |b|
  {
    hide Readable, Receive;
    if b == [] {
      assert (b + [x])[1..] == [] && b + [x] == [x];
    } else {
      FeedBytesLast(Receive(s, b[0]), b[1..], x);
      assert (b + [x])[1..] == b[1..] + [x];
    }
  }

  lemma {:induction false} PayloadsLast(b: seq<seq<byte>>, x: seq<byte>)
    requires Readable(x) && forall k | 0 <= k < |b| :: Readable(b[k])
    ensures Payloads(b + [x]) == Payloads(b) + Payload(x)
    decreases |b|
  {
    hide Readable, Payload;
    if b == [] {
      assert (b + [x])[1..] == [] && b + [x] == [x] && Payload(x) + [] == Payload(x) == [] + Payload(x);
    } else {
      PayloadsLast(b[1..], x);
      assert (b + [x])[1..] == b[1..] + [x];
      Regroup(Payload(b[0]), Payloads(b[1..]), Payload(x));
    }
  }

  /** The n-th frame that comes out: the packets up to marker n, from behind the marker before, stamped by
      its own marked packet relative to the first marked packet, whatever came before that. */
  function FrameOf(b: seq<seq<byte>>, m: seq<nat>, n: nat): Frame
    requires forall k | 0 <= k < |b| :: Readable(b[k])
    requires n < |m| && (forall i | 0 <= i < |m| :: m[i] < |b|) && forall i, j | 0 <= i < j < |m| :: m[i] < m[j]
  {
    var start := FrameStart(m, n);
    assert n > 0 ==> m[n - 1] < m[n];
    Frame(Payloads(b[start..m[n] + 1]), Quotient(Timestamp(b[m[n]]) - Timestamp(b[m[0]]), 90))
  }

  /** What a new receiver has made of a run of packets; what follows the last marker is pending. */
  predicate Reassembled(b: seq<seq<byte>>, r: State)
    requires forall k | 0 <= k < |b| :: Readable(b[k])
  {
    var m := MarkersAt(b);
    && |r.frames| == |m|
    && r.first == (if m == [] then -1 else Timestamp(b[m[0]]))
    && r.pending == Payloads(b[FrameStart(m, |m|)..])
    && forall n | 0 <= n < |m| :: r.frames[n] == FrameOf(b, m, n)
  }

  lemma {:induction false} ReassembledExactly(b: seq<seq<byte>>)
    requires forall k | 0 <= k < |b| :: Readable(b[k])
    ensures Reassembled(b, FeedBytes(FRESH, b))
    decreases |b|
  {
    hide Readable, Payload, Marked, Timestamp, Quotient, FeedBytes, Payloads, Receive;
    if b == [] {
      NothingReassembled();
    } else {
      var n := |b| - 1;
      ReassembledExactly(b[..n]);
      assert b == b[..n] + [b[n]];
      FeedBytesLast(FRESH, b[..n], b[n]);
      OneMoreReassembled(b, FeedBytes(FRESH, b[..n]));
    }
  }

  lemma NothingReassembled()
    ensures FeedBytes(FRESH, []) == FRESH && Payloads([]) == [] && MarkersAt([]) == []
  {
  }

  lemma {:induction false} MarkersLast(b: seq<seq<byte>>)
    requires b != [] && forall k | 0 <= k < |b| :: Readable(b[k])
    ensures MarkersAt(b) == MarkersAt(b[..|b| - 1]) + if Marked(b[|b| - 1]) then [|b| - 1] else []
  {
  }

  lemma OneMoreReassembled(b: seq<seq<byte>>, s: State)
    requires b != [] && (forall k | 0 <= k < |b| :: Readable(b[k])) && Reassembled(b[..|b| - 1], s)
    ensures Reassembled(b, Receive(s, b[|b| - 1]))
  {
    hide Readable, Marked, Receive, Reassembled;
    if Marked(b[|b| - 1]) {
      MarkedReassembled(b, s);
    } else {
      UnmarkedReassembled(b, s);
    }
  }

  lemma {:induction false} UnmarkedReassembled(b: seq<seq<byte>>, s: State)
    requires b != [] && (forall k | 0 <= k < |b| :: Readable(b[k])) && Reassembled(b[..|b| - 1], s)
    requires !Marked(b[|b| - 1])
    ensures Reassembled(b, Receive(s, b[|b| - 1]))
  {
    hide Readable, Payload, Marked, Timestamp, Quotient, Payloads, FrameOf, MarkersAt, Receive;
    var n := |b| - 1;
    var a, x := b[..n], b[n];
    var m := MarkersAt(a);
    var start := FrameStart(m, |m|);
    MarkersLast(b);
    assert MarkersAt(b) == m;
    PayloadsLast(a[start..], x);
    assert a[start..] + [x] == b[start..];
    ReceiveEffect(s, x);
    FramesStay(b, s.frames);
  }

  lemma {:induction false} MarkedReassembled(b: seq<seq<byte>>, s: State)
    requires b != [] && (forall k | 0 <= k < |b| :: Readable(b[k])) && Reassembled(b[..|b| - 1], s)
    requires Marked(b[|b| - 1])
    ensures Reassembled(b, Receive(s, b[|b| - 1]))
  {
    hide Readable, Payload, Marked, Timestamp, Quotient, Payloads, FrameOf, MarkersAt, Receive;
    var n := |b| - 1;
    var a, x := b[..n], b[n];
    var m := MarkersAt(a);
    var start := FrameStart(m, |m|);
    MarkersLast(b);
    PayloadsLast(a[start..], x);
    assert a[start..] + [x] == b[start..];
    ReceiveEffect(s, x);
    FramesStay(b, s.frames);
    LastFrame(b, m);
    assert b[n + 1..] == [];
    NothingReassembled();
  }

  lemma {:induction false} FramesStay(b: seq<seq<byte>>, frames: seq<Frame>)
    requires b != [] && forall k | 0 <= k < |b| :: Readable(b[k])
    requires
      var m := MarkersAt(b[..|b| - 1]);
      |frames| == |m| && forall k | 0 <= k < |m| :: frames[k] == FrameOf(b[..|b| - 1], m, k)
    ensures
      var l := MarkersAt(b);
      |frames| <= |l| && forall k | 0 <= k < |frames| :: frames[k] == FrameOf(b, l, k)
  {
    hide Readable, Marked, FrameOf, MarkersAt;
    var a := b[..|b| - 1];
    MarkersLast(b);
    forall k | 0 <= k < |frames| ensures frames[k] == FrameOf(b, MarkersAt(b), k) {
      SameFrame(a, MarkersAt(a), b, MarkersAt(b), k);
    }
  }

  lemma ReceiveEffect(s: State, x: seq<byte>)
    requires Readable(x)
    ensures
      var r, pending := Receive(s, x), s.pending + Payload(x);
      if !Marked(x) then r == s.(pending := pending)
      else
        && r.first == (if s.first == -1 then Timestamp(x) else s.first) && r.pending == []
        && r.frames == s.frames + [Frame(pending, Quotient(Timestamp(x) - r.first, 90))]
  {
    hide Readable, Payload, Marked, Timestamp, Quotient;
  }

  /** More packets behind it leave a frame alone. */
  lemma SameFrame(a: seq<seq<byte>>, m: seq<nat>, b: seq<seq<byte>>, l: seq<nat>, n: nat)
    requires a <= b && forall k | 0 <= k < |b| :: Readable(b[k])
    requires m <= l && n < |m| && (forall i | 0 <= i < |m| :: m[i] < |a|) && (forall i | 0 <= i < |l| :: l[i] < |b|)
    requires forall i, j | 0 <= i < j < |l| :: l[i] < l[j]
    ensures (forall k | 0 <= k < |a| :: Readable(a[k])) && FrameOf(a, m, n) == FrameOf(b, l, n)
  {
    hide Readable, Timestamp, Quotient, Payloads;
    var start := FrameStart(m, n);
    assert n > 0 ==> l[n - 1] < l[n];
    assert a[start..m[n] + 1] == b[start..l[n] + 1];
  }

  lemma LastFrame(b: seq<seq<byte>>, m: seq<nat>)
    requires b != [] && forall k | 0 <= k < |b| :: Readable(b[k])
    requires (forall i | 0 <= i < |m| :: m[i] < |b| - 1) && forall i, j | 0 <= i < j < |m| :: m[i] < m[j]
    ensures
      var n := |b| - 1;
      var l := m + [n];
      FrameOf(b, l, |m|)
      == Frame(Payloads(b[FrameStart(m, |m|)..]), Quotient(Timestamp(b[n]) - Timestamp(b[l[0]]), 90))
  {
    hide Readable, Timestamp, Quotient, Payloads;
    var n := |b| - 1;
    assert FrameStart(m + [n], |m|) == FrameStart(m, |m|);
    assert b[FrameStart(m, |m|)..n + 1] == b[FrameStart(m, |m|)..];
  }

  // ---------- Loss ----------

  /** The packets that get through. */
  function Keep<T>(p: seq<T>, mask: seq<bool>): seq<T>
    requires |mask| == |p|
    decreases |p|
  {
    if p == [] then [] else (if mask[0] then [p[0]] else []) + Keep(p[1..], mask[1..])
  }

  lemma {:induction false} KeepHead<T>(p: T, kept: bool, o: seq<T>, m: seq<bool>)
    requires |o| == |m|
    ensures Keep([p] + o, [kept] + m) == (if kept then [p] else []) + Keep(o, m)
  {
    assert ([p] + o)[1..] == o && ([kept] + m)[1..] == m;
  }

  lemma Regroup<T>(a: seq<T>, b: seq<T>, c: seq<T>)
    ensures a + b + c == a + (b + c)
  {
  }

  lemma {:induction false} KeepJoin<T>(a: seq<T>, b: seq<T>, m: seq<bool>, n: seq<bool>)
    requires |m| == |a| && |n| == |b|
    ensures Keep(a + b, m + n) == Keep(a, m) + Keep(b, n)
    decreases |a|
  {
    if a == [] {
      assert a + b == b && m + n == n;
    } else {
      hide Keep;
      KeepJoin(a[1..], b, m[1..], n);
      assert a == [a[0]] + a[1..] && m == [m[0]] + m[1..];
      KeepHead(a[0], m[0], a[1..], m[1..]);
      Regroup([a[0]], a[1..], b);
      Regroup([m[0]], m[1..], n);
      KeepHead(a[0], m[0], a[1..] + b, m[1..] + n);
      Regroup(if m[0] then [a[0]] else [], Keep(a[1..], m[1..]), Keep(b, n));
    }
  }

  lemma {:induction false} KeepAll<T>(p: seq<T>, mask: seq<bool>)
    requires |mask| == |p| && forall k | 0 <= k < |p| :: mask[k]
    ensures Keep(p, mask) == p
    decreases |p|
  {
    if p != [] {
      KeepAll(p[1..], mask[1..]);
    }
  }

  lemma {:induction false} AllJoin(a: seq<Source>, b: seq<Source>, n: nat)
    ensures AllPackets(a + b, n) == AllPackets(a, n) + AllPackets(b, n + |AllPackets(a, n)|)
    decreases |a|
  {
    hide Ts, PacketsOf;
    if a == [] {
      assert a + b == b;
    } else {
      var p := PacketsOf(a[0].data, Ts(a[0]), n);
      AllJoin(a[1..], b, n + |p|);
      assert (a + b)[1..] == a[1..] + b;
    }
  }

  /** The number of packets before frame j, which is also the position of its first packet. */
  function StartOf(frames: seq<Source>, j: nat): nat
    requires j <= |frames|
  {
    |AllPackets(frames[..j], 0)|
  }

  /** The packets of a run are those before frame j, its own, and those after it. */
  lemma {:induction false} SplitAt(frames: seq<Source>, j: nat)
    requires j < |frames|
    ensures
      var all := AllPackets(frames, 0);
      var own := PacketsOf(frames[j].data, Ts(frames[j]), StartOf(frames, j));
      && StartOf(frames, j + 1) == StartOf(frames, j) + |own| <= |all|
      && all[..StartOf(frames, j)] == AllPackets(frames[..j], 0)
      && all[StartOf(frames, j)..StartOf(frames, j + 1)] == own
  {
    hide Ts, PacketsOf;
    var m := StartOf(frames, j);
    var own := PacketsOf(frames[j].data, Ts(frames[j]), m);
    OneFrame(frames[j], m);
    assert frames[..j] + [frames[j]] == frames[..j + 1] && frames[..j + 1] + frames[j + 1..] == frames;
    AllJoin(frames[..j], [frames[j]], 0);
    AllJoin(frames[..j + 1], frames[j + 1..], 0);
  }

  lemma {:induction false} OneFrame(f: Source, n: nat)
    ensures AllPackets([f], n) == PacketsOf(f.data, Ts(f), n)
  {
    hide Ts, PacketsOf;
    assert AllPackets([f][1..], n + |PacketsOf(f.data, Ts(f), n)|) == [];
  }

  /** The last packet before frame j is marked. */
  lemma MarkerBefore(frames: seq<Source>, j: nat)
    requires NonEmpty(frames) && 0 < j <= |frames|
    ensures StartOf(frames, j) > 0 && AllPackets(frames[..j], 0)[StartOf(frames, j) - 1].last
  {
    hide Ts, PacketsOf;
    SplitAt(frames, j - 1);
    PacketNumbers(frames[j - 1].data, Ts(frames[j - 1]), StartOf(frames, j - 1));
    assert frames[..j][..j - 1] == frames[..j - 1] && frames[..j] == frames[..j - 1] + [frames[j - 1]];
    AllJoin(frames[..j - 1], [frames[j - 1]], 0);
    OneFrame(frames[j - 1], StartOf(frames, j - 1));
  }

  /** After a marked packet nothing is pending. */
  lemma {:induction false} MarkerFlushes(s: State, p: seq<Packet>, mask: seq<bool>)
    requires |mask| == |p| > 0 && mask[|p| - 1] && p[|p| - 1].last
    ensures Feed(s, Keep(p, mask)).pending == []
  {
    var n := |p| - 1;
    assert p[..n] + [p[n]] == p && mask[..n] + [true] == mask;
    KeepJoin(p[..n], [p[n]], mask[..n], [true]);
    assert Keep([p[n]], [true]) == [p[n]];
    FeedJoin(s, Keep(p[..n], mask[..n]), [p[n]]);
    assert [p[n]][1..] == [];
  }

  lemma {:induction false} FramesGrow(s: State, p: seq<Packet>)
    ensures |s.frames| <= |Feed(s, p).frames| && Feed(s, p).frames[..|s.frames|] == s.frames
    decreases |p|
  {
    hide Quotient;
    if p != [] {
      FramesGrow(AcceptPacket(s, p[0]), p[1..]);
    }
  }

  lemma {:induction false} NothingKept<T>(p: seq<T>, mask: seq<bool>)
    requires |mask| == |p| && forall k | 0 <= k < |p| :: !mask[k]
    ensures Keep(p, mask) == []
    decreases |p|
  {
    if p != [] {
      NothingKept(p[1..], mask[1..]);
    }
  }

  /** Without its last packet. */
  lemma {:induction false} LastLost<T>(p: seq<T>, mask: seq<bool>)
    requires |mask| == |p| > 0 && !mask[|p| - 1]
    ensures Keep(p, mask) == Keep(p[..|p| - 1], mask[..|p| - 1])
  {
    hide Keep;
    KeepAt(p, mask, |p| - 1);
    NothingKept(p[|p| - 1..], mask[|p| - 1..]);
  }

  /** What has arrived of the first j frames. */
  function SoFar(frames: seq<Source>, mask: seq<bool>, j: nat): seq<Packet>
    requires j <= |frames| && StartOf(frames, j) <= |mask|
  {
    Keep(AllPackets(frames[..j], 0), mask[..StartOf(frames, j)])
  }

  lemma {:induction false} SoFarOn(frames: seq<Source>, mask: seq<bool>, j: nat)
    requires j < |frames| && |mask| == |AllPackets(frames, 0)|
    ensures
      var m, k := StartOf(frames, j), StartOf(frames, j + 1);
      var own := PacketsOf(frames[j].data, Ts(frames[j]), m);
      && m <= k <= |mask| && k == m + |own|
      && SoFar(frames, mask, j + 1) == SoFar(frames, mask, j) + Keep(own, mask[m..k])
      && Keep(AllPackets(frames, 0), mask)
         == SoFar(frames, mask, j) + (Keep(own, mask[m..k]) + Keep(AllPackets(frames, 0)[k..], mask[k..]))
  {
    hide Keep, PacketsOf, Ts, AllPackets;
    var all, m, k := AllPackets(frames, 0), StartOf(frames, j), StartOf(frames, j + 1);
    SplitAt(frames, j);
    assert all[..k] == AllPackets(frames[..j + 1], 0) by {
      PrefixOfAll(frames, j + 1);
    }
    KeepAt(all[..k], mask[..k], m);
    assert all[..k][..m] == all[..m] && all[..k][m..] == all[m..k];
    assert mask[..k][..m] == mask[..m] && mask[..k][m..] == mask[m..k];
    KeepAt(all, mask, k);
    Regroup(SoFar(frames, mask, j), Keep(all[m..k], mask[m..k]), Keep(all[k..], mask[k..]));
  }

  lemma {:induction false} PrefixOfAll(frames: seq<Source>, j: nat)
    requires j <= |frames|
    ensures AllPackets(frames[..j], 0) <= AllPackets(frames, 0)
  {
    hide AllPackets;
    assert frames[..j] + frames[j..] == frames;
    AllJoin(frames[..j], frames[j..], 0);
  }

  // ---------- The first time received ----------

  /** The marked packet of frame k arrives. */
  ghost predicate MarkerArrives(frames: seq<Source>, mask: seq<bool>, k: nat) {
    k < |frames| && 0 < StartOf(frames, k + 1) <= |mask| && mask[StartOf(frames, k + 1) - 1]
  }

  /** Frame h is the first one of which the marked packet arrives. */
  ghost predicate FirstMarker(frames: seq<Source>, mask: seq<bool>, h: nat) {
    MarkerArrives(frames, mask, h) && forall k: nat | k < h :: !MarkerArrives(frames, mask, k)
  }

  lemma {:induction false} FirstStays(s: State, p: seq<Packet>)
    requires s.first != -1
    ensures Feed(s, p).first == s.first
    decreases |p|
  {
    hide Quotient;
    if p != [] {
      FirstStays(AcceptPacket(s, p[0]), p[1..]);
    }
  }

  lemma {:induction false} NoMarkerNoFirst(s: State, p: seq<Packet>)
    requires forall k | 0 <= k < |p| :: !p[k].last
    ensures Feed(s, p).first == s.first
    decreases |p|
  {
    if p != [] {
      NoMarkerNoFirst(AcceptPacket(s, p[0]), p[1..]);
    }
  }

  lemma {:induction false} KeptOnes<T>(p: seq<T>, mask: seq<bool>)
    requires |mask| == |p|
    ensures forall x | x in Keep(p, mask) :: x in p
    decreases |p|
  {
    if p != [] {
      KeptOnes(p[1..], mask[1..]);
    }
  }

  /** What arrives of a frame sets the first time exactly if its marker does. */
  lemma {:induction false} FirstOfFrame(s: State, data: seq<byte>, timestamp: uint32, n: nat, mask: seq<bool>)
    requires data != [] && |mask| == |PacketsOf(data, timestamp, n)| > 0
    ensures
      Feed(s, Keep(PacketsOf(data, timestamp, n), mask)).first
      == if mask[|mask| - 1] && s.first == -1 then timestamp else s.first
  {
    hide Keep, Feed, PacketsOf, Quotient;
    var p := PacketsOf(data, timestamp, n);
    var l := |p| - 1;
    var q := Keep(p[..l], mask[..l]);
    PacketNumbers(data, timestamp, n);
    KeptOnes(p[..l], mask[..l]);
    forall k | 0 <= k < |q| ensures !q[k].last {
      assert q[k] in q;
    }
    NoMarkerNoFirst(s, q);
    if mask[l] {
      KeepAt(p, mask, l);
      KeepAll(p[l..], mask[l..]);
      FeedJoin(s, q, p[l..]);
      assert p[l..] == [p[l]];
      FeedOne(Feed(s, q), p[l]);
    } else {
      LastLost(p, mask);
    }
  }

  lemma {:induction false} FeedOne(s: State, p: Packet)
    ensures Feed(s, [p]) == AcceptPacket(s, p)
  {
    assert [p][1..] == [];
  }

  lemma {:induction false} NoMarkerYet(frames: seq<Source>, mask: seq<bool>, j: nat)
    requires NonEmpty(frames) && |mask| == |AllPackets(frames, 0)| && j <= |frames|
    requires forall k: nat | k < j :: !MarkerArrives(frames, mask, k)
    ensures StartOf(frames, j) <= |mask| && Feed(FRESH, SoFar(frames, mask, j)).first == -1
    decreases j
  {
    hide Ts, PacketsOf, Keep, AllPackets, Feed;
    if j == 0 {
      NothingArrived(frames, mask);
    } else {
      NoMarkerYet(frames, mask, j - 1);
      FrameStamps(frames, mask, j - 1);
      assert !MarkerArrives(frames, mask, j - 1);
    }
  }

  lemma NothingArrived(frames: seq<Source>, mask: seq<bool>)
    ensures StartOf(frames, 0) == 0 && SoFar(frames, mask, 0) == [] && Feed(FRESH, []) == FRESH
  {
    assert frames[..0] == [];
  }

  lemma {:induction false} FrameStamps(frames: seq<Source>, mask: seq<bool>, j: nat)
    requires NonEmpty(frames) && |mask| == |AllPackets(frames, 0)| && j < |frames|
    ensures 0 < StartOf(frames, j + 1) <= |mask| && StartOf(frames, j) <= |mask|
    ensures
      var s := Feed(FRESH, SoFar(frames, mask, j));
      Feed(FRESH, SoFar(frames, mask, j + 1)).first
      == if mask[StartOf(frames, j + 1) - 1] && s.first == -1 then Ts(frames[j]) else s.first
  {
    hide Ts, PacketsOf, Keep, AllPackets, Feed, SoFar;
    var f, m, e := frames[j], StartOf(frames, j), StartOf(frames, j + 1);
    SoFarOn(frames, mask, j);
    PacketNumbers(f.data, Ts(f), m);
    FeedJoin(FRESH, SoFar(frames, mask, j), Keep(PacketsOf(f.data, Ts(f), m), mask[m..e]));
    FirstOfFrame(Feed(FRESH, SoFar(frames, mask, j)), f.data, Ts(f), m, mask[m..e]);
  }

  /** Under any loss the receiver takes its first time from the first frame of which the marked packet
      arrives, whatever else has arrived before. */
  lemma {:induction false} StampedFrom(frames: seq<Source>, mask: seq<bool>, h: nat)
    requires NonEmpty(frames) && |mask| == |AllPackets(frames, 0)| && FirstMarker(frames, mask, h)
    ensures Feed(FRESH, Keep(AllPackets(frames, 0), mask)).first == Ts(frames[h])
  {
    hide Ts, PacketsOf, Keep, AllPackets, Feed, SoFar;
    NoMarkerYet(frames, mask, h);
    FrameStamps(frames, mask, h);
    SoFarOn(frames, mask, h);
    var m, e := StartOf(frames, h), StartOf(frames, h + 1);
    var own := Keep(PacketsOf(frames[h].data, Ts(frames[h]), m), mask[m..e]);
    var rest := Keep(AllPackets(frames, 0)[e..], mask[e..]);
    Regroup(SoFar(frames, mask, h), own, rest);
    FeedJoin(FRESH, SoFar(frames, mask, h + 1), rest);
    FirstStays(Feed(FRESH, SoFar(frames, mask, h + 1)), rest);
  }

  /** Recovery: whatever else is lost, if the marked packet of the previous frame and all packets of
      frame j arrive, frame j comes out byte for byte, as the next frame after those before it, stamped
      relative to the first frame of which the marked packet was received; provided that what arrives
      between two markers fits the buffer. */
  lemma {:induction false} Recovery(frames: seq<Source>, j: nat, mask: seq<bool>)
    requires NonEmpty(frames) && j < |frames|
    requires |mask| == |AllPackets(frames, 0)|
    requires StartOf(frames, j) <= StartOf(frames, j + 1) <= |mask|
    requires j > 0 && StartOf(frames, j) > 0 ==> mask[StartOf(frames, j) - 1]
    requires forall k | StartOf(frames, j) <= k < StartOf(frames, j + 1) :: mask[k]
    ensures
      var m := StartOf(frames, j);
      var before := Feed(FRESH, Keep(AllPackets(frames[..j], 0), mask[..m]));
      var first := if before.first == -1 then Ts(frames[j]) else before.first;
      var all := Feed(FRESH, Keep(AllPackets(frames, 0), mask)).frames;
      && |before.frames| < |all|
      && all[|before.frames|] == Frame(frames[j].data, Quotient(Ts(frames[j]) - first, 90))
      && forall h: nat | FirstMarker(frames, mask, h) :: first == Ts(frames[h])
    ensures
      var arrived := Keep(AllPackets(frames, 0), mask);
      (forall k | 0 <= k < |arrived| :: Readable(WrapAll(arrived)[k])) &&
      ReceiveAll(FRESH, WrapAll(arrived))
      == if StretchesFit(FRESH, WrapAll(arrived)) then Received(Feed(FRESH, arrived)) else Overrun
  {
    hide Ts, Quotient, PacketsOf, Keep, Feed, AllPackets, Readable, ReceiveAll, StretchesFit, Suffices, WrapAll;
    WrappedReceived(FRESH, Keep(AllPackets(frames, 0), mask));
    var all := AllPackets(frames, 0);
    var m, k := StartOf(frames, j), StartOf(frames, j + 1);
    SplitAt(frames, j);
    NothingPending(frames, j, mask);
    var a, own, c := all[..m], all[m..k], all[k..];
    var before := Feed(FRESH, Keep(a, mask[..m]));
    KeepSplit(all, mask, m, k);
    FeedJoin(FRESH, Keep(a, mask[..m]), own + Keep(c, mask[k..]));
    FeedJoin(before, own, Keep(c, mask[k..]));
    FrameFed(before, frames[j].data, Ts(frames[j]), m);
    var after := Accept(before, frames[j].data, true, Ts(frames[j]));
    AcceptFrame(before, frames[j].data, Ts(frames[j]));
    FramesGrow(after, Keep(c, mask[k..]));
    assert after.frames[|before.frames|] == Feed(after, Keep(c, mask[k..])).frames[|before.frames|];
    FirstStays(after, Keep(c, mask[k..]));
    forall h: nat | FirstMarker(frames, mask, h) ensures after.first == Ts(frames[h]) {
      StampedFrom(frames, mask, h);
    }
  }

  /** If the last packet before frame j arrived, nothing is pending when its first one is due. */
  lemma NothingPending(frames: seq<Source>, j: nat, mask: seq<bool>)
    requires NonEmpty(frames) && j < |frames| && StartOf(frames, j) <= |mask|
    requires j > 0 && StartOf(frames, j) > 0 ==> mask[StartOf(frames, j) - 1]
    ensures Feed(FRESH, Keep(AllPackets(frames[..j], 0), mask[..StartOf(frames, j)])).pending == []
  {
    hide Ts, PacketsOf;
    var m := StartOf(frames, j);
    if j == 0 {
      assert AllPackets(frames[..j], 0) == [] && Keep(AllPackets(frames[..j], 0), mask[..m]) == [];
    } else {
      MarkerBefore(frames, j);
      MarkerFlushes(FRESH, AllPackets(frames[..j], 0), mask[..m]);
    }
  }

  lemma {:induction false} KeepSplit<T>(p: seq<T>, mask: seq<bool>, m: nat, k: nat)
    requires |mask| == |p| && m <= k <= |p| && forall i | m <= i < k :: mask[i]
    ensures Keep(p, mask) == Keep(p[..m], mask[..m]) + (p[m..k] + Keep(p[k..], mask[k..]))
  {
    hide Keep;
    KeepAt(p, mask, m);
    KeepAt(p[m..], mask[m..], k - m);
    assert p[m..][..k - m] == p[m..k] && p[m..][k - m..] == p[k..];
    assert mask[m..][..k - m] == mask[m..k] && mask[m..][k - m..] == mask[k..];
    KeepAll(p[m..k], mask[m..k]);
  }

  lemma {:induction false} KeepAt<T>(p: seq<T>, mask: seq<bool>, m: nat)
    requires |mask| == |p| && m <= |p|
    ensures Keep(p, mask) == Keep(p[..m], mask[..m]) + Keep(p[m..], mask[m..])
  {
    hide Keep;
    assert p == p[..m] + p[m..] && mask == mask[..m] + mask[m..];
    KeepJoin(p[..m], p[m..], mask[..m], mask[m..]);
  }

  /** At any moment of a run without loss the frames that have come out are the first of those that
      will come out; the buffer suffices so far if it does for every frame. */
  lemma {:induction false} DeliveredIsPrefix(frames: seq<Source>, arrived: nat)
    requires NonEmpty(frames) && arrived <= |AllPackets(frames, 0)|
    ensures
      var r := Feed(FRESH, AllPackets(frames, 0)[..arrived]).frames;
      |r| <= |Emitted(-1, frames)| == |frames| && r == Emitted(-1, frames)[..|r|]
    ensures
      var b := WrapAll(AllPackets(frames, 0)[..arrived]);
      && (forall k | 0 <= k < |b| :: Readable(b[k]))
      && ReceiveAll(FRESH, b)
         == (if StretchesFit(FRESH, b) then Received(Feed(FRESH, AllPackets(frames, 0)[..arrived])) else Overrun)
      && (FramesFit(frames) ==> StretchesFit(FRESH, b))
  {
    hide Ts, Quotient, PacketsOf, Readable, ReceiveAll, StretchesFit, Suffices, WrapAll, FramesFit;
    var all := AllPackets(frames, 0);
    WrappedReceived(FRESH, all[..arrived]);
    RunFits(FRESH, frames, 0);
    SufficesJoin(FRESH, all[..arrived], all[arrived..]);
    assert all[..arrived] + all[arrived..] == all;
    FeedJoin(FRESH, all[..arrived], all[arrived..]);
    FramesGrow(Feed(FRESH, all[..arrived]), all[arrived..]);
    AllFed(FRESH, frames, 0);
    assert [] + Emitted(-1, frames) == Emitted(-1, frames);
    if frames == [] {
      NothingEmitted();
    } else {
      EmittedAt(-1, frames, 0);
    }
  }
}
