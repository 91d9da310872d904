/** src/libs/Receiver.cpp: datagrams from the socket to the unpackager. */
module Receiver {
  import opened Bytes
  import R = RtpHeaders
  import opened Packager
  import opened Unpackager
  import opened Pipeline

  const LENGTH := 1500

  /** What the socket stores of a datagram. */
  function Stored(datagram: seq<byte>): (b: seq<byte>)
    ensures |b| <= LENGTH
  {
    if |datagram| > LENGTH then datagram[..LENGTH] else datagram
  }

  /** What the sink gets of the datagrams: none after an empty one, which ends the reception. */
  function Arrived(datagrams: seq<seq<byte>>): (b: seq<seq<byte>>) {
    if datagrams == [] || datagrams[0] == [] then []
    else [Stored(datagrams[0])] + Arrived(datagrams[1..])
  }

  lemma {:induction false} ArrivedFits(datagrams: seq<seq<byte>>)
    requires forall k | 0 <= k < |datagrams| :: 0 < |datagrams[k]| <= LENGTH
    ensures Arrived(datagrams) == datagrams
  {
    if datagrams != [] {
      ArrivedFits(datagrams[1..]);
    }
  }

  /** Packets of a run arrive whole, whatever others are lost. */
  lemma {:induction false} RunArrives(frames: seq<Source>, mask: seq<bool>)
    requires |mask| == |AllPackets(frames, 0)|
    ensures
      var b := WrapAll(Keep(AllPackets(frames, 0), mask));
      Arrived(b) == b
  {
    hide Wrap, Keep, AllPackets;
    var p := AllPackets(frames, 0);
    forall k | 0 <= k < |p| ensures |p[k].payload| + R.MIN_SIZE <= LENGTH {
      RunNumbers(frames, 0, k);
    }
    KeptFit(p, mask);
    ArrivedFits(WrapAll(Keep(p, mask)));
  }

  lemma {:induction false} KeptFit(p: seq<Packet>, mask: seq<bool>)
    requires |mask| == |p| && forall k | 0 <= k < |p| :: |p[k].payload| + R.MIN_SIZE <= LENGTH
    ensures forall k | 0 <= k < |Keep(p, mask)| :: |Keep(p, mask)[k].payload| + R.MIN_SIZE <= LENGTH
    decreases |p|
  {
    if p != [] {
      KeptFit(p[1..], mask[1..]);
    }
  }

  class Receiver {
    const buffer: array<byte>           // `buffer_`
    const sink: Unpackager              // `sink_`

    ghost predicate Valid()
      reads this, sink
    {
      buffer.Length == LENGTH && buffer != sink.buffer && sink.Valid() && sink.hasSink
    }

    constructor (sink: Unpackager)
      requires sink.Valid() && sink.hasSink
      ensures Valid() && this.sink == sink && fresh(buffer)
    {
      this.sink := sink;
      buffer := new byte[LENGTH];
    }

    /** Lines 33-45: the bytes received go to the sink; `again` tells whether more are waited for. */
    method HandleReceive(received: nat) returns (again: bool)
      requires Valid() && received <= LENGTH
      requires received > 0 ==> Readable(buffer[..received]) && HasRoom(sink.Abstract(), Payload(buffer[..received]))
      modifies sink, sink.buffer
      ensures Valid() && again == (received > 0)
      ensures
        sink.Abstract()
        == if received > 0 then Receive(old(sink.Abstract()), old(buffer[..received])) else old(sink.Abstract())
    {
      again := false;
      if received > 0 {
        sink.ReceiveRtpPacket(buffer, received);
        again := true;
      }
    }

    /** `init`: the event loop over the datagrams that come in. If the unpackager's buffer suffices for
        them, it ends in the state that the packets lead to. */
    method Init(datagrams: seq<seq<byte>>)
      requires Valid() && forall k | 0 <= k < |Arrived(datagrams)| :: Readable(Arrived(datagrams)[k])
      requires ReceiveAll(sink.Abstract(), Arrived(datagrams)).Received?
      modifies buffer, sink, sink.buffer
      ensures Valid() && Received(sink.Abstract()) == ReceiveAll(old(sink.Abstract()), Arrived(datagrams))
    {
      hide Readable, Payload, Receive, HasRoom, Stored;
      var again := true;
      var k := 0;
      while again && k < |datagrams|
        invariant Valid() && 0 <= k <= |datagrams|
        invariant forall i | 0 <= i < |Rest(datagrams, k, again)| :: Readable(Rest(datagrams, k, again)[i])
        invariant ReceiveAll(sink.Abstract(), Rest(datagrams, k, again))
               == ReceiveAll(old(sink.Abstract()), Arrived(datagrams))
        decreases |datagrams| - k
      {
        var b := Stored(datagrams[k]);
        Next(datagrams, k);
        var received := Store(b);
        again := HandleReceive(received);
        k := k + 1;
      }
    }

    /** The socket's copy. */
    method Store(b: seq<byte>) returns (received: nat)
      requires Valid() && |b| <= LENGTH
      modifies buffer
      ensures received == |b| && buffer[..received] == b
      ensures Valid() && sink.Abstract() == old(sink.Abstract())
    {
      received := 0;
      while received < |b|
        invariant 0 <= received <= |b| && buffer[..received] == b[..received]
      {
        buffer[received] := b[received];
        received := received + 1;
      }
      assert b[..|b|] == b;
    }
  }

  /** What is still to come. */
  function Rest(datagrams: seq<seq<byte>>, k: nat, again: bool): seq<seq<byte>>
    requires k <= |datagrams|
  {
    if again then Arrived(datagrams[k..]) else []
  }

  lemma Next(datagrams: seq<seq<byte>>, k: nat)
    requires k < |datagrams|
    ensures |Stored(datagrams[k])| > 0 <==> datagrams[k] != []
    ensures
      Arrived(datagrams[k..])
      == if datagrams[k] == [] then [] else [Stored(datagrams[k])] + Arrived(datagrams[k + 1..])
  {
    assert datagrams[k..][1..] == datagrams[k + 1..];
  }
}
