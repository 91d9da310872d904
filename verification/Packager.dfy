/** src/libs/Packager.cpp: frames become RTP packets. */
module Packager {
  import opened Bytes
  import opened RtpHeaders
  import opened Fragmenter

  const SSRC: uint32 := 55543
  const PAYLOAD_TYPE := 96

  /** The header in front of a fragment, as stored. */
  function HeaderOf(last: bool, sequence: nat, timestamp: uint32): (h: Stored)
    ensures InWidth(h)
  {
    Stored(0, 0, 0, 2, PAYLOAD_TYPE, if last then 1 else 0,
           Swap16(sequence % 0x1_0000), Swap32(timestamp), Swap32(SSRC))
  }

  /** What a packet says: its payload, the marker bit, its number and its media time. */
  datatype Packet = Packet(payload: seq<byte>, last: bool, sequence: nat, timestamp: uint32)

  /** The packet's bytes. */
  function Wrap(p: Packet): (b: seq<byte>)
    ensures |b| == MIN_SIZE + |p.payload|
  {
    Memory(HeaderOf(p.last, p.sequence, p.timestamp)) + p.payload
  }

  function WrapAll(p: seq<Packet>): (b: seq<seq<byte>>)
    ensures |b| == |p|
  {
    seq(|p|, k requires 0 <= k < |p| => Wrap(p[k]))
  }

  /** The packets of a frame: chunks of 1099 bytes, the last one marked, numbered from `sequence`. */
  function PacketsOf(data: seq<byte>, timestamp: uint32, sequence: nat): (p: seq<Packet>)
    decreases |data|
  {
    if data == [] then []
    else if |data| <= FRAGMENT_MAX then [Packet(data, true, sequence, timestamp)]
    else [Packet(data[..FRAGMENT_MAX], false, sequence, timestamp)]
         + PacketsOf(data[FRAGMENT_MAX..], timestamp, sequence + 1)
  }

  /** `int dts = packet.dts`: the 64-bit time narrowed to a signed 32-bit one. */
  function NarrowedDts(dts: int): (d: int)
    ensures -0x8000_0000 <= d < 0x8000_0000
  {
    var low := dts % 0x1_0000_0000;
    if low < 0x8000_0000 then low else low - 0x1_0000_0000
  }

  /** The frame's time in milliseconds: its narrowed dts or, when that is 0, the clock. */
  function MediaTime(dts: int, millis: nat): int {
    if NarrowedDts(dts) == 0 then millis else NarrowedDts(dts)
  }

  /** `av_rescale(x, 90000, 1000)` of the frame's time, narrowed to 32 bits. */
  function TimestampOf(dts: int, millis: nat): uint32 {
    90 * MediaTime(dts, millis) % 0x1_0000_0000
  }

  /** The stamp is that of the frame's 64-bit dts exactly if this is no multiple of 2^32, since narrowing
      leaves the stamp alone; every multiple, such as 0 and FFmpeg's "no dts" -2^63, is replaced by the
      clock. The frame's time is its dts exactly if, besides, it fits 32 bits. A clock that happens to
      show the same makes no difference. A multiple gives the clock itself, any other dts the number of
      32 bits with sign that differs from it by a multiple. */
  lemma TimeIsDtsExactly(dts: int, millis: nat)
    ensures TimestampOf(dts, millis) == 90 * dts % 0x1_0000_0000
      <==> dts % 0x1_0000_0000 != 0 || 90 * millis % 0x1_0000_0000 == 0
    ensures MediaTime(dts, millis) == dts <==>
      || (-0x8000_0000 <= dts < 0x8000_0000 && dts != 0)
      || (dts % 0x1_0000_0000 == 0 && dts == millis)
    ensures NarrowedDts(dts) == 0 <==> dts % 0x1_0000_0000 == 0
    ensures dts % 0x1_0000_0000 == 0 ==>
      MediaTime(dts, millis) == millis && TimestampOf(dts, millis) == 90 * millis % 0x1_0000_0000
    ensures dts % 0x1_0000_0000 != 0 ==>
      && -0x8000_0000 <= MediaTime(dts, millis) < 0x8000_0000
      && (MediaTime(dts, millis) - dts) % 0x1_0000_0000 == 0
  {
    var q, low := dts / 0x1_0000_0000, dts % 0x1_0000_0000;
    assert dts == 0x1_0000_0000 * q + low;
    SameStamp(dts, NarrowedDts(dts), if low < 0x8000_0000 then q else q + 1);
  }

  /** Whole turns of the 32-bit clock do not show. */
  lemma SameStamp(a: int, b: int, q: int)
    requires a == b + 0x1_0000_0000 * q
    ensures 90 * a % 0x1_0000_0000 == 90 * b % 0x1_0000_0000
  {
    var m := 0x1_0000_0000;
    assert 90 * a == 90 * b + m * (90 * q);
    assert 90 * a / m == 90 * b / m + 90 * q;
  }

  /** What a receiver reads from a packet: every header field of section 5.1 of RFC 3550. */
  lemma WrapFields(p: Packet)
    ensures
      var h := View(Wrap(p));
      && h.version == 2 && h.padding == 0 && h.hasextension == 0 && h.cc == 0
      && h.payloadtype == PAYLOAD_TYPE && (h.marker == 1 <==> p.last)
      && Swap16(h.seqnum) == p.sequence % 0x1_0000 && Swap32(h.timestamp) == p.timestamp && Swap32(h.ssrc) == SSRC
    ensures HeaderLength(Wrap(p)) == MIN_SIZE && Wrap(p)[MIN_SIZE..] == p.payload
  {
    hide Memory, Swap16, Swap32;
    ViewOfMemory(HeaderOf(p.last, p.sequence, p.timestamp), p.payload);
    Swapping16(p.sequence % 0x1_0000);
    Swapping32(p.timestamp);
    Swapping32(SSRC);
  }

  /** The first twelve bytes are the fixed header of the RFC. */
  lemma WrapHeader(p: Packet)
    ensures Wrap(p)[..MIN_SIZE] ==
      Rfc3550(2, 0, 0, 0, if p.last then 1 else 0, PAYLOAD_TYPE, p.sequence % 0x1_0000, p.timestamp, SSRC)
  {
    hide Memory, Swap16, Swap32, Rfc3550;
    WireLayout(HeaderOf(p.last, p.sequence, p.timestamp));
    Swapping16(p.sequence % 0x1_0000);
    Swapping32(p.timestamp);
    Swapping32(SSRC);
  }

  /** Packet k of a frame is number `sequence + k`, carries 1 to 1099 bytes, and is marked exactly if it
      is the last. */
  lemma {:induction false} PacketNumbers(data: seq<byte>, timestamp: uint32, sequence: nat)
    ensures data != [] ==> PacketsOf(data, timestamp, sequence) != []
    ensures
      var p := PacketsOf(data, timestamp, sequence);
      forall k | 0 <= k < |p| ::
        && 0 < |p[k].payload| <= FRAGMENT_MAX
        && p[k].sequence == sequence + k && p[k].timestamp == timestamp && (p[k].last <==> k == |p| - 1)
    decreases |data|
  {
    if |data| > FRAGMENT_MAX {
      var rest := PacketsOf(data[FRAGMENT_MAX..], timestamp, sequence + 1);
      PacketNumbers(data[FRAGMENT_MAX..], timestamp, sequence + 1);
      assert forall k | 1 <= k < 1 + |rest| :: PacketsOf(data, timestamp, sequence)[k] == rest[k-1];
    }
  }

  /** The packets of the fragments that are left. */
  function PacketsOfFragments(data: seq<byte>, f: seq<Fragment>, timestamp: uint32, sequence: nat): (p: seq<Packet>)
    requires forall k | 0 <= k < |f| :: f[k].position + f[k].size <= |data|
    ensures |p| == |f|
  {
    if f == [] then []
    else [Packet(data[f[0].position..f[0].position + f[0].size], |f| == 1, sequence, timestamp)]
         + PacketsOfFragments(data, f[1..], timestamp, sequence + 1)
  }

  lemma NextFragment(data: seq<byte>, f: seq<Fragment>, timestamp: uint32, sequence: nat)
    requires f != [] && forall k | 0 <= k < |f| :: f[k].position + f[k].size <= |data|
    ensures forall k | 0 <= k < |f[1..]| :: f[1..][k].position + f[1..][k].size <= |data|
    ensures
      var p := PacketsOfFragments(data, f, timestamp, sequence);
      && p[0] == Packet(data[f[0].position..f[0].position + f[0].size], f[1..] == [], sequence, timestamp)
      && p[1..] == PacketsOfFragments(data, f[1..], timestamp, sequence + 1)
  {
  }

  lemma {:induction false} SomeFragment(size: nat)
    requires size > 0
    ensures Fragments(0, size) != []
  {
  }

  /** Draining the fragmenter yields the chunks. */
  lemma {:induction false} FragmentsAreChunks(data: seq<byte>, position: nat, timestamp: uint32, sequence: nat)
    requires position <= |data|
    ensures
      var f := Fragments(position, |data| - position);
      && (forall k | 0 <= k < |f| :: f[k].position + f[k].size <= |data|)
      && PacketsOfFragments(data, f, timestamp, sequence) == PacketsOf(data[position..], timestamp, sequence)
    decreases |data| - position
  {
    DrainAll(data, position);
    var f := Fragments(position, |data| - position);
    if f != [] {
      var next := position + f[0].size;
      FragmentsAreChunks(data, next, timestamp, sequence + 1);
      assert f[1..] == Fragments(next, |data| - next);
      assert data[position..][..f[0].size] == data[position..next];
      assert data[position..][f[0].size..] == data[next..];
      if |data| - position <= FRAGMENT_MAX {
        assert data[position..next] == data[position..];
      }
    }
  }

  lemma SliceOfStart(s: seq<byte>, n: nat, i: nat, j: nat)
    requires i <= j <= n <= |s|
    ensures s[..n][i..j] == s[i..j]
  {
  }

  class Packager {
    var videoSeqNum: nat
    const outBuff: array<byte>
    const rtpBuffer: array<byte>
    var hasSink: bool
    var sent: seq<seq<byte>>      // what the sink has received

    ghost predicate Valid()
      reads this
    {
      outBuff != rtpBuffer && outBuff.Length == rtpBuffer.Length == 2000
    }

    constructor (sink: bool)
      ensures Valid() && fresh(outBuff) && fresh(rtpBuffer)
      ensures videoSeqNum == 0 && sent == [] && hasSink == sink
    {
      videoSeqNum, sent, hasSink := 0, [], sink;
      outBuff := new byte[2000];
      rtpBuffer := new byte[2000];
    }

    /** Lines 46-101 for a video packet. An empty frame would never leave the loop. */
    method ReceivePacket(packet: array<byte>, size: nat, packetDts: int, millis: nat)
      requires Valid() && 0 < size <= packet.Length && packet != outBuff && packet != rtpBuffer
      modifies this, outBuff, rtpBuffer
      ensures Valid() && hasSink == old(hasSink)
      ensures
        var p := PacketsOf(old(packet[..size]), TimestampOf(packetDts, millis), old(videoSeqNum));
        && sent == old(sent) + (if hasSink then WrapAll(p) else [])
        && videoSeqNum == old(videoSeqNum) + |p|
    {
      hide Wrap, PacketsOf, PacketsOfFragments, Fragments, TimestampOf;
      ghost var data, start := packet[..size], videoSeqNum;
      var ts := Stamp(packetDts, millis);
      ghost var all := PacketsOf(data, ts, start);
      var frag := new RtpFragmenter(packet, size);
      var lastFrame := false;
      assert data[0..] == data;
      FragmentsAreChunks(data, 0, ts, start);
      SomeFragment(size);
      ghost var done: nat := 0;
      assert all[0..] == all && WrapAll(all[..0]) == [];
      hide WrapAll;
      while !lastFrame
        invariant Valid() && frag.Valid() && frag.totalData == packet && frag.totalLength == size
        invariant packet[..size] == data && fresh(frag)
        invariant lastFrame == (frag.fragmentQueue == [])
        invariant forall k | 0 <= k < |frag.fragmentQueue| ::
                    frag.fragmentQueue[k].position + frag.fragmentQueue[k].size <= size
        invariant done <= |all| && videoSeqNum == start + done
        invariant PacketsOfFragments(data, frag.fragmentQueue, ts, videoSeqNum) == all[done..]
        invariant hasSink == old(hasSink) && sent == old(sent) + (if hasSink then WrapAll(all[..done]) else [])
        decreases |frag.fragmentQueue|
      {
        ghost var p := PacketsOfFragments(data, frag.fragmentQueue, ts, videoSeqNum);
        NextFragment(data, frag.fragmentQueue, ts, videoSeqNum);
        lastFrame := SendFragment(frag, ts, data);
        assert p[0] == all[done] && p[1..] == all[done + 1..];
        WrapOneMore(all, done);
        done := done + 1;
      }
      assert all[..done] == all;
    }

    /** Lines 55 and 74-78. */
    method Stamp(packetDts: int, millis: nat) returns (timestamp: uint32)
      ensures timestamp == TimestampOf(packetDts, millis)
    {
      var dts := NarrowedDts(packetDts);
      if dts == 0 {
        timestamp := 90 * millis % 0x1_0000_0000;
      } else {
        timestamp := 90 * dts % 0x1_0000_0000;
      }
    }

    /** One round of the loop of line 68: the next fragment behind a header, to the sink. */
    method SendFragment(frag: RtpFragmenter, timestamp: uint32, ghost data: seq<byte>) returns (lastFrame: bool)
      requires Valid() && frag.Valid() && frag.fragmentQueue != []
      requires frag.totalData != outBuff && frag.totalData != rtpBuffer
      requires frag.totalLength <= frag.totalData.Length && frag.totalData[..frag.totalLength] == data
      modifies this, outBuff, rtpBuffer, frag
      ensures Valid() && frag.Valid() && frag.totalData[..frag.totalLength] == data && hasSink == old(hasSink)
      ensures frag.fragmentQueue == old(frag.fragmentQueue)[1..] && videoSeqNum == old(videoSeqNum) + 1
      ensures lastFrame == (frag.fragmentQueue == [])
      ensures
        var f := old(frag.fragmentQueue)[0];
        && f.position + f.size <= |data|
        && sent == old(sent) +
             if hasSink then
               [Wrap(Packet(data[f.position..f.position + f.size], lastFrame, old(videoSeqNum), timestamp))]
             else []
    {
      hide HeaderOf, Memory;
      var outlen: nat := 0;
      ghost var f := frag.fragmentQueue[0];
      outlen, lastFrame := frag.GetPacket(outBuff, outlen, false);
      ghost var payload := data[f.position..f.position + f.size];
      assert frag.totalData[f.position..f.position + f.size] == payload by {
        SliceOfStart(frag.totalData[..], frag.totalLength, f.position, f.position + f.size);
      }
      SendBuffer(outlen, lastFrame, timestamp);
    }

    /** Lines 71-91: the first bytes of the buffer behind a header, to the sink. */
    method SendBuffer(outlen: nat, lastFrame: bool, timestamp: uint32)
      requires Valid() && outlen <= FRAGMENT_MAX
      modifies this, rtpBuffer
      ensures Valid() && hasSink == old(hasSink) && videoSeqNum == old(videoSeqNum) + 1
      ensures sent == old(sent) +
                if hasSink then [Wrap(Packet(outBuff[..outlen], lastFrame, old(videoSeqNum), timestamp))] else []
    {
      hide HeaderOf, Memory;
      var header := MakeHeader(lastFrame, videoSeqNum, timestamp);
      videoSeqNum := videoSeqNum + 1;
      Assemble(Memory(header), outlen);
      if hasSink {
        sent := sent + [rtpBuffer[..outlen + MIN_SIZE]];
      }
    }

    /** The same loop for a frame without bytes, seen after any number of rounds: it has not ended, and
        has sent a header without payload or marker in every round. So only non-empty frames end. */
    method ReceiveEmptyPacket(packet: array<byte>, timestamp: uint32, rounds: nat) returns (lastFrame: bool)
      requires Valid() && packet != outBuff && packet != rtpBuffer
      modifies this, outBuff, rtpBuffer
      ensures Valid() && !lastFrame && hasSink == old(hasSink) && videoSeqNum == old(videoSeqNum) + rounds
      ensures sent == old(sent) + if hasSink then WrapAll(BareHeaders(rounds, timestamp, old(videoSeqNum))) else []
    {
      hide Wrap, HeaderOf, Memory;
      var frag := new RtpFragmenter(packet, 0);
      lastFrame := false;
      var k := 0;
      assert WrapAll(BareHeaders(0, timestamp, videoSeqNum)) == [];
      hide WrapAll, BareHeaders;
      while !lastFrame && k < rounds
        invariant Valid() && frag.Valid() && fresh(frag) && frag.totalData == packet && frag.fragmentQueue == []
        invariant 0 <= k <= rounds && !lastFrame && hasSink == old(hasSink) && videoSeqNum == old(videoSeqNum) + k
        invariant sent == old(sent) + if hasSink then WrapAll(BareHeaders(k, timestamp, old(videoSeqNum))) else []
        decreases rounds - k
      {
        var outlen: nat := 0;
        outlen, lastFrame := frag.GetPacket(outBuff, outlen, lastFrame);
        SendBuffer(outlen, lastFrame, timestamp);
        OneMoreHeader(k, timestamp, old(videoSeqNum));
        assert outBuff[..0] == [];
        k := k + 1;
      }
    }

    /** Lines 81-84. */
    method Assemble(header: seq<byte>, outlen: nat)
      requires Valid() && |header| == MIN_SIZE && outlen <= FRAGMENT_MAX
      modifies rtpBuffer
      ensures rtpBuffer[..outlen + MIN_SIZE] == header + outBuff[..outlen]
    {
      Copy(header, rtpBuffer, 0);
      assert rtpBuffer[..MIN_SIZE] == header;
      Copy(outBuff[..outlen], rtpBuffer, MIN_SIZE);
      assert rtpBuffer[..outlen + MIN_SIZE] == rtpBuffer[..MIN_SIZE] + rtpBuffer[MIN_SIZE..MIN_SIZE + outlen];
    }

    /** Lines 71-80. */
    method MakeHeader(lastFrame: bool, sequence: nat, timestamp: uint32) returns (h: Stored)
      ensures h == HeaderOf(lastFrame, sequence, timestamp)
    {
      hide Swap16, Swap32, Memory, RtpHeader.Wire;
      var rtpHeader := new RtpHeader();
      rtpHeader.SetMarker(if lastFrame then 1 else 0);
      rtpHeader.SetSeqNumber(sequence % 0x1_0000);
      rtpHeader.SetTimestamp(timestamp);
      rtpHeader.SetSSRC(SSRC);
      rtpHeader.SetPayloadType(PAYLOAD_TYPE);
      h := rtpHeader.stored;
      SameHeader(h, lastFrame, sequence, timestamp);
    }

    /** `memcpy` to offset `at` of a buffer. */
    method Copy(b: seq<byte>, buffer: array<byte>, at: nat)
      requires at + |b| <= buffer.Length
      modifies buffer
      ensures buffer[at..at + |b|] == b && buffer[..at] == old(buffer[..at])
    {
      var i := 0;
      while i < |b|
        invariant 0 <= i <= |b|
        invariant buffer[at..at + i] == b[..i] && buffer[..at] == old(buffer[..at])
      {
        buffer[at + i] := b[i];
        i := i + 1;
      }
    }
  }

  /** Packets without payload or marker. */
  function BareHeaders(n: nat, timestamp: uint32, sequence: nat): seq<Packet> {
    seq(n, k requires 0 <= k < n => Packet([], false, sequence + k, timestamp))
  }

  lemma OneMoreHeader(n: nat, timestamp: uint32, sequence: nat)
    ensures WrapAll(BareHeaders(n + 1, timestamp, sequence))
         == WrapAll(BareHeaders(n, timestamp, sequence)) + [Wrap(Packet([], false, sequence + n, timestamp))]
  {
    hide Wrap;
  }

  lemma WrapOneMore(p: seq<Packet>, k: nat)
    requires k < |p|
    ensures WrapAll(p[..k + 1]) == WrapAll(p[..k]) + [Wrap(p[k])]
  {
    hide Wrap;
  }

  /** A header is determined by what its getters return. */
  lemma SameHeader(h: Stored, last: bool, sequence: nat, timestamp: uint32)
    requires h == Stored(0, 0, 0, 2, PAYLOAD_TYPE, if last then 1 else 0, h.seqnum, h.timestamp, h.ssrc)
    requires Swap16(h.seqnum) == sequence % 0x1_0000 && Swap32(h.timestamp) == timestamp && Swap32(h.ssrc) == SSRC
    ensures h == HeaderOf(last, sequence, timestamp)
  {
    Swapping16(h.seqnum);
    Swapping32(h.timestamp);
    Swapping32(h.ssrc);
  }
}
