/** src/libs/rtp/RtpFragmenter.cpp: cutting a frame into fragments. */
module Fragmenter {
  import opened Bytes

  /** `MAX_SIZE - 1` of line 7: the fragments carry no VP8 descriptor, but its byte is left free. */
  const FRAGMENT_MAX := 1099

  datatype Fragment = Fragment(position: nat, size: nat, first: bool)

  /** The fragments of `remaining` bytes from `position` on. */
  function Fragments(position: nat, remaining: nat): seq<Fragment>
    decreases remaining
  {
    if remaining == 0 then []
    else
      var size := if remaining > FRAGMENT_MAX then FRAGMENT_MAX else remaining;
      [Fragment(position, size, position == 0)] + Fragments(position + size, remaining - size)
  }

  /** The fragments are contiguous and in order, cover exactly the given bytes, and all but the last
      are full; there are as many as needed, and only the one at 0 is marked as first. */
  lemma {:induction false} Partition(position: nat, remaining: nat)
    ensures
      var f := Fragments(position, remaining);
      && |f| == (remaining + FRAGMENT_MAX - 1) / FRAGMENT_MAX
      && (forall k | 0 <= k < |f| ::
            && f[k].position == position + FRAGMENT_MAX * k
            && f[k].size == (if k < |f| - 1 then FRAGMENT_MAX else remaining - FRAGMENT_MAX * k)
            && 1 <= f[k].size <= FRAGMENT_MAX
            && f[k].first == (f[k].position == 0))
    decreases remaining
  {
    if remaining > FRAGMENT_MAX {
      Partition(position + FRAGMENT_MAX, remaining - FRAGMENT_MAX);
      var f := Fragments(position, remaining);
      var g := Fragments(position + FRAGMENT_MAX, remaining - FRAGMENT_MAX);
      assert forall k | 1 <= k < |f| :: f[k] == g[k-1];
    }
  }

  /** The bytes that draining the fragments yields. */
  function Drained(data: seq<byte>, f: seq<Fragment>): seq<byte>
    requires forall k | 0 <= k < |f| :: f[k].position + f[k].size <= |data|
  {
    if f == [] then []
    else data[f[0].position..f[0].position + f[0].size] + Drained(data, f[1..])
  }

  /** Draining all fragments gives the input back. */
  lemma {:induction false} DrainAll(data: seq<byte>, position: nat)
    requires position <= |data|
    ensures
      var f := Fragments(position, |data| - position);
      && (forall k | 0 <= k < |f| :: f[k].position + f[k].size <= |data|)
      && Drained(data, f) == data[position..]
    decreases |data| - position
  {
    var f := Fragments(position, |data| - position);
    if f != [] {
      var next := position + f[0].size;
      DrainAll(data, next);
      assert f[1..] == Fragments(next, |data| - next);
      assert data[position..] == data[position..next] + data[next..];
    }
  }

  /** A fragment lies inside the data and fits a packet. */
  lemma {:induction false} InBounds(size: nat, k: nat)
    requires k < |Fragments(0, size)|
    ensures
      var f := Fragments(0, size)[k];
      f.position + f.size <= size && f.size <= FRAGMENT_MAX
  {
    Partition(0, size);
  }

  class RtpFragmenter {
    const totalData: array<byte>
    const totalLength: nat
    var fragmentQueue: seq<Fragment>

    /** The queue is what is left of the fragments. */
    ghost predicate Valid()
      reads this
    {
      totalLength <= totalData.Length
      && exists done | 0 <= done <= |Fragments(0, totalLength)| :: fragmentQueue == Fragments(0, totalLength)[done..]
    }

    constructor (data: array<byte>, length: nat)
      requires length <= data.Length
      ensures totalData == data && totalLength == length
      ensures fragmentQueue == Fragments(0, length) && Valid()
    {
      totalData, totalLength := data, length;
      fragmentQueue := [];
      new;
      CalculatePackets();
      assert fragmentQueue == Fragments(0, totalLength)[0..];
    }

    /** Lines 36-54. */
    method CalculatePackets()
      requires fragmentQueue == []
      modifies this
      ensures fragmentQueue == Fragments(0, totalLength)
    {
      var remaining: nat := totalLength;
      var currentPos: nat := 0;
      while remaining > 0
        invariant currentPos + remaining == totalLength
        invariant fragmentQueue + Fragments(currentPos, remaining) == Fragments(0, totalLength)
        decreases remaining
      {
        var first := false;
        if currentPos == 0 {
          first := true;
        }
        var size := if remaining > FRAGMENT_MAX then FRAGMENT_MAX else remaining;
        assert fragmentQueue + ([Fragment(currentPos, size, first)] + Fragments(currentPos + size, remaining - size))
            == fragmentQueue + [Fragment(currentPos, size, first)] + Fragments(currentPos + size, remaining - size);
        fragmentQueue := fragmentQueue + [Fragment(currentPos, size, first)];
        currentPos := currentPos + size;
        remaining := remaining - size;
      }
      assert fragmentQueue + [] == fragmentQueue;
    }

    /** Lines 24-34 and 63-66: the next fragment is copied to the start of the buffer; `lastPacket`
        turns true when it was the last one. With no fragment left nothing is written. */
    method GetPacket(data: array<byte>, length: nat, lastPacket: bool) returns (length': nat, lastPacket': bool)
      requires Valid() && data != totalData && data.Length >= FRAGMENT_MAX
      modifies this, data
      ensures Valid()
      ensures old(fragmentQueue) == [] ==>
                data[..] == old(data[..]) && length' == length && lastPacket' == lastPacket && fragmentQueue == []
      ensures old(fragmentQueue) != [] ==>
        var f := old(fragmentQueue)[0];
        && f.position + f.size <= totalLength && f.size <= FRAGMENT_MAX
        && length' == f.size && data[..f.size] == old(totalData[..])[f.position..f.position + f.size]
        && data[f.size..] == old(data[f.size..])
        && fragmentQueue == old(fragmentQueue)[1..]
        && lastPacket' == (lastPacket || fragmentQueue == [])
    {
      length', lastPacket' := length, lastPacket;
      hide Fragments;
      if |fragmentQueue| > 0 {
        var test := fragmentQueue[0];
        ghost var all := Fragments(0, totalLength);
        ghost var done :| 0 <= done <= |all| && fragmentQueue == all[done..];
        InBounds(totalLength, done);
        WriteFragment(test, data);
        length' := test.size;
        fragmentQueue := fragmentQueue[1..];
        assert fragmentQueue == Fragments(0, totalLength)[done + 1..];
        if fragmentQueue == [] {
          lastPacket' := true;
        }
      }
    }

    /** Lines 56-67 without the VP8 branch: `memcpy` of one fragment. */
    method WriteFragment(fragment: Fragment, buffer: array<byte>)
      requires buffer != totalData && fragment.size <= buffer.Length
      requires fragment.position + fragment.size <= totalData.Length
      modifies buffer
      ensures buffer[..fragment.size] == totalData[fragment.position..fragment.position + fragment.size]
      ensures buffer[fragment.size..] == old(buffer[fragment.size..])
    {
      var i := 0;
      while i < fragment.size
        invariant 0 <= i <= fragment.size
        invariant buffer[..i] == totalData[fragment.position..fragment.position + i]
        invariant buffer[fragment.size..] == old(buffer[fragment.size..])
      {
        buffer[i] := totalData[fragment.position + i];
        i := i + 1;
      }
    }
  }
}
