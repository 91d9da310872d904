/** src/libs/Unpackager.cpp: reassembling frames from RTP packets. */
module Unpackager {
  import opened Bytes
  import opened RtpHeaders

  const BUFFER_SIZE := 1500000

  datatype Frame = Frame(data: seq<byte>, dts: int)

  /** The receiver's state: bytes of the unfinished frame, the first media time (-1: none yet), and
      the frames handed to the sink. */
  datatype State = State(pending: seq<byte>, first: int, frames: seq<Frame>)

  const FRESH := State([], -1, [])

  /** The C++ quotient, which truncates toward zero. */
  function Quotient(a: int, b: nat): int
    requires b > 0
  {
    if a >= 0 then a / b else -((-a) / b)
  }

  /** The packet is at least as long as its header says. */
  predicate Readable(b: seq<byte>) {
    && |b| >= MIN_SIZE && (View(b).hasextension == 1 ==> |b| >= 16)
    && HeaderLength(b) <= |b|
  }

  function Payload(b: seq<byte>): seq<byte>
    requires Readable(b)
  {
    b[HeaderLength(b)..]
  }

  function Timestamp(b: seq<byte>): uint32
    requires Readable(b)
  {
    Swap32(View(b).timestamp)
  }

  predicate Marked(b: seq<byte>)
    requires Readable(b)
  {
    View(b).marker == 1
  }

  /** What one packet does: its payload is appended; the marker ends the frame, stamped in
      milliseconds since the first frame received. */
  function Accept(s: State, payload: seq<byte>, marked: bool, timestamp: uint32): State {
    var pending := s.pending + payload;
    if !marked then s.(pending := pending)
    else
      var first := if s.first == -1 then timestamp else s.first;
      State([], first, s.frames + [Frame(pending, Quotient(timestamp - first, 90))])
  }

  function Receive(s: State, b: seq<byte>): State
    requires Readable(b)
  {
    Accept(s, Payload(b), Marked(b), Timestamp(b))
  }

  /** What comes of packets: a state, or a copy past the end of the buffer. */
  datatype Reception = Received(state: State) | Overrun

  /** The unchecked copy of line 53 stays within the buffer. */
  predicate HasRoom(s: State, payload: seq<byte>) {
    |s.pending| + |payload| <= BUFFER_SIZE
  }

  class Unpackager {
    const buffer: array<byte>           // the allocation of `init`
    var position: nat                   // `unpackagedBuffer_`, as an offset into it
    var size: nat                       // `upackagedSize_`
    var firstVideoTimestamp: int
    var hasSink: bool
    var delivered: seq<Frame>

    ghost predicate Valid()
      reads this
    {
      buffer.Length == BUFFER_SIZE && position == size <= BUFFER_SIZE
    }

    ghost function Abstract(): State
      reads this, buffer
      requires Valid()
    {
      State(buffer[..size], firstVideoTimestamp, delivered)
    }

    constructor (sink: bool)
      ensures Valid() && Abstract() == FRESH && hasSink == sink && fresh(buffer)
    {
      buffer := new byte[BUFFER_SIZE];
      position, size, firstVideoTimestamp, hasSink, delivered := 0, 0, -1, sink, [];
    }

    /** Lines 32-92. The accumulated frame has to fit the buffer, which the code does not check. */
    method ReceiveRtpPacket(inBuff: array<byte>, buffSize: nat)
      requires Valid() && inBuff != buffer && buffSize <= inBuff.Length && Readable(inBuff[..buffSize])
      requires HasRoom(Abstract(), Payload(inBuff[..buffSize]))
      modifies this, buffer
      ensures Valid() && hasSink == old(hasSink)
      ensures
        var s := Receive(old(Abstract()), old(inBuff[..buffSize]));
        Abstract() == if hasSink then s else s.(frames := old(delivered))
    {
      hide View, HeaderLength, Swap32;
      ghost var b := inBuff[..buffSize];
      ghost var s := Abstract();
      var head := View(inBuff[..buffSize]);
      var inBuffOffset := HeaderLength(inBuff[..buffSize]);
      var l := buffSize - inBuffOffset;
      Append(inBuff, inBuffOffset, l);
      assert buffer[..position + l] == s.pending + Payload(b);
      size := size + l;
      position := position + l;
      if head.marker == 1 {
        position := position - size;
        var data := buffer[position..position + size];
        if firstVideoTimestamp == -1 {
          firstVideoTimestamp := Swap32(head.timestamp);
        }
        var timestampToWrite := Quotient(Swap32(head.timestamp) - firstVideoTimestamp, 90000 / 1000);
        if hasSink {
          delivered := delivered + [Frame(data, timestampToWrite)];
        }
        size := 0;
      }
    }

    /** The `memcpy` of line 53. */
    method Append(inBuff: array<byte>, offset: nat, l: nat)
      requires Valid() && inBuff != buffer && offset + l <= inBuff.Length && position + l <= BUFFER_SIZE
      modifies buffer
      ensures buffer[..position] == old(buffer[..position])
      ensures buffer[..position + l] == old(buffer[..position]) + inBuff[offset..offset + l]
    {
      var i := 0;
      while i < l
        invariant 0 <= i <= l
        invariant buffer[..position] == old(buffer[..position])
        invariant buffer[position..position + i] == inBuff[offset..offset + i]
      {
        buffer[position + i] := inBuff[offset + i];
        i := i + 1;
      }
      assert buffer[..position + l] == buffer[..position] + buffer[position..position + l];
    }
  }
}
