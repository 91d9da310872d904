/** The headers of src/libs/rtp/RtpHeaders.h. */
module RtpHeaders {
  import opened Bytes

  const MIN_SIZE := 12

  /** The first twelve bytes of `class RtpHeader` as the compiler stores them: bit-fields packed from
      the least significant bit, multi-byte fields holding byte-swapped values. */
  datatype Stored = Stored(
    cc: int, hasextension: int, padding: int, version: int,
    payloadtype: int, marker: int, seqnum: uint16, timestamp: uint32, ssrc: uint32)

  /** Every bit-field holds a value of its width. */
  predicate InWidth(h: Stored) {
    && 0 <= h.cc < 16 && 0 <= h.hasextension < 2 && 0 <= h.padding < 2 && 0 <= h.version < 4
    && 0 <= h.payloadtype < 128 && 0 <= h.marker < 2
  }

  function FirstByte(h: Stored): (b: byte)
    requires InWidth(h)
  {
    h.cc + 0x10 * (h.hasextension + 2 * (h.padding + 2 * h.version))
  }

  function SecondByte(h: Stored): (b: byte)
    requires InWidth(h)
  {
    h.payloadtype + 0x80 * h.marker
  }

  /** The memory image. */
  function Memory(h: Stored): (b: seq<byte>)
    requires InWidth(h)
    ensures |b| == MIN_SIZE
  {
    [FirstByte(h), SecondByte(h)] + Little16(h.seqnum) + Little32(h.timestamp) + Little32(h.ssrc)
  }

  /** What a `reinterpret_cast<RtpHeader*>` of a buffer sees. */
  function View(b: seq<byte>): (h: Stored)
    requires |b| >= MIN_SIZE
    ensures InWidth(h)
  {
    var x := b[0] / 0x10;
    Stored(b[0] % 0x10, x % 2, x / 2 % 2, x / 2 / 2, b[1] % 0x80, b[1] / 0x80, (b[2] as int) + 0x100 * (b[3] as int),
           FromLittle32(b[4..8]), FromLittle32(b[8..12]))
  }

  /** The fixed header of section 5.1 of RFC 3550, field by field in network order. */
  function Rfc3550(version: int, padding: int, extension: int, cc: int, marker: int, payloadType: int,
                   sequence: uint16, timestamp: uint32, ssrc: uint32): seq<byte>
    requires 0 <= version < 4 && 0 <= padding < 2 && 0 <= extension < 2 && 0 <= cc < 16
    requires 0 <= marker < 2 && 0 <= payloadType < 128
  {
    [version * 0x40 + padding * 0x20 + extension * 0x10 + cc, marker * 0x80 + payloadType]
    + Big16(sequence) + Big32(timestamp) + Big32(ssrc)
  }

  /** The stored header is laid out on the wire as the RFC prescribes. */
  lemma WireLayout(h: Stored)
    requires InWidth(h)
    ensures Memory(h) == Rfc3550(h.version, h.padding, h.hasextension, h.cc, h.marker, h.payloadtype,
                                 Swap16(h.seqnum), Swap32(h.timestamp), Swap32(h.ssrc))
  {
    Swapping32(Swap32(h.timestamp));
    Swapping32(Swap32(h.ssrc));
    Swapping16(Swap16(h.seqnum));
    Swapping32(h.timestamp);
    Swapping32(h.ssrc);
    Swapping16(h.seqnum);
  }

  lemma FlagBits(h: Stored)
    requires InWidth(h)
    ensures
      var x := FirstByte(h) / 0x10;
      FirstByte(h) % 0x10 == h.cc && x % 2 == h.hasextension && x / 2 % 2 == h.padding && x / 2 / 2 == h.version
    ensures SecondByte(h) % 0x80 == h.payloadtype && SecondByte(h) / 0x80 == h.marker
  {
    DivideOut(h.cc, h.hasextension + 2 * (h.padding + 2 * h.version), 0x10);
    DivideOut(h.hasextension, h.padding + 2 * h.version, 2);
    DivideOut(h.padding, h.version, 2);
    DivideOut(h.payloadtype, h.marker, 0x80);
  }

  /** Writing a header and looking at the bytes gives every field back. */
  lemma ViewOfMemory(h: Stored, rest: seq<byte>)
    requires InWidth(h)
    ensures View(Memory(h) + rest) == h
  {
    var b := Memory(h) + rest;
    FlagBits(h);
    assert b[0] == FirstByte(h) && b[1] == SecondByte(h) && b[2] == h.seqnum % 0x100 && b[3] == h.seqnum / 0x100;
    assert b[4..8] == Little32(h.timestamp) && b[8..12] == Little32(h.ssrc);
    LittleRoundTrip(h.timestamp, b[4..8]);
    LittleRoundTrip(h.ssrc, b[4..8]);
  }

  /** Looking at twelve bytes and writing the header gives the bytes back. */
  lemma MemoryOfView(b: seq<byte>)
    requires |b| == MIN_SIZE
    ensures Memory(View(b)) == b
  {
    var h := View(b);
    assert FirstByte(h) == b[0] && SecondByte(h) == b[1];
    DivideOut(b[2], b[3], 0x100);
    LittleRoundTrip(h.timestamp, b[4..8]);
    LittleRoundTrip(h.ssrc, b[8..12]);
    assert b == [b[0], b[1]] + [b[2], b[3]] + b[4..8] + b[8..12];
  }

  /** `class RtpHeader`: setters truncate to the field's width and swap bytes. */
  class RtpHeader {
    var stored: Stored

    ghost predicate Valid()
      reads this
    {
      InWidth(stored)
    }

    constructor ()
      ensures Valid() && stored == Stored(0, 0, 0, 2, 0, 0, 0, 0, 0)
    {
      stored := Stored(0, 0, 0, 2, 0, 0, 0, 0, 0);
    }

    /** The getter returns the lowest bit, and of the wire bytes only the top bit of the second changes. */
    method SetMarker(aMarker: byte)
      requires Valid()
      modifies this
      ensures Valid() && stored == old(stored).(marker := stored.marker) && GetMarker() == aMarker % 2
      ensures Wire() == old(Wire())[1 := old(Wire())[1] % 0x80 + 0x80 * (aMarker % 2)]
    {
      FlagBits(stored);
      stored := stored.(marker := aMarker % 2);
    }

    /** The getter returns the low seven bits, and of the wire bytes only those of the second change. */
    method SetPayloadType(aType: byte)
      requires Valid()
      modifies this
      ensures Valid() && stored == old(stored).(payloadtype := stored.payloadtype) && GetPayloadType() == aType % 128
      ensures Wire() == old(Wire())[1 := old(Wire())[1] / 0x80 * 0x80 + aType % 128]
    {
      FlagBits(stored);
      stored := stored.(payloadtype := aType % 128);
    }

    method SetSeqNumber(aSeqNumber: uint16)
      requires Valid()
      modifies this
      ensures Valid() && stored == old(stored).(seqnum := stored.seqnum) && GetSeqNumber() == aSeqNumber
    {
      stored := stored.(seqnum := Swap16(aSeqNumber));
      Swapping16(aSeqNumber);
    }

    method SetTimestamp(aTimestamp: uint32)
      requires Valid()
      modifies this
      ensures Valid() && stored == old(stored).(timestamp := stored.timestamp) && GetTimestamp() == aTimestamp
    {
      stored := stored.(timestamp := Swap32(aTimestamp));
      Swapping32(aTimestamp);
    }

    method SetSSRC(aSSRC: uint32)
      requires Valid()
      modifies this
      ensures Valid() && stored == old(stored).(ssrc := stored.ssrc) && GetSSRC() == aSSRC
    {
      stored := stored.(ssrc := Swap32(aSSRC));
      Swapping32(aSSRC);
    }

    /** The header's bytes as they are sent. */
    ghost function Wire(): (b: seq<byte>)
      reads this
      requires Valid()
      ensures |b| == MIN_SIZE
    {
      Memory(stored)
    }

    function GetMarker(): int
      reads this
    {
      stored.marker
    }

    function GetPayloadType(): int
      reads this
    {
      stored.payloadtype
    }

    function GetSeqNumber(): uint16
      reads this
    {
      Swap16(stored.seqnum)
    }

    function GetTimestamp(): uint32
      reads this
    {
      Swap32(stored.timestamp)
    }

    function GetSSRC(): uint32
      reads this
    {
      Swap32(stored.ssrc)
    }
  }

  /** `getHeaderLength` on a received buffer. The extension length is read at a fixed offset. */
  function HeaderLength(b: seq<byte>): (n: nat)
    requires |b| >= MIN_SIZE
    requires View(b).hasextension == 1 ==> |b| >= 16
    ensures n >= MIN_SIZE
  {
    var h := View(b);
    MIN_SIZE + h.cc * 4 + if h.hasextension == 1 then 4 + ((b[14] as int) * 0x100 + (b[15] as int)) * 4 else 0
  }

  /** Where the header of a packet ends by sections 5.1 and 5.3.1 of RFC 3550: behind the contributing
      sources, and behind an extension, which gives its number of words after its first two bytes. */
  function RfcHeaderLength(b: seq<byte>): nat
    requires |b| >= MIN_SIZE && |b| >= MIN_SIZE + 4 * (b[0] % 0x10) + 4
  {
    var sources := MIN_SIZE + 4 * (b[0] % 0x10);
    if b[0] / 0x10 % 2 == 0 then sources
    else sources + 4 + 4 * ((b[sources + 2] as int) * 0x100 + (b[sources + 3] as int))
  }

  /** The code finds that end exactly if the packet has no extension, or the number of words that it reads
      behind the fixed header is that of the extension, as it is without contributing sources. */
  lemma HeaderLengthExactly(b: seq<byte>)
    requires |b| >= MIN_SIZE && |b| >= MIN_SIZE + 4 * (b[0] % 0x10) + 4
    ensures
      var end := MIN_SIZE + 4 * (b[0] % 0x10);
      HeaderLength(b) == RfcHeaderLength(b)
      <==> b[0] / 0x10 % 2 == 0 || (b[14] == b[end + 2] && b[15] == b[end + 3])
    ensures b[0] / 0x10 % 2 == 0 ==> HeaderLength(b) == MIN_SIZE + 4 * (b[0] % 0x10)
    ensures b[0] % 0x10 == 0 ==> HeaderLength(b) == RfcHeaderLength(b)
  {
    var end := MIN_SIZE + 4 * (b[0] % 0x10);
    hide FromLittle32;
    assert View(b).cc == b[0] % 0x10 && View(b).hasextension == b[0] / 0x10 % 2;
  }

  // ---------- 24-bit fields ----------

  /** `htonl(x) >> 8` stored in 24 bits. */
  function Store24(x: uint32): uint24 {
    Swap32(x) / 0x100
  }

  /** `ntohl(v) >> 8`. */
  function Load24(v: uint32): uint24 {
    Swap32(v) / 0x100
  }

  /** `int32_t lost : 24`: the field sign-extends when it is read as a 32-bit number. */
  function SignExtend24(v: uint24): uint32 {
    if v >= 0x80_0000 then v + 0xFF00_0000 else v
  }

  class AbsSendTimeExtension {
    var absData: uint24

    method SetAbsSendTime(aTime: uint32)
      modifies this
      ensures GetAbsSendTime() == aTime % 0x100_0000
    {
      absData := Store24(aTime);
      Low24(aTime);
    }

    function GetAbsSendTime(): uint32
      reads this
    {
      Load24(absData)
    }
  }

  /** The stored bytes, and what reading them back does with any fourth byte. */
  lemma Store24Bytes(x: uint32)
    ensures
      var w := Split(x);
      && Store24(x) == Value(Word(w.b2, w.b1, w.b0, 0))
      && forall top: byte :: Load24(Value(Word(w.b2, w.b1, w.b0, top))) == w.b0 + 0x100 * (w.b1 + 0x100 * w.b2)
  {
    var w := Split(x);
    DivideOut(w.b3, w.b2 + 0x100 * (w.b1 + 0x100 * w.b0), 0x100);
    forall top: byte
      ensures Load24(Value(Word(w.b2, w.b1, w.b0, top))) == w.b0 + 0x100 * (w.b1 + 0x100 * w.b2)
    {
      SplitValue(Word(w.b2, w.b1, w.b0, top));
      DivideOut(top, w.b0 + 0x100 * (w.b1 + 0x100 * w.b2), 0x100);
    }
  }

  lemma LowBytes(x: uint32)
    ensures
      var w := Split(x);
      x % 0x100_0000 == w.b0 + 0x100 * (w.b1 + 0x100 * w.b2)
  {
    var w := Split(x);
    DivideOut(w.b0 + 0x100 * (w.b1 + 0x100 * w.b2), w.b3, 0x100_0000);
    assert x == w.b0 + 0x100 * (w.b1 + 0x100 * w.b2) + 0x100_0000 * w.b3;
  }

  lemma SignExtendBytes(b0: byte, b1: byte, b2: byte)
    ensures
      var v := Value(Word(b0, b1, b2, 0));
      SignExtend24(v) == Value(Word(b0, b1, b2, 0)) || SignExtend24(v) == Value(Word(b0, b1, b2, 0xFF))
  {
  }

  /** Both 24-bit fields keep the low 24 bits, whether or not the field sign-extends. */
  lemma Low24(x: uint32)
    ensures Load24(Store24(x)) == x % 0x100_0000
    ensures Load24(SignExtend24(Store24(x))) == x % 0x100_0000
  {
    var w := Split(x);
    Store24Bytes(x);
    LowBytes(x);
    SignExtendBytes(w.b2, w.b1, w.b0);
  }

  // ---------- REMB bit rate ----------

  function Pow2(n: nat): (p: nat)
    ensures p >= 1
  {
    if n == 0 then 1 else 2 * Pow2(n - 1)
  }

  lemma Pow2Sum(a: nat, b: nat)
    ensures Pow2(a + b) == Pow2(a) * Pow2(b)
  {
    if a > 0 {
      Pow2Sum(a - 1, b);
    }
  }

  const MANTISSA_MAX := 0x3FFFF

  /** The least exponent that leaves fewer than 0x3FFFF units. */
  predicate IsExponent(b: nat, e: nat) {
    && b < MANTISSA_MAX * Pow2(e)
    && (e > 0 ==> MANTISSA_MAX * Pow2(e - 1) <= b)
  }

  /** `receiverReport.lost` and `rembPacket.brLength` of `class RtcpHeader`. */
  class RtcpHeader {
    var lost: uint24
    var brLength: uint24

    method SetLostPackets(lost: uint32)
      modifies this`lost
      ensures GetLostPackets() == lost % 0x100_0000
    {
      this.lost := Store24(lost);
      Low24(lost);
    }

    function GetLostPackets(): uint32
      reads this`lost
    {
      Load24(SignExtend24(lost))
    }

    /** The precondition is where the code is defined: from 2^64 - 2^46 on, the loop runs until
        `exp` is 64 and then shifts a 64-bit number by 64. */
    method SetREMBBitRate(bitRate: nat)
      requires bitRate < 0x1_0000_0000_0000_0000 - 0x4000_0000_0000
      modifies this`brLength
      ensures GetBrExp() < 64 && IsExponent(bitRate, GetBrExp())
      ensures GetBrMantis() < MANTISSA_MAX && GetBrMantis() == bitRate / Pow2(GetBrExp())
    {
      var exp := FindExponent(bitRate);
      var mantissa := bitRate / Pow2(exp);
      QuotientBelow(bitRate, Pow2(exp), MANTISSA_MAX);
      brLength := Store24(Pack(mantissa, exp));
      PackedFields(mantissa, exp);
    }

    /** The loop of line 441, with a 64-bit `max`. */
    method FindExponent(bitRate: nat) returns (exp: nat)
      requires bitRate < 0x1_0000_0000_0000_0000 - 0x4000_0000_0000
      ensures exp <= 46 && IsExponent(bitRate, exp)
    {
      var max := 0x3FFFF;
      exp := 0;
      while bitRate >= max && exp < 64
        invariant exp <= 46 && max == MANTISSA_MAX * Pow2(exp)
        invariant exp > 0 ==> MANTISSA_MAX * Pow2(exp - 1) <= bitRate
        decreases 64 - exp
      {
        MaxDoubles(bitRate, exp);
        exp := exp + 1;
        max := ShiftLeft1(max);
      }
    }

    function GetBrExp(): nat
      reads this`brLength
    {
      Swap32(brLength) / 0x400_0000
    }

    function GetBrMantis(): nat
      reads this`brLength
    {
      Swap32(brLength) / 0x100 % 0x4_0000
    }

    /** A 32-bit shift of a 32-bit mantissa: only defined for exponents below 32. */
    function GetREMBBitRate(): nat
      requires GetBrExp() < 32
      reads this`brLength
    {
      GetBrMantis() * Pow2(GetBrExp()) % 0x1_0000_0000
    }
  }

  /** `(mantissa & 0x3FFFF) + ((exp & 0x3F) << 18)`. */
  function Pack(mantissa: nat, exp: nat): (line: uint32)
    ensures line < 0x100_0000 && line % 0x4_0000 == mantissa % 0x4_0000 && line / 0x4_0000 == exp % 0x40
  {
    DivideOut(mantissa % 0x4_0000, exp % 0x40, 0x4_0000);
    mantissa % 0x4_0000 + 0x4_0000 * (exp % 0x40)
  }

  /** `max << 1` in 64 bits. */
  function ShiftLeft1(max: nat): (r: nat)
    ensures 2 * max < 0x1_0000_0000_0000_0000 ==> r == 2 * max
  {
    if 2 * max < 0x1_0000_0000_0000_0000 then 2 * max else 2 * max % 0x1_0000_0000_0000_0000
  }

  /** While the loop goes on, the bound can be doubled without leaving 64 bits. */
  lemma MaxDoubles(bitRate: nat, exp: nat)
    requires bitRate < 0x1_0000_0000_0000_0000 - 0x4000_0000_0000
    requires exp <= 46 && MANTISSA_MAX * Pow2(exp) <= bitRate
    ensures exp < 46 && MANTISSA_MAX * Pow2(exp + 1) < 0x1_0000_0000_0000_0000
  {
    Pow46();
    if exp < 46 {
      Pow2Monotone(exp + 1, 46);
    }
  }

  lemma Pow46()
    ensures MANTISSA_MAX * Pow2(46) == 0x1_0000_0000_0000_0000 - 0x4000_0000_0000
  {
    Pow2Sum(23, 23);
    Pow2Sum(11, 12);
    assert Pow2(11) == 2048 && Pow2(12) == 4096;
  }

  lemma {:induction false} Pow2Monotone(a: nat, b: nat)
    requires a <= b
    ensures Pow2(a) <= Pow2(b)
    ensures a < b ==> 2 * Pow2(a) <= Pow2(b)
  {
    if a < b {
      Pow2Monotone(a, b - 1);
    }
  }

  lemma QuotientBelow(b: nat, p: nat, m: nat)
    requires p > 0 && b < m * p
    ensures b / p < m
  {
    assert p * (m - b / p) == m * p - b + b % p;
    MulGrows(p, b / p - m);
    assert p * (b / p - m) < p;
  }

  /** With a zero fourth byte, swapping back shifts the 24 stored bits up by 8. */
  lemma SwapStored(line: uint32)
    requires line < 0x100_0000
    ensures Swap32(Store24(line)) == 0x100 * line
  {
    var w := Split(line);
    Store24Bytes(line);
    SplitValue(Word(w.b2, w.b1, w.b0, 0));
    hide Store24, Split;
    assert Value(w) == line && w.b3 == 0;
    assert Swap32(Store24(line)) == Value(Word(0, w.b0, w.b1, w.b2));
  }

  lemma BrFields(line: uint32, v: uint24)
    requires line < 0x100_0000 && v == Store24(line)
    ensures Swap32(v) / 0x400_0000 == line / 0x4_0000 && Swap32(v) / 0x100 % 0x4_0000 == line % 0x4_0000
  {
    SwapStored(line);
    hide Swap32, Store24;
    DivideOut(0, line, 0x100);
    ShiftTopBits(line);
  }

  lemma ShiftTopBits(line: nat)
    ensures 0x100 * line / 0x400_0000 == line / 0x4_0000
  {
    var q, r := line / 0x4_0000, line % 0x4_0000;
    assert 0x100 * line == 0x100 * r + 0x400_0000 * q;
    DivideOut(0x100 * r, q, 0x400_0000);
  }

  /** Both parts of the packed line can be read back. */
  lemma PackedFields(mantissa: nat, exp: nat)
    requires mantissa < 0x4_0000 && exp < 0x40
    ensures
      var v := Swap32(Store24(Pack(mantissa, exp)));
      v / 0x400_0000 == exp && v / 0x100 % 0x4_0000 == mantissa
  {
    hide Swap32, Store24, Pack;
    BrFields(Pack(mantissa, exp), Store24(Pack(mantissa, exp)));
  }

  // ---------- The codec's precision ----------

  /** Decoding what `SetREMBBitRate` stores for `b` when its exponent is `e`. */
  function Decoded(b: nat, e: nat): nat {
    b / Pow2(e) * Pow2(e) % 0x1_0000_0000
  }

  lemma ExponentMonotone(b: nat, e: nat, c: nat, f: nat)
    requires IsExponent(b, e) && IsExponent(c, f) && b <= c
    ensures e <= f
  {
    if f < e {
      Pow2Monotone(f, e - 1);
    }
  }

  /** The rounding loss of a quotient, and its size relative to the number. */
  lemma {:induction false} Precision(b: nat, e: nat)
    requires IsExponent(b, e)
    ensures
      var d := b / Pow2(e) * Pow2(e);
      d <= b && 131071 * (b - d) <= b && (e == 0 ==> d == b)
  {
    RestBelow(b, Pow2(e));
    if e > 0 {
      RestIsSmall(b, b / Pow2(e) * Pow2(e), Pow2(e - 1));
    }
  }

  /** A quotient times its divisor falls short of the number by less than the divisor. */
  lemma RestBelow(b: nat, p: nat)
    requires p > 0
    ensures b / p * p <= b < b / p * p + p && (p == 1 ==> b / p * p == b)
  {
    var q, r := b / p, b % p;
    assert b == p * q + r;
    assert p * q == q * p;
  }

  lemma RestIsSmall(b: nat, d: nat, q: nat)
    requires d <= b < d + 2 * q && MANTISSA_MAX * q <= b
    ensures 131071 * (b - d) <= b
  {
  }

  /** The exponents of 32-bit rates stay where the decoder's 32-bit shift is exact. */
  lemma SmallExponent(b: nat, e: nat)
    requires IsExponent(b, e) && b < 0x1_0000_0000
    ensures e <= 15
  {
    if e > 15 {
      Pow2Monotone(15, e - 1);
      assert Pow2(15) == 0x8000 by {
        Pow2Sum(7, 8);
        assert Pow2(7) == 128 && Pow2(8) == 256;
      }
    }
  }

  /** Below 2^32 the decoded rate is below the encoded one by at most one part in 131071, and it is
      exact below 0x3FFFF. */
  lemma RembPrecision(b: nat, e: nat)
    requires IsExponent(b, e) && b < 0x1_0000_0000
    ensures Decoded(b, e) <= b && 131071 * (b - Decoded(b, e)) <= b
    ensures b < MANTISSA_MAX ==> Decoded(b, e) == b
  {
    hide Pow2, IsExponent;
    Precision(b, e);
    if e > 0 {
      ShiftedIsLarge(b, e);
    }
    FitsAlready(b / Pow2(e) * Pow2(e));
  }

  lemma ShiftedIsLarge(b: nat, e: nat)
    requires IsExponent(b, e) && e > 0
    ensures b >= MANTISSA_MAX
  {
    MulGrows(MANTISSA_MAX, Pow2(e - 1));
  }

  lemma FitsAlready(d: nat)
    requires d < 0x1_0000_0000
    ensures d % 0x1_0000_0000 == d
  {
  }

  lemma Pow32()
    ensures Pow2(32) == 0x1_0000_0000
  {
    assert Pow2(8) == 256;
    Pow2Sum(8, 8);
    assert Pow2(16) == 0x1_0000;
    Pow2Sum(16, 16);
  }

  /** 2^32 is a multiple of every power the 32-bit shift can handle. */
  lemma WrapIsMultiple(e: nat)
    requires e <= 32
    ensures Pow2(e) * Pow2(32 - e) == 0x1_0000_0000
  {
    Pow2Sum(e, 32 - e);
    Pow32();
  }

  lemma QuotientAtLeast(b: nat, p: nat, m: nat)
    requires p > 0 && b >= p * m
    ensures b / p >= m && b / p * p >= p * m
  {
    assert b == p * (b / p) + b % p;
    assert p * (m - b / p) == p * m - b + b % p < p;
    MulGrows(p, m - b / p);
    MulLeft(m, b / p, p);
  }

  /** A rate that does not fit 32 bits loses at least 2^32 when it is decoded. */
  lemma {:induction false} LargeRatesWrap(b: nat, e: nat)
    requires IsExponent(b, e) && e < 32 && b >= 0x1_0000_0000
    ensures
      var d := b / Pow2(e) * Pow2(e);
      d >= 0x1_0000_0000 && Decoded(b, e) == d - d / 0x1_0000_0000 * 0x1_0000_0000
  {
    WrapIsMultiple(e);
    QuotientAtLeast(b, Pow2(e), Pow2(32 - e));
  }

  /** From 2^32 on, a decoder that shifts in 32 bits cannot meet that bound. */
  lemma RembPrecisionExactly(b: nat, e: nat)
    requires IsExponent(b, e) && e < 32
    ensures (Decoded(b, e) <= b && 131071 * (b - Decoded(b, e)) <= b) <==> b < 0x1_0000_0000
  {
    if b < 0x1_0000_0000 {
      RembPrecision(b, e);
    } else {
      Precision(b, e);
      LargeRatesWrap(b, e);
      var d := b / Pow2(e) * Pow2(e);
      var k := d / 0x1_0000_0000;
      assert b - Decoded(b, e) >= k * 0x1_0000_0000;
      assert 131071 * (b - d) <= b && d < (k + 1) * 0x1_0000_0000;
    }
  }

  lemma MulAssoc(a: nat, b: nat, c: nat)
    ensures a * (b * c) == b * (a * c)
  {
  }

  /** Multiples of a power survive a smaller exponent unchanged. */
  lemma {:induction false} MultipleIsExact(m: nat, e: nat, f: nat)
    requires f <= e
    ensures m * Pow2(e) / Pow2(f) * Pow2(f) == m * Pow2(e)
  {
    hide Pow2;
    Pow2Sum(f, e - f);
    MulAssoc(m, Pow2(f), Pow2(e - f));
    ExactQuotient(m * Pow2(e), Pow2(f), m * Pow2(e - f));
  }

  lemma ExactQuotient(x: nat, p: nat, k: nat)
    requires p > 0 && x == p * k
    ensures x / p * p == x
  {
    DivideOut(0, k, p);
  }

  /** In 32 bits nothing is cut off. */
  lemma {:induction false} SmallDecoded(b: nat, e: nat)
    requires IsExponent(b, e) && b < 0x1_0000_0000
    ensures Decoded(b, e) == b / Pow2(e) * Pow2(e)
  {
    Precision(b, e);
  }

  /** Encoding a decoded rate again changes nothing, even where the exponent becomes smaller. */
  lemma RembIdempotent(b: nat, e: nat, f: nat)
    requires IsExponent(b, e) && b < 0x1_0000_0000 && IsExponent(Decoded(b, e), f)
    ensures Decoded(Decoded(b, e), f) == Decoded(b, e)
  {
    hide Pow2, IsExponent, Decoded;
    RembPrecision(b, e);
    SmallDecoded(b, e);
    SmallDecoded(Decoded(b, e), f);
    ExponentMonotone(Decoded(b, e), f, b, e);
    MultipleIsExact(b / Pow2(e), e, f);
  }

  /** A larger rate is never decoded to a smaller one. */
  lemma RembMonotone(b: nat, e: nat, c: nat, f: nat)
    requires IsExponent(b, e) && IsExponent(c, f) && b <= c < 0x1_0000_0000
    ensures Decoded(b, e) <= Decoded(c, f)
  {
    hide Pow2, IsExponent, Decoded;
    SmallDecoded(b, e);
    SmallDecoded(c, f);
    ExponentMonotone(b, e, c, f);
    if e == f {
      QuotientMonotone(b, c, Pow2(e));
    } else {
      LowestMantissa(c, f);
      HighestMantissa(b, e);
      MantissasMeet(e, f);
    }
  }

  /** The largest number with a smaller exponent is not above the smallest with a larger one. */
  lemma {:induction false} MantissasMeet(e: nat, f: nat)
    requires e < f
    ensures (MANTISSA_MAX - 1) * Pow2(e) <= 131071 * Pow2(f)
  {
    Pow2Monotone(e, f - 1);
    assert Pow2(f) == 2 * Pow2(f - 1);
  }

  lemma QuotientMonotone(b: nat, c: nat, p: nat)
    requires b <= c && p > 0
    ensures b / p * p <= c / p * p
  {
    assert b == p * (b / p) + b % p && c == p * (c / p) + c % p;
    MulGrows(p, b / p - c / p);
    assert p * (b / p - c / p) < p;
  }

  lemma {:induction false} LowestMantissa(c: nat, f: nat)
    requires IsExponent(c, f) && f > 0
    ensures c / Pow2(f) * Pow2(f) >= 131071 * Pow2(f)
  {
    var p := Pow2(f);
    assert c == p * (c / p) + c % p && 2 * c >= MANTISSA_MAX * p;
    MulGrows(p, 131071 - c / p);
    assert p * (131071 - c / p) < p;
  }

  lemma {:induction false} HighestMantissa(b: nat, e: nat)
    requires IsExponent(b, e)
    ensures b / Pow2(e) * Pow2(e) <= (MANTISSA_MAX - 1) * Pow2(e)
  {
    QuotientBelow(b, Pow2(e), MANTISSA_MAX);
    assert b / Pow2(e) <= MANTISSA_MAX - 1;
    MulLeft(b / Pow2(e), MANTISSA_MAX - 1, Pow2(e));
  }

  lemma MulLeft(a: nat, b: nat, p: nat)
    requires a <= b
    ensures a * p <= b * p
  {
  }

  /** What the codec does to a rate, in the terms of the class: encode, then decode. */
  lemma RembCodec(r: RtcpHeader, b: nat)
    requires b < 0x1_0000_0000
    requires r.GetBrExp() < 64 && IsExponent(b, r.GetBrExp()) && r.GetBrMantis() == b / Pow2(r.GetBrExp())
    ensures r.GetBrExp() <= 15 && r.GetREMBBitRate() == Decoded(b, r.GetBrExp())
    ensures r.GetREMBBitRate() <= b && 131071 * (b - r.GetREMBBitRate()) <= b
    ensures b < MANTISSA_MAX ==> r.GetREMBBitRate() == b
  {
    SmallExponent(b, r.GetBrExp());
    RembPrecision(b, r.GetBrExp());
  }
}
