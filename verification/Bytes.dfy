/** Machine integers and their byte order on the little-endian hosts the code assumes. */
module Bytes {
  type byte = x: int | 0 <= x < 0x100
  type uint16 = x: int | 0 <= x < 0x1_0000
  type uint24 = x: int | 0 <= x < 0x100_0000
  type uint32 = x: int | 0 <= x < 0x1_0000_0000

  /** A number split into its bytes, least significant first. */
  datatype Word = Word(b0: byte, b1: byte, b2: byte, b3: byte)

  function Split(x: uint32): (w: Word)
    ensures Value(w) == x
  {
    var q := x / 0x100;
    var r := q / 0x100;
    Word(x % 0x100, q % 0x100, r % 0x100, r / 0x100)
  }

  function Value(w: Word): uint32 {
    w.b0 + 0x100 * (w.b1 + 0x100 * (w.b2 + 0x100 * w.b3))
  }

  lemma SplitValue(w: Word)
    ensures Split(Value(w)) == w
  {
    DivideOut(w.b0, w.b1 + 0x100 * (w.b2 + 0x100 * w.b3), 0x100);
    DivideOut(w.b1, w.b2 + 0x100 * w.b3, 0x100);
    DivideOut(w.b2, w.b3, 0x100);
  }

  lemma MulGrows(m: int, k: int)
    requires m > 0
    ensures k >= 1 ==> m * k >= m
    ensures k <= -1 ==> m * k <= -m
  {
  }

  /** The lowest digit of a number in base `m`, and what is left of it. */
  lemma DivideOut(digit: nat, rest: nat, m: nat)
    requires digit < m
    ensures (digit + m * rest) % m == digit && (digit + m * rest) / m == rest
  {
    var x := digit + m * rest;
    assert m * (x / m - rest) == digit - x % m;
    MulGrows(m, x / m - rest);
  }

  /** `htonl` and `ntohl`. */
  function Swap32(x: uint32): uint32 {
    var w := Split(x);
    Value(Word(w.b3, w.b2, w.b1, w.b0))
  }

  /** `htons` and `ntohs`. */
  function Swap16(x: uint16): uint16 {
    x / 0x100 + 0x100 * (x % 0x100)
  }

  /** Memory order on the host. */
  function Little32(x: uint32): seq<byte> {
    var w := Split(x);
    [w.b0, w.b1, w.b2, w.b3]
  }

  function Little16(x: uint16): seq<byte> {
    [x % 0x100, x / 0x100]
  }

  /** Network order: most significant byte first. */
  function Big32(x: uint32): seq<byte> {
    var w := Split(x);
    [w.b3, w.b2, w.b1, w.b0]
  }

  function Big16(x: uint16): seq<byte> {
    [x / 0x100, x % 0x100]
  }

  function FromLittle32(b: seq<byte>): uint32
    requires |b| == 4
  {
    Value(Word(b[0], b[1], b[2], b[3]))
  }

  /** Swapping turns host order into network order, and twice is the identity. */
  lemma Swapping32(x: uint32)
    ensures Little32(Swap32(x)) == Big32(x) && Swap32(Swap32(x)) == x
  {
    var w := Split(x);
    SplitValue(Word(w.b3, w.b2, w.b1, w.b0));
  }

  lemma Swapping16(y: uint16)
    ensures Little16(Swap16(y)) == Big16(y) && Swap16(Swap16(y)) == y
  {
    DivideOut(y / 0x100, y % 0x100, 0x100);
  }

  lemma LittleRoundTrip(x: uint32, b: seq<byte>)
    requires |b| == 4
    ensures FromLittle32(Little32(x)) == x
    ensures Little32(FromLittle32(b)) == b
  {
    SplitValue(Word(b[0], b[1], b[2], b[3]));
  }
}
