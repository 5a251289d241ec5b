/** Little-endian integers in a byte sequence, and the read accessors of the buffer. */
module ByteBuffers {

  type byte = b: int | 0 <= b < 256

  const INT16_MAX: int := 0x7FFF
  const INT32_MAX: int := 0x7FFF_FFFF

  /** `value` as the low two bytes of its two's complement. */
  function Bytes16(value: int): (b: seq<byte>)
    ensures |b| == 2
  {
    [value % 256, value / 256 % 256]
  }

  function Bytes32(value: int): (b: seq<byte>)
    ensures |b| == 4
  {
    [value % 256, value / 256 % 256, value / 0x1_0000 % 256, value / 0x100_0000 % 256]
  }

  /** `value` reduced to a signed 16-bit number, as `<< 16 >> 16` does. */
  function Wrap16(value: int): (w: int)
    ensures -0x8000 <= w <= INT16_MAX
    ensures w == value <==> -0x8000 <= value <= INT16_MAX
  {
    (value + 0x8000) % 0x1_0000 - 0x8000
  }

  function ReadUint16(s: seq<byte>, at: int): int
    requires 0 <= at && at + 2 <= |s|
  {
    var low: int, high: int := s[at], s[at + 1];
    low + 256 * high
  }

  function ReadInt16(s: seq<byte>, at: int): int
    requires 0 <= at && at + 2 <= |s|
  {
    Wrap16(ReadUint16(s, at))
  }

  function ReadInt32(s: seq<byte>, at: int): int
    requires 0 <= at && at + 4 <= |s|
  {
    var b0: int, b1: int, b2: int, b3: int := s[at], s[at + 1], s[at + 2], s[at + 3];
    var u := b0 + 0x100 * b1 + 0x1_0000 * b2 + 0x100_0000 * b3;
    if u > INT32_MAX then u - 0x1_0000_0000 else u
  }

  /** The same at any position: bytes outside the buffer are "undefined" and count as zero. */
  function PeekInt32(s: seq<byte>, at: int): (v: int)
    ensures 0 <= at && at + 4 <= |s| ==> v == ReadInt32(s, at)
  {
    var b := (k: int) => if 0 <= k < |s| then s[k] as int else 0;
    var u := b(at) + 0x100 * b(at + 1) + 0x1_0000 * b(at + 2) + 0x100_0000 * b(at + 3);
    if u > INT32_MAX then u - 0x1_0000_0000 else u
  }

  /** Outside the buffer everything reads as zero bytes. */
  lemma PeekOutside(s: seq<byte>, at: int)
    ensures PeekInt32(s + [0], at) == PeekInt32([0] + s, at + 1) == PeekInt32(s, at)
    ensures at >= |s| || at + 4 <= 0 ==> PeekInt32(s, at) == 0
  {}

  lemma DivideTwice(v: int)
    ensures v / 0x1_0000 == v / 256 / 256 && v / 0x100_0000 == v / 256 / 256 / 256
  {}

  /** Sixteen written bits read back as the value reduced to sixteen bits. */
  lemma Read16Back(s: seq<byte>, at: int, value: int)
    requires 0 <= at && at + 2 <= |s| && s[at..at + 2] == Bytes16(value)
    ensures ReadInt16(s, at) == Wrap16(value)
  {
    assert s[at] == s[at..at + 2][0] == value % 256 && s[at + 1] == s[at..at + 2][1] == value / 256 % 256;
    Low16(value);
  }

  lemma Low16(value: int)
    ensures Wrap16(value % 256 + 256 * (value / 256 % 256)) == Wrap16(value)
  {
    var q := value / 256;
    assert value == 256 * q + value % 256;
    assert q == 256 * (q / 256) + q % 256;
    assert value == 0x1_0000 * (q / 256) + (value % 256 + 256 * (q % 256));
    WrapPeriodic(value % 256 + 256 * (q % 256), q / 256);
  }

  lemma WrapPeriodic(value: int, n: int)
    ensures Wrap16(value + 0x1_0000 * n) == Wrap16(value)
  {}

  /** Thirty-two written bits read back as the value. */
  lemma Read32Back(s: seq<byte>, at: int, value: int)
    requires 0 <= at && at + 4 <= |s| && s[at..at + 4] == Bytes32(value) && -0x8000_0000 <= value <= INT32_MAX
    ensures ReadInt32(s, at) == value
  {
    var t := s[at..at + 4];
    assert s[at] == t[0] && s[at + 1] == t[1] && s[at + 2] == t[2] && s[at + 3] == t[3];
    DivideTwice(value);
    var q1, q2, q3 := value / 256, value / 256 / 256, value / 256 / 256 / 256;
    assert value == 256 * q1 + value % 256 && q1 == 256 * q2 + q1 % 256 && q2 == 256 * q3 + q2 % 256;
    assert -128 <= q3 < 128;
    assert q3 % 256 == if q3 < 0 then q3 + 256 else q3;
  }

  // ---- least significant byte first

  /** The bytes of a number are its lowest one and then those of the rest. */
  lemma LowestByteFirst(v: int, b: byte)
    ensures Bytes16(256 * v + b) == [b] + Bytes16(v)[..1]
    ensures Bytes32(256 * v + b) == [b] + Bytes32(v)[..3]
    ensures Bytes16(0) == [0, 0] && Bytes32(0) == [0, 0, 0, 0]
  {
    var x := 256 * v + b;
    DivideTwice(x);
    DivideTwice(v);
    assert x / 256 == v && x % 256 == b;
  }

  /** What is written depends on the low bits only, so negative numbers are in two's complement. */
  lemma BytesWrap(v: int)
    ensures Bytes16(v + 0x1_0000) == Bytes16(v) && Bytes32(v + 0x1_0000_0000) == Bytes32(v)
  {
    DivideTwice(v);
    DivideTwice(v + 0x1_0000_0000);
    var q1, q2, q3 := v / 256, v / 256 / 256, v / 256 / 256 / 256;
    AddBytes(v, 256);
    AddBytes(v, 0x100_0000);
    AddBytes(q1, 1);
    AddBytes(q1, 0x1_0000);
    AddBytes(q2, 256);
    AddBytes(q3, 1);
  }

  lemma AddBytes(x: int, k: int)
    ensures (x + 256 * k) % 256 == x % 256 && (x + 256 * k) / 256 == x / 256 + k
  {}

  /** Whatever four bytes lie at `at`: the number read is the one whose bytes they are. */
  lemma ReadsLowestFirst(s: seq<byte>, at: int)
    requires 0 <= at && at + 4 <= |s|
    ensures -0x8000_0000 <= ReadInt32(s, at) < 0x8000_0000
    ensures s[at + 1] == 0 && s[at + 2] == 0 && s[at + 3] == 0 ==> ReadInt32(s, at) == s[at]
    ensures Bytes32(ReadInt32(s, at)) == s[at..at + 4]
    ensures s[at + 1] == 0 ==> ReadInt16(s, at) == s[at]
    ensures -0x8000 <= ReadInt16(s, at) < 0x8000 && Bytes16(ReadInt16(s, at)) == s[at..at + 2]
  {
    var b0: int, b1: int, b2: int, b3: int := s[at], s[at + 1], s[at + 2], s[at + 3];
    BytesOf32(b0, b1, b2, b3);
    BytesWrap(b0 + 0x100 * b1 + 0x1_0000 * b2 + 0x100_0000 * b3 - 0x1_0000_0000);
    BytesOf16(b0, b1);
    BytesWrap(b0 + 0x100 * b1 - 0x1_0000);
  }

  lemma BytesOf32(b0: byte, b1: byte, b2: byte, b3: byte)
    ensures Bytes32(b0 + 0x100 * b1 + 0x1_0000 * b2 + 0x100_0000 * b3) == [b0, b1, b2, b3]
  {
    var u := b0 + 0x100 * b1 + 0x1_0000 * b2 + 0x100_0000 * b3;
    DivideTwice(u);
    assert u / 256 == b1 + 0x100 * b2 + 0x1_0000 * b3;
    assert u / 256 / 256 == b2 + 0x100 * b3;
    assert u / 256 / 256 / 256 == b3;
  }

  lemma BytesOf16(b0: byte, b1: byte)
    ensures Bytes16(b0 + 0x100 * b1) == [b0, b1]
    ensures Wrap16(b0 + 0x100 * b1) == b0 + 0x100 * b1 || Wrap16(b0 + 0x100 * b1) == b0 + 0x100 * b1 - 0x1_0000
  {
    var u := b0 + 0x100 * b1;
    assert u / 256 == b1;
  }

  /** Reading is unaffected by bytes in front when positions count from the end. */
  lemma ReadBehind(front: seq<byte>, s: seq<byte>, at: int)
    requires 0 <= at
    ensures at + 2 <= |s| ==> ReadInt16(front + s, |front| + at) == ReadInt16(s, at)
    ensures at + 4 <= |s| ==> ReadInt32(front + s, |front| + at) == ReadInt32(s, at)
  {}
}
