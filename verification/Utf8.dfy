/**
 * Strings in the buffer: UTF-16 code units encoded as UTF-8 on the way in and decoded on the way out.
 * Shifts and masks are written as division and remainder.
 */
module Utf8 {
  import opened ByteBuffers

  /** A UTF-16 code unit, as `charCodeAt` gives it. */
  type Unit = u: int | 0 <= u < 0x1_0000

  predicate IsHigh(u: Unit) { 0xD800 <= u < 0xDC00 }

  predicate IsLow(u: Unit) { 0xDC00 <= u < 0xE000 }

  // ---- encoding

  /** The number a high surrogate and the unit after it stand for. */
  function Combine(a: Unit, b: Unit): (point: int)
    requires IsHigh(a)
    ensures 0x2400 <= point < 0x20_0000
    ensures IsLow(b) ==> 0x1_0000 <= point < 0x11_0000
  {
    a * 0x400 + b + (0x1_0000 - 0xD800 * 0x400 - 0xDC00)
  }

  function FourBytes(point: nat): (b: seq<byte>)
    ensures |b| == 4
  {
    [point / 0x4_0000 % 8 + 0xF0, point / 0x1000 % 64 + 0x80, point / 64 % 64 + 0x80, point % 64 + 0x80]
  }

  function PointBytes(point: nat): (b: seq<byte>)
    ensures 1 <= |b| <= 4
  {
    if point < 0x80 then [point]
    else if point < 0x800 then [point / 64 % 32 + 0xC0, point % 64 + 0x80]
    else if point < 0x1_0000 then [point / 0x1000 % 16 + 0xE0, point / 64 % 64 + 0x80, point % 64 + 0x80]
    else FourBytes(point)
  }

  /** How many units the first step of the encoder takes. */
  function Taken(s: seq<Unit>): (n: nat)
    requires s != []
    ensures 1 <= n <= |s|
  {
    if IsHigh(s[0]) && |s| > 1 then 2 else 1
  }

  /** A high surrogate at the very end reads its partner as "not a number": four bytes with zero bits. */
  predicate CutOff(s: seq<Unit>)
    requires s != []
  {
    IsHigh(s[0]) && |s| == 1
  }

  function FirstPoint(s: seq<Unit>): (point: nat)
    requires s != []
    ensures point < 0x20_0000
  {
    if !IsHigh(s[0]) then s[0] else if CutOff(s) then 0 else Combine(s[0], s[1])
  }

  function FirstBytes(s: seq<Unit>): (b: seq<byte>)
    requires s != []
    ensures 1 <= |b| <= 4
  {
    if CutOff(s) then FourBytes(0) else PointBytes(FirstPoint(s))
  }

  function Encode(s: seq<Unit>): seq<byte> {
    if s == [] then [] else FirstBytes(s) + Encode(s[Taken(s)..])
  }

  /** The encoding loop of `createString`. */
  method EncodeUtf8(s: seq<Unit>) returns (utf8: seq<byte>)
    ensures utf8 == Encode(s)
  {
    hide FourBytes, PointBytes, Combine, Encode;
    utf8 := [];
    var i := 0;
    assert s[0..] == s;
    while i < |s|
      invariant i <= |s| && utf8 + Encode(s[i..]) == Encode(s)
    {
      ghost var rest, before := s[i..], utf8;
      assert rest[0] == s[i] && (i + 1 < |s| ==> rest[1] == s[i + 1]);
      var a := s[i];
      i := i + 1;
      if a < 0xD800 || a >= 0xDC00 {
        utf8 := utf8 + PointBytes(a);
      } else if i < |s| {
        var b := s[i];
        i := i + 1;
        utf8 := utf8 + PointBytes(Combine(a, b));
      } else {
        // no unit is left to read
        utf8 := utf8 + FourBytes(0);
      }
      assert s[i..] == rest[Taken(rest)..];
      EncodeStep(before, rest);
    }
    EncodeStep(utf8, s[i..]);
  }

  lemma EncodeStep(before: seq<byte>, s: seq<Unit>)
    ensures s == [] ==> before + Encode(s) == before
    ensures s != [] ==> before + Encode(s) == before + FirstBytes(s) + Encode(s[Taken(s)..])
  {}

  // ---- decoding

  /** Byte `k` of the buffer; a read outside it gives "undefined", whose bits are zero. */
  function At(s: seq<byte>, k: int): int {
    if 0 <= k < |s| then s[k] else 0
  }

  /** The leading byte at `k`: "undefined" is below no bound and has no bits, which is what 0xF0 does. */
  function Lead(s: seq<byte>, k: int): byte {
    if 0 <= k < |s| then s[k] else 0xF0
  }

  function PointLength(a: byte): (n: nat)
    ensures 1 <= n <= 4
  {
    if a < 0xC0 then 1 else if a < 0xE0 then 2 else if a < 0xF0 then 3 else 4
  }

  /** The number in up to four bytes. */
  function PointOf(a: byte, b: int, c: int, d: int): (point: nat)
    ensures point < 0x20_0000
  {
    if a < 0xC0 then a
    else if a < 0xE0 then a % 32 * 64 + b % 64
    else if a < 0xF0 then a % 16 * 0x1000 + b % 64 * 64 + c % 64
    else a % 8 * 0x4_0000 + b % 64 * 0x1000 + c % 64 * 64 + d % 64
  }

  function PointAt(s: seq<byte>, i: int): (point: nat)
    ensures point < 0x20_0000
  {
    PointOf(Lead(s, i), At(s, i + 1), At(s, i + 2), At(s, i + 3))
  }

  function Units(point: nat): (u: seq<Unit>)
    requires point < 0x20_0000
    ensures 1 <= |u| <= 2
  {
    if point < 0x1_0000 then [point]
    else [(point - 0x1_0000) / 0x400 + 0xD800, (point - 0x1_0000) % 0x400 + 0xDC00]
  }

  /** What `__string` makes of the bytes from `i` up to `end`. */
  function DecodeFrom(s: seq<byte>, i: int, end: int): seq<Unit>
    decreases end - i
  {
    if i >= end then [] else Units(PointAt(s, i)) + DecodeFrom(s, i + PointLength(Lead(s, i)), end)
  }

  /** The decoding loop of `__string`, over `length` bytes at `offset`. */
  method DecodeUtf8(s: seq<byte>, offset: int, length: int) returns (result: seq<Unit>)
    ensures result == DecodeFrom(s, offset, offset + length)
  {
    hide PointAt, PointLength, Units, DecodeFrom;
    result := [];
    var i := 0;
    DecodeStep([], s, offset, offset + length);
    while i < length
      invariant result + DecodeFrom(s, offset + i, offset + length) == DecodeFrom(s, offset, offset + length)
      decreases length - i
    {
      DecodeStep(result, s, offset + i, offset + length);
      var point := PointAt(s, offset + i);
      i := i + PointLength(Lead(s, offset + i));
      result := result + Units(point);
    }
    DecodeStep(result, s, offset + i, offset + length);
  }

  lemma DecodeStep(before: seq<Unit>, s: seq<byte>, i: int, end: int)
    ensures before == [] ==> before + DecodeFrom(s, i, end) == DecodeFrom(s, i, end)
    ensures i >= end ==> before + DecodeFrom(s, i, end) == before
    ensures i < end ==>
              before + DecodeFrom(s, i, end)
              == before + Units(PointAt(s, i)) + DecodeFrom(s, i + PointLength(Lead(s, i)), end)
  {}

  // ---- what comes back

  /** The units a string turns into on its way through the buffer. */
  function Returned(s: seq<Unit>): seq<Unit> {
    if s == [] then [] else Units(FirstPoint(s)) + Returned(s[Taken(s)..])
  }

  /** Every high surrogate is followed by a low one. */
  ghost predicate Paired(s: seq<Unit>) {
    forall i :: 0 <= i < |s| && IsHigh(s[i]) ==> i + 1 < |s| && IsLow(s[i + 1])
  }

  /** Six bits at a time: taking a number apart and putting it together. */
  lemma SixBits(point: nat)
    ensures point == point / 0x4_0000 * 0x4_0000 + point / 0x1000 % 64 * 0x1000 + point / 64 % 64 * 64 + point % 64
    ensures point / 64 == point / 0x1000 * 64 + point / 64 % 64
    ensures point / 0x1000 == point / 0x4_0000 * 64 + point / 0x1000 % 64
  {
    assert point / 64 / 64 == point / 0x1000 && point / 0x1000 / 64 == point / 0x4_0000;
  }

  lemma Joined(h: nat, x: nat, y: nat, z: nat)
    requires x < 64 && y < 64 && z < 64
    ensures var point := h * 0x4_0000 + x * 0x1000 + y * 64 + z;
            && point % 64 == z && point / 64 % 64 == y && point / 0x1000 % 64 == x && point / 0x4_0000 == h
            && point / 64 == h * 0x1000 + x * 64 + y && point / 0x1000 == h * 64 + x
  {
    var point := h * 0x4_0000 + x * 0x1000 + y * 64 + z;
    assert point / 64 == h * 0x1000 + x * 64 + y;
    assert point / 0x1000 == h * 64 + x;
  }

  lemma TailBits(b: int)
    ensures 0x80 <= b < 0xC0 ==> b % 64 == b - 0x80
  {}

  lemma LeadBits(a: int)
    ensures 0xC0 <= a < 0xE0 ==> a % 32 == a - 0xC0
    ensures 0xE0 <= a < 0xF0 ==> a % 16 == a - 0xE0
    ensures 0xF0 <= a < 0xF8 ==> a % 8 == a - 0xF0
  {}

  /** The first byte of a number, whose bits the mask keeps. */
  lemma FirstByte(point: nat)
    requires point < 0x20_0000
    ensures 0x80 <= point < 0x800 ==> PointBytes(point)[0] == point / 64 + 0xC0 < 0xE0
    ensures 0x800 <= point < 0x1_0000 ==> PointBytes(point)[0] == point / 0x1000 + 0xE0 < 0xF0
    ensures 0x1_0000 <= point ==> PointBytes(point)[0] == point / 0x4_0000 + 0xF0 < 0xF8
  {}

  lemma NumberBack(point: nat, b: int, c: int, d: int)
    requires point < 0x20_0000
    requires var p := PointBytes(point);
             (|p| > 1 ==> b == p[1]) && (|p| > 2 ==> c == p[2]) && (|p| > 3 ==> d == p[3])
    ensures PointOf(PointBytes(point)[0], b, c, d) == point && PointLength(PointBytes(point)[0]) == |PointBytes(point)|
  {
    SixBits(point);
    FirstByte(point);
    LeadBits(PointBytes(point)[0]);
    TailBits(b);
    TailBits(c);
    TailBits(d);
    var h, x, y := point / 0x4_0000, point / 0x1000, point / 64;
    assert point < 0x1_0000 ==> h == 0 && x == x % 64;
    assert point < 0x800 ==> x == 0 && y == y % 64;
  }

  /** The bytes `b` lie at `i`. */
  ghost predicate HasAt(s: seq<byte>, i: nat, b: seq<byte>) {
    i + |b| <= |s| && forall k :: 0 <= k < |b| ==> s[i + k] == b[k]
  }

  lemma HasParts(s: seq<byte>, i: nat, a: seq<byte>, b: seq<byte>)
    requires HasAt(s, i, a + b)
    ensures HasAt(s, i, a) && HasAt(s, i + |a|, b)
  {
    forall k | 0 <= k < |a| ensures s[i + k] == a[k] { assert (a + b)[k] == a[k]; }
    forall k | 0 <= k < |b| ensures s[i + |a| + k] == b[k] { assert (a + b)[|a| + k] == b[k]; }
  }

  lemma SliceHas(s: seq<byte>, i: nat, b: seq<byte>)
    requires i + |b| <= |s| && s[i..i + |b|] == b
    ensures HasAt(s, i, b)
  {
    forall k | 0 <= k < |b| ensures s[i + k] == b[k] { assert s[i..i + |b|][k] == b[k]; }
  }

  /** A code point's bytes decode to it wherever they lie. */
  lemma PointBack(s: seq<byte>, i: nat, point: nat, b: seq<byte>)
    requires HasAt(s, i, b) && point < 0x20_0000
    requires b == PointBytes(point) || (b == FourBytes(0) && point == 0)
    ensures PointAt(s, i) == point && PointLength(Lead(s, i)) == |b|
  {
    assert s[i + 0] == b[0];
    if b == PointBytes(point) {
      hide PointBytes, FourBytes, PointOf, PointLength;
      if |b| > 1 { assert s[i + 1] == b[1]; }
      if |b| > 2 { assert s[i + 2] == b[2]; }
      if |b| > 3 { assert s[i + 3] == b[3]; }
      NumberBack(point, At(s, i + 1), At(s, i + 2), At(s, i + 3));
    } else {
      assert s[i + 1] == b[1] && s[i + 2] == b[2] && s[i + 3] == b[3];
    }
  }

  lemma FirstBytesBack(s: seq<byte>, i: nat, u: seq<Unit>)
    requires u != [] && HasAt(s, i, FirstBytes(u))
    ensures i < |s| && PointAt(s, i) == FirstPoint(u) && PointLength(Lead(s, i)) == |FirstBytes(u)|
  {
    hide PointAt, PointLength, PointBytes, FourBytes;
    PointBack(s, i, FirstPoint(u), FirstBytes(u));
  }

  lemma Unfold(u: seq<Unit>)
    ensures u == [] ==> Encode(u) == [] && Returned(u) == []
    ensures u != [] ==> Encode(u) == FirstBytes(u) + Encode(u[Taken(u)..])
    ensures u != [] ==> Returned(u) == Units(FirstPoint(u)) + Returned(u[Taken(u)..])
  {}

  lemma UnfoldDecode(s: seq<byte>, i: int, end: int)
    ensures i >= end ==> DecodeFrom(s, i, end) == []
    ensures i < end ==> DecodeFrom(s, i, end) == Units(PointAt(s, i)) + DecodeFrom(s, i + PointLength(Lead(s, i)), end)
  {}

  /** Decoding an encoded string gives `Returned` of it, whatever surrounds it. */
  lemma {:induction false} DecodeEncoded(s: seq<byte>, i: nat, u: seq<Unit>)
    requires HasAt(s, i, Encode(u))
    ensures DecodeFrom(s, i, i + |Encode(u)|) == Returned(u)
    decreases |u|
  {
    Unfold(u);
    UnfoldDecode(s, i, i + |Encode(u)|);
    hide Encode, DecodeFrom, Returned, FirstBytes, FirstPoint, PointAt, PointLength, Units, HasAt;
    if u != [] {
      var b, rest := FirstBytes(u), u[Taken(u)..];
      HasParts(s, i, b, Encode(rest));
      FirstBytesBack(s, i, u);
      DecodeEncoded(s, i + |b|, rest);
    }
  }

  lemma {:induction false} ReturnedNotLonger(s: seq<Unit>)
    ensures |Returned(s)| <= |s|
    decreases |s|
  {
    if s != [] {
      ReturnedNotLonger(s[Taken(s)..]);
    }
  }

  lemma CombineBack(a: Unit, b: Unit)
    requires IsHigh(a) && IsLow(b)
    ensures Units(Combine(a, b)) == [a, b]
  {}

  /** A string comes back unchanged exactly when every high surrogate in it is followed by a low one. */
  lemma {:induction false} ReturnedIff(s: seq<Unit>)
    ensures Returned(s) == s <==> Paired(s)
    decreases |s|
  {
    if s != [] {
      var n := Taken(s);
      var first, rest := Units(FirstPoint(s)), s[n..];
      ReturnedIff(rest);
      ReturnedNotLonger(rest);
      assert s == s[..n] + rest;
      if IsHigh(s[0]) && (|s| == 1 || !IsLow(s[1])) {
        assert !Paired(s);
        if |s| > 1 && |first| == 2 {
          assert Returned(s)[1] == first[1] && IsLow(first[1]) && first[1] != s[1];
        }
      } else {
        if n == 2 { CombineBack(s[0], s[1]); }
        assert first == s[..n];
        assert Returned(s) == s <==> Returned(rest) == rest by {
          if Returned(s) == s { assert Returned(rest) == Returned(s)[n..] == rest; }
        }
        PairedStep(s, n);
      }
    }
  }

  lemma PairedStep(s: seq<Unit>, n: nat)
    requires 1 <= n <= |s| && n <= 2 && (n == 1 ==> !IsHigh(s[0])) && (n == 2 ==> IsHigh(s[0]) && IsLow(s[1]))
    ensures Paired(s) <==> Paired(s[n..])
  {
    var rest := s[n..];
    if Paired(s) {
      forall i | 0 <= i < |rest| && IsHigh(rest[i])
        ensures i + 1 < |rest| && IsLow(rest[i + 1])
      {
        assert IsHigh(s[n + i]);
      }
    }
    if Paired(rest) {
      forall i | 0 <= i < |s| && IsHigh(s[i]) ensures i + 1 < |s| && IsLow(s[i + 1]) {
        if i >= n { assert IsHigh(rest[i - n]); }
      }
    }
  }

  /** A high surrogate before a letter: two units go in, one other unit comes out. */
  lemma BadPairIsMangled()
    ensures Returned([0xD800, 0x41]) == [0x2441] && !Paired([0xD800, 0x41])
  {
    var s: seq<Unit> := [0xD800, 0x41];
    assert s[Taken(s)..] == [];
    assert IsHigh(s[0]) && !IsLow(s[1]);
  }

  // ---- against the grammar of section 4 of RFC 3629

  predicate Tail(b: byte) { 0x80 <= b <= 0xBF }

  /** The length of the UTF8-char a well-formed string of bytes starts with, or 0 if it does not start with one. */
  function CharLength(b: seq<byte>): (n: nat)
    ensures n <= 4 && n <= |b|
  {
    if |b| >= 1 && b[0] <= 0x7F then 1
    else if |b| >= 2 && 0xC2 <= b[0] <= 0xDF && Tail(b[1]) then 2
    else if |b| >= 3 && Tail(b[2])
         && ((b[0] == 0xE0 && 0xA0 <= b[1] <= 0xBF) || (0xE1 <= b[0] <= 0xEC && Tail(b[1]))
             || (b[0] == 0xED && 0x80 <= b[1] <= 0x9F) || (0xEE <= b[0] <= 0xEF && Tail(b[1]))) then 3
    else if |b| >= 4 && Tail(b[2]) && Tail(b[3])
         && ((b[0] == 0xF0 && 0x90 <= b[1] <= 0xBF) || (0xF1 <= b[0] <= 0xF3 && Tail(b[1]))
             || (b[0] == 0xF4 && 0x80 <= b[1] <= 0x8F)) then 4
    else 0
  }

  ghost predicate WellFormed(b: seq<byte>) {
    b == [] || (CharLength(b) > 0 && WellFormed(b[CharLength(b)..]))
  }

  /** UTF-16 without lone surrogates. */
  ghost predicate WellFormed16(s: seq<Unit>) {
    s == []
    || (if IsHigh(s[0]) then |s| > 1 && IsLow(s[1]) && WellFormed16(s[2..]) else !IsLow(s[0]) && WellFormed16(s[1..]))
  }

  /** A Unicode scalar value. */
  predicate IsScalar(point: int) {
    0 <= point < 0xD800 || 0xE000 <= point < 0x11_0000
  }

  lemma ScalarIsChar(point: nat, rest: seq<byte>)
    requires IsScalar(point)
    ensures CharLength(PointBytes(point) + rest) == |PointBytes(point)|
  {
    if point >= 0x1_0000 {
      LongScalarIsChar(point, rest);
    } else if point >= 0x800 {
      ThreeByteScalarIsChar(point, rest);
    }
  }

  lemma ThreeByteScalarIsChar(point: nat, rest: seq<byte>)
    requires 0x800 <= point < 0x1_0000 && IsScalar(point)
    ensures |PointBytes(point)| == CharLength(PointBytes(point) + rest) == 3
  {
    SixBits(point);
  }

  lemma LongScalarIsChar(point: nat, rest: seq<byte>)
    requires 0x1_0000 <= point < 0x11_0000
    ensures CharLength(FourBytes(point) + rest) == 4
  {
    SixBits(point);
  }

  /** Well-formed UTF-16 is encoded as well-formed UTF-8. */
  lemma {:induction false} EncodesWellFormed(s: seq<Unit>)
    requires WellFormed16(s)
    ensures WellFormed(Encode(s))
    decreases |s|
  {
    if s != [] {
      var rest := s[Taken(s)..];
      EncodesWellFormed(rest);
      ScalarIsChar(FirstPoint(s), Encode(rest));
      assert Encode(s)[|FirstBytes(s)|..] == Encode(rest);
    }
  }

  /** The bits of a two-byte character, put together and taken apart again. */
  lemma TwoBytes(a: byte, x: byte)
    requires 0xC2 <= a <= 0xDF && Tail(x)
    ensures var point := a % 32 * 64 + x % 64;
            IsScalar(point) && PointBytes(point) == [a, x]
  {
    LeadBits(a);
    TailBits(x);
    var h, k := a - 0xC0, x - 0x80;
    Joined(0, 0, h, k);
    FirstByte(h * 64 + k);
  }

  lemma ThreeBytes(a: byte, x: byte, y: byte)
    requires 0xE0 <= a <= 0xEF && Tail(x) && Tail(y) && (a == 0xE0 ==> 0xA0 <= x) && (a == 0xED ==> x <= 0x9F)
    ensures var point := a % 16 * 0x1000 + x % 64 * 64 + y % 64;
            IsScalar(point) && PointBytes(point) == [a, x, y]
  {
    LeadBits(a);
    TailBits(x);
    TailBits(y);
    var h, j, k := a - 0xE0, x - 0x80, y - 0x80;
    Joined(0, h, j, k);
    FirstByte(h * 0x1000 + j * 64 + k);
  }

  lemma FourBytesBack(a: byte, x: byte, y: byte, z: byte)
    requires 0xF0 <= a <= 0xF4 && Tail(x) && Tail(y) && Tail(z) && (a == 0xF0 ==> 0x90 <= x)
    requires (a == 0xF4 ==> x <= 0x8F)
    ensures var point := a % 8 * 0x4_0000 + x % 64 * 0x1000 + y % 64 * 64 + z % 64;
            IsScalar(point) && PointBytes(point) == [a, x, y, z]
  {
    LeadBits(a);
    TailBits(x);
    TailBits(y);
    TailBits(z);
    var h, i, j, k := a - 0xF0, x - 0x80, y - 0x80, z - 0x80;
    Joined(h, i, j, k);
    FirstByte(h * 0x4_0000 + i * 0x1000 + j * 64 + k);
  }

  lemma CharOf(b: seq<byte>, x: int, y: int, z: int)
    requires CharLength(b) > 0 && (|b| > 1 ==> x == b[1]) && (|b| > 2 ==> y == b[2]) && (|b| > 3 ==> z == b[3])
    ensures var n, point := CharLength(b), PointOf(b[0], x, y, z);
            IsScalar(point) && PointLength(b[0]) == n && PointBytes(point) == b[..n]
  {
    var n := CharLength(b);
    if n == 1 {
      assert PointBytes(b[0]) == [b[0]] == b[..1];
    } else {
      hide PointBytes;
      if n == 2 {
        TwoBytes(b[0], b[1]);
      } else if n == 3 {
        ThreeBytes(b[0], b[1], b[2]);
      } else {
        FourBytesBack(b[0], b[1], b[2], b[3]);
      }
    }
  }

  /** A character of the grammar is the encoding of the scalar value it decodes to. */
  lemma CharIsScalar(s: seq<byte>, i: nat, b: seq<byte>)
    requires HasAt(s, i, b) && i + |b| == |s| && CharLength(b) > 0
    ensures var n := CharLength(b);
            IsScalar(PointAt(s, i)) && PointLength(Lead(s, i)) == n && PointBytes(PointAt(s, i)) == b[..n]
  {
    hide PointBytes, PointOf, CharLength;
    assert s[i + 0] == b[0];
    if |b| > 1 { assert s[i + 1] == b[1]; }
    if |b| > 2 { assert s[i + 2] == b[2]; }
    if |b| > 3 { assert s[i + 3] == b[3]; }
    CharOf(b, At(s, i + 1), At(s, i + 2), At(s, i + 3));
  }

  lemma UnitsEncode(point: nat, rest: seq<Unit>)
    requires IsScalar(point)
    ensures Encode(Units(point) + rest) == PointBytes(point) + Encode(rest)
    ensures WellFormed16(Units(point) + rest) <==> WellFormed16(rest)
  {
    var u := Units(point);
    assert (u + rest)[|u|..] == rest;
    if |u| == 2 { assert Combine(u[0], u[1]) == point; }
  }

  /** The other way round: well-formed bytes decode to well-formed UTF-16 whose encoding is those bytes. */
  lemma {:induction false} EncodeDecoded(s: seq<byte>, i: nat, b: seq<byte>)
    requires HasAt(s, i, b) && i + |b| == |s| && WellFormed(b)
    ensures Encode(DecodeFrom(s, i, |s|)) == b && WellFormed16(DecodeFrom(s, i, |s|))
    decreases |b|
  {
    hide PointAt, PointLength, PointBytes, Units, CharLength, DecodeFrom, Encode, HasAt, WellFormed, WellFormed16;
    hide IsScalar;
    UnfoldDecode(s, i, |s|);
    FirstChar(b);
    if b == [] {
      Unfold([]);
    } else {
      var n := CharLength(b);
      var c, rest := b[..n], b[n..];
      CharIsScalar(s, i, b);
      HasParts(s, i, c, rest);
      EncodeDecoded(s, i + n, rest);
      UnitsEncode(PointAt(s, i), DecodeFrom(s, i + n, |s|));
    }
  }

  lemma FirstChar(b: seq<byte>)
    requires WellFormed(b)
    ensures b != [] ==>
            CharLength(b) > 0 && b == b[..CharLength(b)] + b[CharLength(b)..] && WellFormed(b[CharLength(b)..])
    ensures WellFormed16([])
  {}

  // ---- the tables of RFC 3629 and RFC 2781

  /** Section 3 of RFC 3629: the bytes of a character number, each with its leading bits taken off. */
  ghost predicate InTable(point: int, b: seq<byte>) {
    || (0 <= point <= 0x7F && b == [point])
    || (0x80 <= point <= 0x7FF && |b| == 2 && 0xC0 <= b[0] <= 0xDF && 0x80 <= b[1] <= 0xBF
        && var x: int, y: int := b[0], b[1]; point == (x - 0xC0) * 0x40 + (y - 0x80))
    || (0x800 <= point <= 0xFFFF && |b| == 3 && 0xE0 <= b[0] <= 0xEF && 0x80 <= b[1] <= 0xBF && 0x80 <= b[2] <= 0xBF
        && var x: int, y: int, z: int := b[0], b[1], b[2];
           point == (x - 0xE0) * 0x1000 + (y - 0x80) * 0x40 + (z - 0x80))
    || (0x1_0000 <= point <= 0x10_FFFF && |b| == 4 && 0xF0 <= b[0] <= 0xF7 && 0x80 <= b[1] <= 0xBF
        && 0x80 <= b[2] <= 0xBF && 0x80 <= b[3] <= 0xBF
        && var w: int, x: int, y: int, z: int := b[0], b[1], b[2], b[3];
           point == (w - 0xF0) * 0x4_0000 + (x - 0x80) * 0x1000 + (y - 0x80) * 0x40 + (z - 0x80))
  }

  /** Section 2.1 of RFC 2781: one unit, or a high and a low surrogate with ten bits each. */
  ghost predicate InUtf16(point: int, u: seq<Unit>) {
    || (0 <= point <= 0xFFFF && u == [point])
    || (0x1_0000 <= point <= 0x10_FFFF && |u| == 2 && 0xD800 <= u[0] <= 0xDBFF && 0xDC00 <= u[1] <= 0xDFFF
        && var high: int, low: int := u[0], u[1]; point == 0x1_0000 + (high - 0xD800) * 0x400 + (low - 0xDC00))
  }

  lemma TableOfShort(point: nat)
    requires point < 0x1_0000
    ensures InTable(point, PointBytes(point))
  {
    if point >= 0x800 {
      TableOfThree(point);
    }
  }

  lemma TableOfThree(point: nat)
    requires 0x800 <= point < 0x1_0000
    ensures InTable(point, PointBytes(point))
  {
    SixBits(point);
    FirstByte(point);
  }

  lemma TableOfLong(point: nat)
    requires 0x1_0000 <= point < 0x11_0000
    ensures InTable(point, FourBytes(point))
  {
    SixBits(point);
  }

  /**
   * Every character is stored as the table says, whatever follows it; so is a lone low surrogate.
   * A high surrogate is never stored by itself.
   */
  lemma EncodesByTable(point: int, u: seq<Unit>, rest: seq<Unit>) returns (b: seq<byte>)
    requires InUtf16(point, u) && !(0xD800 <= point <= 0xDBFF)
    ensures InTable(point, b) && Encode(u + rest) == b + Encode(rest)
    ensures Encode([]) == []
  {
    hide PointBytes, FourBytes;
    b := PointBytes(point);
    assert (u + rest)[|u|..] == rest;
    if |u| == 2 {
      assert Combine(u[0], u[1]) == point;
      PointIsLong(point);
      TableOfLong(point);
    } else {
      TableOfShort(point);
    }
  }

  /** A high surrogate takes the next unit with it, whatever that is. */
  lemma EncodesPairs(high: Unit, next: Unit, rest: seq<Unit>) returns (b: seq<byte>)
    requires 0xD800 <= high <= 0xDBFF && 0x1_0000 + (high - 0xD800) * 0x400 + (next - 0xDC00) <= 0x10_FFFF
    ensures InTable(0x1_0000 + (high - 0xD800) * 0x400 + (next - 0xDC00), b)
    ensures Encode([high, next] + rest) == b + Encode(rest)
  {
    hide PointBytes, FourBytes;
    var point := Combine(high, next);
    b := PointBytes(point);
    assert ([high, next] + rest)[2..] == rest;
    if point >= 0x1_0000 {
      PointIsLong(point);
      TableOfLong(point);
    } else {
      TableOfShort(point);
    }
  }

  lemma PointIsLong(point: nat)
    requires point >= 0x1_0000
    ensures PointBytes(point) == FourBytes(point)
  {}

  /** The number read off the bytes of a table entry. */
  lemma TableBack(point: int, b: seq<byte>, x: int, y: int, z: int)
    requires InTable(point, b) && (|b| > 1 ==> x == b[1]) && (|b| > 2 ==> y == b[2]) && (|b| > 3 ==> z == b[3])
    ensures PointOf(b[0], x, y, z) == point && PointLength(b[0]) == |b|
  {
    if |b| > 1 { TailBits(b[1]); }
    if |b| > 2 { TailBits(b[2]); }
    if |b| > 3 { TailBits(b[3]); }
    LeadBits(b[0]);
  }

  lemma UnitsInUtf16(point: int, u: seq<Unit>)
    requires InUtf16(point, u)
    ensures Units(point) == u
  {}

  /** And bytes that are an entry of the table are read as its character, wherever they lie. */
  lemma DecodesByTable(s: seq<byte>, i: nat, end: int, point: int, b: seq<byte>, u: seq<Unit>)
    requires InTable(point, b) && InUtf16(point, u) && i + |b| <= |s| && s[i..i + |b|] == b && i < end
    ensures DecodeFrom(s, i, end) == u + DecodeFrom(s, i + |b|, end)
    ensures DecodeFrom(s, end, end) == []
  {
    hide PointOf, PointLength, Units;
    assert s[i] == s[i..i + |b|][0];
    if |b| > 1 { assert s[i + 1] == s[i..i + |b|][1]; }
    if |b| > 2 { assert s[i + 2] == s[i..i + |b|][2]; }
    if |b| > 3 { assert s[i + 3] == s[i..i + |b|][3]; }
    hide InTable, InUtf16;
    TableBack(point, b, At(s, i + 1), At(s, i + 2), At(s, i + 3));
    UnitsInUtf16(point, u);
  }

  /** Text of units below 0x80 is stored as it is. */
  lemma {:induction false} AsciiIsStoredAsIs(s: seq<Unit>)
    requires forall k :: 0 <= k < |s| ==> s[k] < 0x80
    ensures |Encode(s)| == |s| && forall k :: 0 <= k < |s| ==> Encode(s)[k] == s[k]
    decreases |s|
  {
    if s != [] {
      var b := EncodesByTable(s[0], [s[0]], s[1..]);
      assert [s[0]] + s[1..] == s;
      AsciiIsStoredAsIs(s[1..]);
      hide Encode;
      forall k | 0 <= k < |s| ensures Encode(s)[k] == s[k] {
        if k > 0 { assert s[k] == s[1..][k - 1]; }
      }
    }
  }

  /** Bytes below 0x80 are read as they are. */
  lemma {:induction false} AsciiIsReadAsIs(s: seq<byte>, i: nat, end: nat)
    requires i <= end <= |s| && forall k :: i <= k < end ==> s[k] < 0x80
    ensures |DecodeFrom(s, i, end)| == end - i
    ensures forall k :: 0 <= k < end - i ==> DecodeFrom(s, i, end)[k] == s[i + k]
    decreases end - i
  {
    if i < end {
      DecodesByTable(s, i, end, s[i], [s[i]], [s[i]]);
      AsciiIsReadAsIs(s, i + 1, end);
      hide DecodeFrom;
      forall k | 0 <= k < end - i ensures DecodeFrom(s, i, end)[k] == s[i + k] {
        if k > 0 { assert DecodeFrom(s, i + 1, end)[k - 1] == s[i + 1 + (k - 1)]; }
      }
    }
  }

  /** The first `n` of four bytes give `point`: the first one by its size, the others by their last six bits. */
  ghost predicate Loosely(a: int, b: int, c: int, d: int, n: nat, point: int) {
    || (a < 0xC0 && n == 1 && point == a)
    || (0xC0 <= a < 0xE0 && n == 2 && point == (a - 0xC0) * 64 + b % 64)
    || (0xE0 <= a < 0xF0 && n == 3 && point == (a - 0xE0) * 0x1000 + b % 64 * 64 + c % 64)
    || (0xF0 <= a && n == 4 && point == a % 8 * 0x4_0000 + b % 64 * 0x1000 + c % 64 * 64 + d % 64)
  }

  lemma PointLoosely(a: byte, b: int, c: int, d: int, n: nat, point: int)
    requires Loosely(a, b, c, d, n, point)
    ensures PointOf(a, b, c, d) == point && PointLength(a) == n
  {}

  /** Any bytes at all are read, also where no table has them. */
  lemma DecodesLoosely(s: seq<byte>, i: nat, end: int, n: nat, point: int, u: seq<Unit>)
    requires i < end && i + 3 < |s| && InUtf16(point, u) && Loosely(s[i], s[i + 1], s[i + 2], s[i + 3], n, point)
    ensures DecodeFrom(s, i, end) == u + DecodeFrom(s, i + n, end)
  {
    hide Loosely, PointOf, PointLength, Units, InUtf16;
    PointLoosely(s[i], s[i + 1], s[i + 2], s[i + 3], n, point);
    UnitsInUtf16(point, u);
  }

  /** Behind the buffer every four bytes read as a character of zero bits. */
  lemma DecodesBehind(s: seq<byte>, i: int, end: int)
    requires |s| <= i < end
    ensures DecodeFrom(s, i, end) == [0] + DecodeFrom(s, i + 4, end)
  {}
}
