/** Strings and references in a buffer written backwards; positions are distances from its end. */
module FlatStrings {
  import opened ByteBuffers
  import opened FlatTables
  import opened Utf8

  /** Only bytes in front were added. */
  ghost predicate Extends(after: seq<byte>, before: seq<byte>) {
    |before| <= |after| && after[|after| - |before|..] == before
  }

  lemma InFront(front: seq<byte>, middle: seq<byte>, s: seq<byte>)
    ensures Extends(front + s, s) && Extends(front + (middle + s), s) && Extends(front + middle + s, s)
  {}

  lemma ExtendsTransitive(c: seq<byte>, b: seq<byte>, a: seq<byte>)
    requires Extends(c, b) && Extends(b, a)
    ensures Extends(c, a)
  {}

  lemma Split(after: seq<byte>, before: seq<byte>) returns (front: seq<byte>)
    requires Extends(after, before)
    ensures after == front + before
  {
    front := after[..|after| - |before|];
  }

  // ---- references

  /** At distance `p` lies the relative offset of what lies at distance `loc`. */
  ghost predicate Refers(s: seq<byte>, p: nat, loc: nat) {
    4 <= p <= |s| && loc <= |s| && ReadInt32(s, |s| - p) == p - loc
  }

  lemma RefersKept(after: seq<byte>, before: seq<byte>, p: nat, loc: nat)
    requires Extends(after, before) && Refers(before, p, loc)
    ensures Refers(after, p, loc)
  {
    var front := Split(after, before);
    ReadBehind(front, before, |before| - p);
  }

  lemma Referring(loc: nat, rest: seq<byte>)
    requires loc <= |rest| && 4 + |rest| <= INT32_MAX
    ensures Refers(Bytes32(|rest| - loc + 4) + rest, 4 + |rest|, loc)
  {
    var s := Bytes32(|rest| - loc + 4) + rest;
    assert s[0..4] == Bytes32(|rest| - loc + 4);
    Read32Back(s, 0, |rest| - loc + 4);
  }

  // ---- strings

  /** At distance `loc` lie a length, that many bytes, and a zero byte. */
  ghost predicate StringAt(s: seq<byte>, loc: nat, utf8: seq<byte>) {
    && 4 + |utf8| < loc <= |s|
    && ReadInt32(s, |s| - loc) == |utf8|
    && s[|s| - loc + 4..|s| - loc + 4 + |utf8|] == utf8
    && s[|s| - loc + 4 + |utf8|] == 0
  }

  lemma StringKept(after: seq<byte>, before: seq<byte>, loc: nat, utf8: seq<byte>)
    requires Extends(after, before) && StringAt(before, loc, utf8)
    ensures StringAt(after, loc, utf8)
  {
    var front := Split(after, before);
    var at := |before| - loc;
    ReadBehind(front, before, at);
    assert after[|front| + at + 4..|front| + at + 4 + |utf8|] == before[at + 4..at + 4 + |utf8|];
  }

  lemma StringWritten(utf8: seq<byte>, rest: seq<byte>)
    requires |utf8| + 4 <= INT32_MAX && rest != [] && rest[0] == 0
    ensures StringAt(Bytes32(|utf8|) + (utf8 + rest), 4 + |utf8| + |rest|, utf8)
  {
    var s := Bytes32(|utf8|) + (utf8 + rest);
    assert s[0..4] == Bytes32(|utf8|);
    Read32Back(s, 0, |utf8|);
    assert s[4..4 + |utf8|] == utf8;
  }

  // ---- vectors

  ghost predicate AllOfSize(elems: seq<seq<byte>>, size: nat) {
    forall j :: 0 <= j < |elems| ==> |elems[j]| == size
  }

  function Flat(elems: seq<seq<byte>>): seq<byte> {
    if elems == [] then [] else elems[0] + Flat(elems[1..])
  }

  /** At distance `loc` lie a count and that many elements of `size` bytes each. */
  ghost predicate VectorAt(s: seq<byte>, loc: nat, elems: seq<seq<byte>>, size: nat) {
    && AllOfSize(elems, size) && 4 + |Flat(elems)| <= loc <= |s|
    && ReadInt32(s, |s| - loc) == |elems|
    && HasAt(s, |s| - loc + 4, Flat(elems))
  }

  lemma VectorWritten(elems: seq<seq<byte>>, size: nat, rest: seq<byte>)
    requires AllOfSize(elems, size) && |elems| <= INT32_MAX
    ensures VectorAt(Bytes32(|elems|) + (Flat(elems) + rest), 4 + |Flat(elems)| + |rest|, elems, size)
  {
    var s := Bytes32(|elems|) + (Flat(elems) + rest);
    assert s[0..4] == Bytes32(|elems|);
    Read32Back(s, 0, |elems|);
  }

  lemma VectorKept(after: seq<byte>, before: seq<byte>, loc: nat, elems: seq<seq<byte>>, size: nat)
    requires Extends(after, before) && VectorAt(before, loc, elems, size)
    ensures VectorAt(after, loc, elems, size)
  {
    hide Flat;
    var front := Split(after, before);
    ReadBehind(front, before, |before| - loc);
  }

  /** The reference at `pos` leads to a place with a length. */
  ghost predicate VectorReadable(s: seq<byte>, pos: nat) {
    pos + 4 <= |s| && 0 <= pos + ReadInt32(s, pos) && pos + ReadInt32(s, pos) + 4 <= |s|
  }

  /** `__vector`: where the elements start. */
  function VectorStart(s: seq<byte>, pos: nat): int
    requires pos + 4 <= |s|
  {
    pos + ReadInt32(s, pos) + 4
  }

  /** `__vector_len`: how many there are. */
  function VectorLength(s: seq<byte>, pos: nat): int
    requires VectorReadable(s, pos)
  {
    ReadInt32(s, pos + ReadInt32(s, pos))
  }

  /** A reader that follows a reference to a vector finds its length and each element at its place. */
  lemma VectorReadBack(s: seq<byte>, p: nat, loc: nat, elems: seq<seq<byte>>, size: nat)
    requires p <= |s| && Refers(s, p, loc) && VectorAt(s, loc, elems, size)
    ensures VectorReadable(s, |s| - p)
    ensures VectorLength(s, |s| - p) == |elems| && VectorStart(s, |s| - p) >= 0
    ensures forall j: nat :: j < |elems| ==> HasAt(s, VectorStart(s, |s| - p) + Times(size, j), elems[j])
  {
    hide HasAt, Flat, ReadInt32;
    forall j: nat | j < |elems| ensures HasAt(s, VectorStart(s, |s| - p) + Times(size, j), elems[j]) {
      ElementAt(s, |s| - loc + 4, elems, size, j);
    }
  }

  function Times(size: nat, j: nat): nat { size * j }

  lemma {:induction false} ElementAt(s: seq<byte>, at: nat, elems: seq<seq<byte>>, size: nat, j: nat)
    requires HasAt(s, at, Flat(elems)) && AllOfSize(elems, size) && j < |elems|
    ensures HasAt(s, at + Times(size, j), elems[j])
    decreases j
  {
    hide HasAt;
    HasParts(s, at, elems[0], Flat(elems[1..]));
    if j > 0 {
      ElementAt(s, at + size, elems[1..], size, j - 1);
      assert at + size + size * (j - 1) == at + size * j;
    } else {
      assert at + size * 0 == at;
    }
  }

  // ---- reading strings

  /** What `__string` reads at any position: the reference there, the length it leads to, and that many bytes. */
  function StringFrom(s: seq<byte>, pos: int): seq<Unit> {
    var at := pos + PeekInt32(s, pos);
    DecodeFrom(s, at + 4, at + 4 + PeekInt32(s, at))
  }

  /** `__string`: a string the builder wrote comes back unchanged exactly if it is paired. */
  method ReadString(s: seq<byte>, pos: int) returns (result: seq<Unit>)
    ensures result == StringFrom(s, pos)
    ensures forall loc: nat, u :: 0 <= pos <= |s| && Refers(s, |s| - pos, loc) && StringAt(s, loc, Encode(u)) ==>
                                    (result == u <==> Paired(u))
  {
    hide Encode, Paired, DecodeFrom, PeekInt32, Refers, StringAt;
    var at := pos + PeekInt32(s, pos);
    var length := PeekInt32(s, at);
    result := DecodeUtf8(s, at + 4, length);
    assert result == StringFrom(s, pos);
    hide StringFrom;
    forall loc: nat, u | 0 <= pos <= |s| && Refers(s, |s| - pos, loc) && StringAt(s, loc, Encode(u))
      ensures result == u <==> Paired(u)
    {
      ReferenceLeadsToString(s, pos, loc, u);
    }
  }

  /** What a reference to a string reads. */
  lemma ReferenceLeadsToString(s: seq<byte>, pos: nat, loc: nat, u: seq<Unit>)
    requires pos <= |s| && Refers(s, |s| - pos, loc) && StringAt(s, loc, Encode(u))
    ensures StringFrom(s, pos) == u <==> Paired(u)
  {
    hide Encode, Paired, DecodeFrom;
    StringBack(s, loc, u);
  }

  /** A bound of `subarray`: counted from the end if negative, and never outside the array. */
  function Bound(size: nat, x: int): (b: nat)
    ensures b <= size && (0 <= x <= size ==> b == x) && (x >= size ==> b == size)
    ensures (0 <= size + x < size ==> b == size + x) && (size + x < 0 ==> b == 0)
  {
    if x < 0 then (if size + x > 0 then size + x else 0) else if x < size then x else size
  }

  /** `subarray`: empty if the bounds are the wrong way round. */
  function Subarray(s: seq<byte>, first: int, last: int): (r: seq<byte>)
    ensures forall k :: 0 <= k < |r| ==> Bound(|s|, first) + k < Bound(|s|, last) && r[k] == s[Bound(|s|, first) + k]
    ensures |r| == if Bound(|s|, first) < Bound(|s|, last) then Bound(|s|, last) - Bound(|s|, first) else 0
  {
    var i, j := Bound(|s|, first), Bound(|s|, last);
    if i <= j then s[i..j] else []
  }

  /** `__string` when asked for the bytes: those of a string in the buffer come back unchanged, whatever they are. */
  method ReadStringBytes(s: seq<byte>, pos: int) returns (result: seq<byte>)
    ensures var at := pos + PeekInt32(s, pos); result == Subarray(s, at + 4, at + 4 + PeekInt32(s, at))
    ensures forall loc: nat, utf8 :: 0 <= pos <= |s| && Refers(s, |s| - pos, loc) && StringAt(s, loc, utf8) ==>
                                       result == utf8
  {
    hide PeekInt32;
    var at := pos + PeekInt32(s, pos);
    var length := PeekInt32(s, at);
    result := Subarray(s, at + 4, at + 4 + length);
    forall loc: nat, utf8 | 0 <= pos <= |s| && Refers(s, |s| - pos, loc) && StringAt(s, loc, utf8)
      ensures result == utf8
    {
      PeekInside(s, pos);
      PeekInside(s, at);
    }
  }

  /** Inside the buffer a number is read as it is. */
  lemma PeekInside(s: seq<byte>, pos: int)
    ensures 0 <= pos && pos + 4 <= |s| ==> PeekInt32(s, pos) == ReadInt32(s, pos)
  {}

  /** A string decodes to itself, wherever it lies, exactly when its high surrogates are followed by low ones. */
  lemma StringBack(s: seq<byte>, loc: nat, u: seq<Unit>)
    requires StringAt(s, loc, Encode(u))
    ensures DecodeFrom(s, |s| - loc + 4, |s| - loc + 4 + |Encode(u)|) == u <==> Paired(u)
  {
    hide Encode, DecodeFrom, Returned, Paired, HasAt;
    SliceHas(s, |s| - loc + 4, Encode(u));
    DecodeEncoded(s, |s| - loc + 4, u);
    ReturnedIff(u);
  }

  /** From a table's field to its string: the lookup leads to the reference, and the reference to the string. */
  lemma FieldLeadsToString(s: seq<byte>, t: Table, i: nat, loc: nat, u: seq<Unit>)
    requires Laid(s, t) && Proper(t) && Fits(t) && i < |t.slots| && t.slots[i] != 0
    requires t.slots[i] <= |s| && Refers(s, t.slots[i], loc) && StringAt(s, loc, Encode(u))
    ensures FieldFound(s, t, i) && (StringFrom(s, |s| - t.slots[i]) == u <==> Paired(u))
  {
    hide Laid, Fits, ReadInt32, Readable, FieldOffset, Encode, Paired, Refers, StringAt, StringFrom;
    LookupsSucceedIff(s, t);
    assert FieldFound(s, t, i);
    ReferenceLeadsToString(s, |s| - t.slots[i], loc, u);
  }
}
