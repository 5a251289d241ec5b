/** The FlatBuffers builder: a byte buffer written backwards, with alignment and doubling growth. */
module FlatBuilders {
  import opened ByteBuffers
  import opened FlatTables
  import opened FlatStrings
  import opened Utf8

  const SIZEOF_SHORT := 2
  const SIZEOF_INT := 4

  /** Growth stops at this capacity: one more doubling would not fit a positive 32-bit number. */
  const GROWTH_LIMIT: int := 0x4000_0000

  /** The capacity at which a buffer that has `capacity` bytes now stops growing. */
  ghost function MaxCapacity(capacity: nat): (m: nat)
    requires capacity > 0
    ensures m >= capacity && m >= GROWTH_LIMIT
    decreases GROWTH_LIMIT - capacity
  {
    if capacity >= GROWTH_LIMIT then capacity else MaxCapacity(2 * capacity)
  }

  ghost predicate IsPowerOfTwo(n: nat)
    decreases n
  {
    n == 1 || (n > 1 && n % 2 == 0 && IsPowerOfTwo(n / 2))
  }

  /** The padding before an element of `size` bytes that follows `written` bytes: the least that aligns it. */
  function AlignSize(written: nat, size: nat): (pad: nat)
    requires size > 0
    ensures pad < size && IsMultiple(written + pad, size)
    ensures IsMultiple(written, size) ==> pad == 0
  {
    UpToMultiple(written, size);
    if written % size == 0 then 0 else size - written % size
  }

  /** The bits `x` and `y` have in common, `x` in two's complement. */
  function BitAnd(x: int, y: nat): nat
    decreases y
  {
    if y == 0 then 0 else 2 * BitAnd(x / 2, y / 2) + x % 2 * (y % 2)
  }

  /** The bits of the complement of `x`. */
  function Complement(x: int): int { -x - 1 }

  /** Both work bit by bit. */
  lemma BitByBit(x: int, y: nat, p: int, q: nat)
    requires 0 <= p <= 1 && q <= 1
    ensures BitAnd(2 * x + p, 2 * y + q) == 2 * BitAnd(x, y) + (if p == 1 && q == 1 then 1 else 0)
    ensures BitAnd(x, 0) == 0 && Complement(2 * x + p) == 2 * Complement(x) + 1 - p
    ensures Complement(0) == -1 && Complement(-1) == 0
  {}

  /** The code computes the padding with a complement and a mask; for powers of two that is the least padding. */
  lemma AlignSizeByMask(written: nat, size: nat)
    requires IsPowerOfTwo(size) && size > 0
    ensures BitAnd(Complement(written) + 1, size - 1) == AlignSize(written, size)
  {
    hide BitAnd, IsPowerOfTwo;
    var w: int := written;
    MaskIsRemainder(-w, size);
    NegativeRemainder(w, size);
  }

  lemma NegativeRemainder(w: int, size: int)
    requires size > 0
    ensures -w % size == if w % size == 0 then 0 else size - w % size
  {
    var q, r := w / size, w % size;
    assert w == size * q + r;
    if r == 0 {
      assert size * -q == -(size * q);
      ModOf(-w, size, -q, 0);
    } else {
      assert size * (-q - 1) == -(size * q) - size;
      ModOf(-w, size, -q - 1, size - r);
    }
  }

  /** Masking with one less than a power of two is taking the remainder. */
  lemma {:induction false} MaskIsRemainder(x: int, size: nat)
    requires IsPowerOfTwo(size) && size > 0
    ensures BitAnd(x, size - 1) == x % size
    decreases size
  {
    if size > 1 {
      var half := size / 2;
      MaskIsRemainder(x / 2, half);
      assert (size - 1) / 2 == half - 1 && (size - 1) % 2 == 1 && size == 2 * half;
      HalvedRemainder(x, half);
    }
  }

  lemma HalvedRemainder(x: int, half: nat)
    requires half > 0
    ensures 2 * (x / 2 % half) + x % 2 == x % (2 * half)
  {
    var q, r := x / 2 / half, x / 2 % half;
    assert x / 2 == half * q + r && x == 2 * (x / 2) + x % 2;
    assert x == 2 * half * q + (2 * r + x % 2) by { assert 2 * (half * q) == 2 * half * q; }
    ModOf(x, 2 * half, q, 2 * r + x % 2);
  }

  lemma UpToMultiple(x: int, m: int)
    requires m > 0
    ensures (x + m - x % m) % m == 0
  {
    assert x + m - x % m == m * (x / m + 1) by {
      assert x == m * (x / m) + x % m;
    }
    ModOf(m * (x / m + 1), m, x / m + 1, 0);
  }

  /** A quotient and a small remainder are the quotient and the remainder. */
  lemma ModOf(x: int, m: int, q: int, r: int)
    requires m > 0 && x == m * q + r && 0 <= r < m
    ensures x % m == r && x / m == q
  {
    var d := x / m - q;
    assert x == m * (x / m) + x % m;
    assert m * d == r - x % m by {
      assert m * d == m * (x / m) - m * q;
    }
    SmallMultiple(m, d);
  }

  lemma SmallMultiple(m: int, d: int)
    requires m > 0 && -m < m * d < m
    ensures d == 0
  {
    assert d >= 1 ==> m * d >= m;
    assert d <= -1 ==> m * d <= -m;
  }

  function Zeros(n: nat): (z: seq<byte>)
    ensures |z| == n
  {
    seq(n, _ => 0)
  }

  ghost predicate TablesLaid(s: seq<byte>, tables: seq<Table>, vtables: seq<nat>) {
    && (forall t :: t in tables ==> Laid(s, t) && Proper(t))
    && (forall v :: v in vtables ==> v > 0 && KnownVtable(s, v))
  }

  /** Every finished table reads back all its fields exactly if its numbers fit sixteen signed bits. */
  lemma TablesReadBack(s: seq<byte>, tables: seq<Table>, vtables: seq<nat>)
    requires TablesLaid(s, tables, vtables)
    ensures forall t :: t in tables ==> (AllFieldsFound(s, t) <==> Fits(t))
  {
    forall t | t in tables ensures AllFieldsFound(s, t) <==> Fits(t) { LookupsSucceedIff(s, t); }
  }

  ghost predicate SlotsBelow(slots: seq<nat>, offset: nat) {
    forall i :: 0 <= i < |slots| ==> slots[i] <= offset
  }

  lemma Regroup(a: seq<byte>, b: seq<byte>, c: seq<byte>)
    ensures a + (b + c) == a + b + c
  {}

  lemma SlotsBelowGrow(slots: seq<nat>, offset: nat, offset': nat)
    requires SlotsBelow(slots, offset) && offset <= offset'
    ensures SlotsBelow(slots, offset')
  {}

  /** Writing more in front disturbs no finished table and no remembered vtable. */
  lemma TablesLaidKept(front: seq<byte>, s: seq<byte>, tables: seq<Table>, vtables: seq<nat>)
    requires TablesLaid(s, tables, vtables)
    ensures TablesLaid(front + s, tables, vtables)
  {
    forall t | t in tables ensures Laid(front + s, t) { LaidKept(front, s, t); }
    forall v | v in vtables ensures KnownVtable(front + s, v) { KnownKept(front, s, v); }
  }

  lemma VtableNumbers(t: Table)
    ensures var vs, n := VtableShorts(t), TrimmedSize(t.slots);
            && n <= |t.slots| && |vs| == n + 2 && vs[0] == 2 * (n + 2) && vs[1] == t.loc - t.start
            && forall i :: 0 <= i < n ==> vs[i + 2] == Entry(t.loc, t.slots[i])
  {}

  /** The numbers from number `k` on, in front of `w`. */
  ghost function FromShort(vs: seq<int>, k: nat, w: seq<byte>): (s: seq<byte>)
    requires k <= |vs|
    ensures |s| == 2 * (|vs| - k) + |w|
  {
    Shorts(vs[k..]) + w
  }

  lemma FromShortSteps(vs: seq<int>, k: nat, w: seq<byte>)
    requires k <= |vs|
    ensures k == |vs| ==> FromShort(vs, k, w) == w
    ensures k < |vs| ==> Bytes16(vs[k]) + FromShort(vs, k + 1, w) == FromShort(vs, k, w)
    ensures FromShort(vs, 0, w) == Shorts(vs) + w
  {
    assert vs[0..] == vs;
    if k < |vs| {
      assert vs[k..][1..] == vs[k + 1..];
      assert Shorts(vs[k..]) == Bytes16(vs[k]) + Shorts(vs[k + 1..]);
      hide Shorts, Bytes16;
      Regroup(Bytes16(vs[k]), Shorts(vs[k + 1..]), w);
    }
  }

  /** The size of the buffer after the table being built is finished, before a shared vtable is taken back. */
  ghost function EndSize(written: nat, slots: seq<nat>): nat {
    written + AlignSize(written, SIZEOF_INT) + SIZEOF_INT + 2 * (TrimmedSize(slots) + 2)
  }

  lemma NoRoomToEnd(written: nat, slots: seq<nat>)
    ensures written + AlignSize(written, SIZEOF_INT) + SIZEOF_INT <= EndSize(written, slots)
  {}

  /** The space a vector of `size` bytes needs: what the larger of the two preparations asks for. */
  ghost function VectorSize(written: nat, size: nat, alignment: nat): nat
    requires alignment > 0
  {
    var once := written + AlignSize(written + size, SIZEOF_INT);
    var twice := once + AlignSize(once + size, alignment);
    if alignment > SIZEOF_INT then twice + alignment + size else once + SIZEOF_INT + size
  }

  /** The vector fits exactly if both preparations do. */
  lemma VectorSizes(written: nat, size: nat, alignment: nat, most: nat)
    requires alignment == 1 || alignment == 2 || (alignment >= 4 && alignment % 4 == 0)
    ensures var once := written + AlignSize(written + size, SIZEOF_INT);
            var twice := once + AlignSize(once + size, alignment);
            VectorSize(written, size, alignment) <= most <==>
            once + SIZEOF_INT + size <= most && twice + alignment + size <= most
  {
    var once := written + AlignSize(written + size, SIZEOF_INT);
    assert (once + size) % SIZEOF_INT == 0;
    if alignment <= SIZEOF_INT {
      MultipleOfMultiple(once + size, SIZEOF_INT, alignment);
    }
  }

  /** The preparations use no more than that. */
  lemma PreparedSize(written: nat, once: nat, twice: nat, size: nat, alignment: nat)
    requires alignment == 1 || alignment == 2 || (alignment >= 4 && alignment % 4 == 0)
    requires once == written + AlignSize(written + size, SIZEOF_INT)
    requires twice == once + AlignSize(once + size, alignment) && (alignment < SIZEOF_INT ==> twice == once)
    ensures twice + size + SIZEOF_INT <= VectorSize(written, size, alignment)
  {
    hide AlignSize, IsMultiple;
    VectorSizes(written, size, alignment, VectorSize(written, size, alignment));
  }

  /** Single bytes need no padding, and a string needs more room than its zero byte. */
  lemma NoPadding(written: nat, size: nat)
    ensures AlignSize(written, 1) == 0 && written + 1 <= VectorSize(written + 1, size, 1)
  {}

  function WithSlot(slots: seq<nat>, voffset: nat, offset: nat): seq<nat> {
    if voffset < |slots| then slots[voffset := offset] else slots
  }

  ghost predicate IsMultiple(x: nat, m: nat) { m > 0 && x % m == 0 }

  lemma AlignedBefore(written: nat, space: nat, size: nat, n: nat)
    requires VectorReady(written, space, size * n, size)
    ensures IsMultiple(written, size)
  {
    var x := written + size * n;
    assert x == size * (x / size);
    assert written == size * (x / size - n);
    ModOf(written, size, x / size - n, 0);
  }

  lemma AlignedNext(written: nat, size: nat, i: nat)
    requires size > 0 && IsMultiple(written, size)
    ensures IsMultiple(written + size, size) && AlignSize(written, size) == 0
    ensures Times(size, i + 1) == Times(size, i) + size
  {
    assert written + size == size * (written / size + 1);
    ModOf(written + size, size, written / size + 1, 0);
  }

  lemma FlatSteps(elems: seq<seq<byte>>, i: nat, rest: seq<byte>)
    requires i <= |elems|
    ensures i == |elems| ==> Flat(elems[i..]) + rest == rest
    ensures i < |elems| ==> Flat(elems[i..]) + rest == elems[i] + (Flat(elems[i + 1..]) + rest)
  {
    if i < |elems| {
      assert elems[i..][1..] == elems[i + 1..];
    }
  }

  lemma SlotsProper(t: Table, below: nat)
    requires SlotsBelow(t.slots, below) && below < t.loc
    ensures Proper(t)
  {}

  /** The bytes `s` end in the table being finished, with its vtable in front and no link to it yet. */
  ghost predicate Closing(s: seq<byte>, t: Table, pad: seq<byte>, w: seq<byte>, tables: seq<Table>, vtables: seq<nat>) {
    && s == Shorts(VtableShorts(t)) + (Bytes32(0) + (pad + w)) && |s| <= INT32_MAX
    && t.loc == 4 + |pad| + |w| && Proper(t) && TablesLaid(w, tables, vtables)
  }

  lemma FirstShort(s: seq<byte>, vs: seq<int>)
    requires Serves(s, |s|, vs) && |vs| > 0
    ensures ShortAt(s, |s|, 0) == Wrap16(vs[0])
  {}

  /** The layout after a table gets its own vtable. */
  lemma EndOwn(t: Table, pad: seq<byte>, w: seq<byte>, tables: seq<Table>, vtables: seq<nat>)
    requires t.loc == 4 + |pad| + |w| && Proper(t) && TablesLaid(w, tables, vtables)
    requires 2 * |VtableShorts(t)| <= INT32_MAX
    ensures var v := 2 * |VtableShorts(t)| + t.loc;
            TablesLaid(Shorts(VtableShorts(t)) + (Bytes32(v - t.loc) + (pad + w)), tables + [t], vtables + [v])
  {
    hide Shorts, VtableShorts, Bytes32, Proper, KnownVtable, LaidAt;
    var vs := VtableShorts(t);
    var v := 2 * |vs| + t.loc;
    var front := Shorts(vs) + Bytes32(v - t.loc) + pad;
    var s := Shorts(vs) + (Bytes32(v - t.loc) + (pad + w));
    assert s == front + w;
    TablesLaidKept(front, w, tables, vtables);
    OwnVtable(t, pad + w);
    assert Laid(s, t);
  }

  /** The layout after a table shares an earlier vtable. */
  lemma EndShared(s: seq<byte>, t: Table, pad: seq<byte>, w: seq<byte>, v: nat, tables: seq<Table>, vtables: seq<nat>)
    requires Closing(s, t, pad, w, tables, vtables) && v in vtables && SameVtable(s, |s|, v, |VtableShorts(t)|)
    ensures TablesLaid(Bytes32(v - t.loc) + (pad + w), tables + [t], vtables)
  {
    hide Shorts, VtableShorts, Bytes32, Proper, KnownVtable, LaidAt, Serves, SameVtable;
    var vs := VtableShorts(t);
    ShortsServe(vs, Bytes32(0) + (pad + w));
    SharedServes(s, |s|, v, vs);
    KnownReadable(w, v, 0);
    var front := Shorts(vs) + Bytes32(0) + pad;
    assert s == front + w;
    ServesInside(front, w, v, vs);
    SharedVtable(t, pad, w, v);
    var s2 := Bytes32(v - t.loc) + (pad + w);
    assert s2 == (Bytes32(v - t.loc) + pad) + w;
    TablesLaidKept(Bytes32(v - t.loc) + pad, w, tables, vtables);
    assert Laid(s2, t);
  }

  lemma CutFront(all: seq<byte>, s: seq<byte>, loc: nat, front: seq<byte>, rest: seq<byte>)
    requires |s| <= |all| && s == all[|all| - |s|..] && s == front + rest && |rest| == loc
    ensures all[|all| - loc..] == rest
  {}

  /** Bytes with the number between `front` and `rest` replaced. */
  ghost function WithNumber(s: seq<byte>, loc: nat, value: int): seq<byte>
    requires 4 <= loc <= |s|
  {
    s[..|s| - loc] + Bytes32(value) + s[|s| - loc + 4..]
  }

  lemma Patched(front: seq<byte>, value: int, rest: seq<byte>)
    ensures WithNumber(front + (Bytes32(0) + rest), 4 + |rest|, value) == front + (Bytes32(value) + rest)
    ensures front == [] ==> WithNumber(Bytes32(0) + rest, 4 + |rest|, value) == Bytes32(value) + rest
  {
    assert [] + (Bytes32(0) + rest) == Bytes32(0) + rest;
  }

  /** Only zero bytes were added in front. */
  ghost predicate PaddedBy(after: seq<byte>, before: seq<byte>) {
    exists n: nat :: after == Zeros(n) + before
  }

  lemma PaddedBySome(n: nat, w: seq<byte>)
    ensures PaddedBy(Zeros(n) + w, w) && Zeros(0) + w == w
  {}

  lemma PaddedByNone(w: seq<byte>)
    ensures PaddedBy(w, w)
  {
    assert Zeros(0) + w == w;
  }

  lemma PaddedByZero(after: seq<byte>, w: seq<byte>, ok: bool)
    requires after == if ok then [0] + Zeros(AlignSize(|w|, 1)) + w else w
    ensures PaddedBy(after, w) && Extends(after, w) && (ok ==> |after| > |w| && after[0] == 0)
  {
    assert [0] + Zeros(0) + w == Zeros(1) + w;
    assert w == Zeros(0) + w;
  }

  lemma PaddedTwice(c: seq<byte>, b: seq<byte>, a: seq<byte>)
    requires PaddedBy(c, b) && PaddedBy(b, a)
    ensures PaddedBy(c, a) && (b != [] && b[0] == 0 ==> c != [] && c[0] == 0)
  {
    var m: nat :| c == Zeros(m) + b;
    var n: nat :| b == Zeros(n) + a;
    assert c == Zeros(m + n) + a;
  }

  lemma PaddedExtends(after: seq<byte>, before: seq<byte>)
    requires PaddedBy(after, before)
    ensures Extends(after, before) && |before| <= |after|
  {}

  /** Where a vector of `size` bytes may start: aligned at its far end, with room for it and its length. */
  ghost predicate VectorReady(offset: nat, space: nat, size: nat, alignment: nat) {
    && alignment > 0 && (offset + size) % SIZEOF_INT == 0 && (offset + size) % alignment == 0
    && size + SIZEOF_INT <= space
  }

  lemma ReadyRoom(offset: nat, space: nat, size: nat, alignment: nat)
    requires VectorReady(offset, space, size, alignment)
    ensures size <= size + SIZEOF_INT <= space
  {}

  lemma NoLess(size: nat, n: nat)
    requires size > 0
    ensures n <= size * n && Times(size, n) == size * n
  {}

  lemma KnownBounds(s: seq<byte>, v: nat)
    requires KnownVtable(s, v)
    ensures v > 0
  {}

  lemma AlignedToInt(x: nat)
    requires IsMultiple(x, SIZEOF_INT)
    ensures x % SIZEOF_INT == 0
  {}

  lemma EvenAfter(written: nat)
    ensures (written + AlignSize(written, SIZEOF_INT) + SIZEOF_INT) % 2 == 0
  {
    hide AlignSize;
    var n := written + AlignSize(written, SIZEOF_INT);
    var q := n / SIZEOF_INT;
    assert n == SIZEOF_INT * q;
    ModOf(n + SIZEOF_INT, 2, 2 * q + 2, 0);
  }

  lemma SmallAlignment(x: nat, alignment: nat)
    requires IsMultiple(x, SIZEOF_INT)
    ensures alignment == 1 || alignment == 2 ==> IsMultiple(x, alignment)
  {
    if alignment == 2 { assert x == 2 * (2 * (x / 4)); }
  }

  /** After both preparations the far end is aligned to the length and to the elements. */
  lemma VectorIsReady(once: nat, twice: nat, space: nat, size: nat, alignment: nat)
    requires alignment == 1 || alignment == 2 || (alignment >= SIZEOF_INT && alignment % SIZEOF_INT == 0)
    requires IsMultiple(once + size, SIZEOF_INT) && IsMultiple(twice + size, alignment)
    requires alignment + size <= space && (alignment < SIZEOF_INT ==> twice == once && SIZEOF_INT + size <= space)
    ensures VectorReady(twice, space, size, alignment)
  {
    if alignment >= SIZEOF_INT { MultipleOfMultiple(twice + size, alignment, SIZEOF_INT); }
  }

  lemma PowersOfTwo(n: nat)
    ensures IsPowerOfTwo(1) && IsPowerOfTwo(4)
    ensures IsPowerOfTwo(n) ==> n == 1 || n == 2 || (n >= 4 && n % 4 == 0)
  {
    if IsPowerOfTwo(n) && n > 2 {
      assert IsPowerOfTwo(n / 2);
    }
  }

  /** A multiple of a multiple of `d` is a multiple of `d`. */
  lemma MultipleOfMultiple(x: nat, m: nat, d: nat)
    requires m > 0 && d > 0 && x % m == 0 && m % d == 0
    ensures x % d == 0
  {
    var p, q := x / m, m / d;
    assert x == m * p && m == d * q;
    assert x == d * (q * p);
    ModOf(x, d, q * p, 0);
  }

  /** Equal vtables begin with the same number. */
  lemma FirstOfSame(s: seq<byte>, len: nat)
    requires 2 <= len <= |s|
    ensures forall v: nat :: SameVtable(s, |s|, v, len / 2) ==> 2 <= v <= |s| && ShortAt(s, |s|, 0) == ShortAt(s, v, 0)
  {}

  /** An earlier vtable would serve the table as well as its own. */
  ghost predicate Shareable(w: seq<byte>, vtables: seq<nat>, t: Table) {
    2 * |VtableShorts(t)| <= INT16_MAX && exists v :: v in vtables && Serves(w, v, VtableShorts(t))
  }

  /** The comparison finds a vtable exactly if one would serve. */
  lemma SameIfServes(s: seq<byte>, t: Table, pad: seq<byte>, w: seq<byte>, tables: seq<Table>, vtables: seq<nat>,
        v: nat)
    requires Closing(s, t, pad, w, tables, vtables) && v in vtables
    ensures SameVtable(s, |s|, v, |VtableShorts(t)|) <==> Serves(w, v, VtableShorts(t))
  {
    hide Shorts, VtableShorts, Bytes32, Proper, KnownVtable;
    var vs := VtableShorts(t);
    ShortsServe(vs, Bytes32(0) + (pad + w));
    KnownReadable(w, v, 0);
    var front := Shorts(vs) + Bytes32(0) + pad;
    assert s == front + w;
    if SameVtable(s, |s|, v, |vs|) {
      SharedServes(s, |s|, v, vs);
      ServesInside(front, w, v, vs);
    }
    if Serves(w, v, vs) {
      ServesKept(front, w, v, vs);
      forall k | 0 <= k < |vs|
        ensures ShortAt(s, |s|, k) == ShortAt(s, v, k)
      {
        assert ShortAt(s, |s|, k) == Wrap16(vs[k]);
      }
    }
  }

  lemma Sharing(s: seq<byte>, t: Table, pad: seq<byte>, w: seq<byte>, tables: seq<Table>, vtables: seq<nat>,
        existing: nat)
    requires Closing(s, t, pad, w, tables, vtables)
    requires var n := |VtableShorts(t)|;
             if existing != 0 then existing in vtables && 2 * n <= INT16_MAX && SameVtable(s, |s|, existing, n)
             else 2 * n <= INT16_MAX ==> forall v :: v in vtables ==> !SameVtable(s, |s|, v, n)
    ensures Shareable(w, vtables, t) <==> existing != 0
  {
    hide Closing, SameVtable, Serves;
    forall v | v in vtables ensures SameVtable(s, |s|, v, |VtableShorts(t)|) <==> Serves(w, v, VtableShorts(t)) {
      SameIfServes(s, t, pad, w, tables, vtables, v);
    }
  }

  lemma PadOne(bytes: seq<byte>, space: nat, written: seq<byte>, n: nat, w: seq<byte>)
    requires 0 < space <= |bytes| && written == bytes[space..] && written == Zeros(n) + w
    ensures bytes[space - 1 := 0][space - 1..] == [0] + written == Zeros(n + 1) + w
  {
    assert Zeros(n + 1) == [0] + Zeros(n);
  }

  class Builder {
    var bytes: seq<byte>
    var space: nat
    var minalign: nat
    var hasVtable: bool
    var vtable: seq<nat>
    var vtableInUse: nat
    var isNested: bool
    var objectStart: nat
    var vtables: seq<nat>
    var vectorNumElems: nat
    var forceDefaults: bool
    ghost var tables: seq<Table>

    /** What has been written so far; positions in it are kept as distances from its end. */
    ghost var written: seq<byte>

    ghost predicate Valid()
      reads this
    {
      space <= |bytes| && 0 < |bytes| <= INT32_MAX && written == bytes[space..]
    }

    /** Finished tables are laid out with their vtables, and remembered vtables are where they should be. */
    ghost predicate LayoutOk()
      reads this
    {
      && TablesLaid(written, tables, vtables)
      && objectStart <= |written|
      && (isNested ==> hasVtable && vtableInUse <= |vtable| && SlotsBelow(vtable[..vtableInUse], |written|))
    }

    constructor (initialSize: nat)
      requires initialSize <= INT32_MAX
      ensures Valid() && written == [] && minalign == 1 && |bytes| == if initialSize == 0 then 1024 else initialSize
      ensures !isNested && !hasVtable && !forceDefaults && vtables == [] && tables == [] && LayoutOk()
    {
      var size := if initialSize == 0 then 1024 else initialSize;
      bytes := Zeros(size);
      space := size;
      minalign := 1;
      hasVtable, vtable, vtableInUse, isNested, objectStart, vtables := false, [], 0, false, 0, [];
      vectorNumElems := 0;
      forceDefaults := false;
      written, tables := [], [];
    }

    /** Distance of the last written byte from the end of the buffer. */
    function Offset(): (o: nat)
      requires Valid()
      reads this
      ensures o == |written|
    {
      |bytes| - space
    }

    lemma Bounded()
      requires Valid()
      ensures |written| + space <= INT32_MAX && |bytes| > 0
    {}

    /** Doubles the buffer; every written byte keeps its distance from the end. */
    method Grow() returns (ok: bool)
      requires Valid()
      modifies this`bytes, this`space
      ensures Valid()
      ensures ok <==> |old(bytes)| < GROWTH_LIMIT
      ensures if ok then |bytes| == 2 * |old(bytes)| else bytes == old(bytes) && MaxCapacity(|bytes|) == |bytes|
      ensures MaxCapacity(|bytes|) == old(MaxCapacity(|bytes|))
    {
      var oldSize := |bytes|;
      if oldSize >= GROWTH_LIMIT {
        return false;
      }
      var newSize := 2 * oldSize;
      bytes := Zeros(newSize - oldSize) + bytes;
      space := space + (newSize - oldSize);
      ok := true;
    }

    /** Writes `count` zero bytes in front. */
    method Pad(count: nat)
      requires Valid() && count <= space
      modifies this`bytes, this`space, this`written
      ensures Valid() && space == old(space) - count && written == Zeros(count) + old(written)
      ensures |bytes| == old(|bytes|)
    {
      for i := 0 to count
        invariant Valid() && space == old(space) - i && written == Zeros(i) + old(written) && |bytes| == old(|bytes|)
      {
        PadOne(bytes, space, written, i, old(written));
        space := space - 1;
        bytes := bytes[space := 0];
        written := [0] + written;
      }
    }

    /**
     * Makes room for `size` bytes, to be followed later by `additional` bytes, such that the
     * element is aligned to its own size once the additional bytes are written.
     */
    method Prep(size: nat, additional: nat) returns (ok: bool)
      requires Valid() && IsPowerOfTwo(size)
      modifies this`bytes, this`space, this`minalign, this`written
      ensures Valid()
      ensures minalign == if size > old(minalign) then size else old(minalign)
      ensures MaxCapacity(|bytes|) == old(MaxCapacity(|bytes|))
      ensures ok <==>
              old(|written|) + AlignSize(old(Offset()) + additional, size) + size + additional <= MaxCapacity(|bytes|)
      ensures !ok ==> written == old(written)
      ensures ok ==> written == Zeros(AlignSize(old(Offset()) + additional, size)) + old(written)
      ensures ok ==> IsMultiple(Offset() + additional, size) && size + additional <= space
      ensures ok ==> old(space) <= space + AlignSize(old(Offset()) + additional, size)
      ensures AlignSize(old(Offset()) + additional, size) + size + additional <= old(space) ==> |bytes| == old(|bytes|)
    {
      assert size > 0;
      hide AlignSize, IsMultiple, IsPowerOfTwo, MaxCapacity, Zeros, Builder.Valid;
      if size > minalign {
        minalign := size;
      }
      var alignSize := AlignSize(Offset() + additional, size);
      ok := Reserve(alignSize + size + additional);
      if ok {
        Pad(alignSize);
      }
    }

    /** Grows the buffer until so many bytes are free. */
    method Reserve(needed: nat) returns (ok: bool)
      requires Valid()
      modifies this`bytes, this`space
      ensures Valid() && old(space) <= space && |bytes| > 0
      ensures MaxCapacity(|bytes|) == old(MaxCapacity(|bytes|))
      ensures ok <==> |written| + needed <= MaxCapacity(|bytes|)
      ensures ok ==> needed <= space
      ensures needed <= old(space) ==> |bytes| == old(|bytes|)
    {
      hide MaxCapacity;
      ok := true;
      while space < needed
        invariant Valid() && old(space) <= space
        invariant MaxCapacity(|bytes|) == old(MaxCapacity(|bytes|))
        invariant needed <= old(space) ==> |bytes| == old(|bytes|)
        decreases GROWTH_LIMIT * 2 - |bytes|
      {
        ok := Grow();
        if !ok {
          return;
        }
      }
    }

    /** `writeInt8`/`writeInt16`/`writeInt32`: the caller has made room. */
    method Write(value: seq<byte>)
      requires Valid() && |value| <= space
      modifies this`bytes, this`space, this`written
      ensures Valid() && written == value + old(written) && space == old(space) - |value| && |bytes| == old(|bytes|)
    {
      space := space - |value|;
      bytes := bytes[..space] + value + bytes[space + |value|..];
      written := value + written;
    }

    /** `addInt8`, `addInt16`, `addInt32`: an aligned element in front of everything written so far. */
    method Add(value: seq<byte>) returns (ok: bool)
      requires Valid() && LayoutOk() && IsPowerOfTwo(|value|)
      modifies this`bytes, this`space, this`minalign, this`written
      ensures Valid() && LayoutOk()
      ensures ok ==> written == value + Zeros(AlignSize(old(|written|), |value|)) + old(written)
      ensures ok ==> |written| == old(|written|) + AlignSize(old(|written|), |value|) + |value|
      ensures MaxCapacity(|bytes|) == old(MaxCapacity(|bytes|))
      ensures ok <==> old(|written|) + AlignSize(old(|written|), |value|) + |value| <= MaxCapacity(|bytes|)
      ensures !ok ==> written == old(written)
      ensures AlignSize(old(|written|), |value|) + |value| <= old(space) ==>
                ok && space == old(space) - AlignSize(old(|written|), |value|) - |value|
    {
      ghost var w := written;
      hide TablesLaid, SlotsBelow, Zeros, IsPowerOfTwo, MaxCapacity, AlignSize, IsMultiple;
      ok := Prep(|value|, 0);
      if ok {
        Write(value);
        ghost var pad := Zeros(AlignSize(|w|, |value|));
        Regroup(value, pad, w);
        TablesLaidKept(value + pad, w, tables, vtables);
        if isNested { SlotsBelowGrow(vtable[..vtableInUse], |w|, |value + pad + w|); }
      }
    }

    /** Starts a table with `numfields` unset fields; objects must not nest. */
    method StartObject(numfields: nat) returns (ok: bool)
      requires Valid() && LayoutOk()
      modifies this`hasVtable, this`vtable, this`vtableInUse, this`isNested, this`objectStart
      ensures Valid() && LayoutOk()
      ensures ok <==> !old(isNested)
      ensures ok ==>
              isNested && hasVtable && vtableInUse == numfields <= |vtable| && objectStart == Offset()
              && vtable[..numfields] == seq(numfields, _ => 0)
      ensures !ok ==>
              hasVtable == old(hasVtable) && vtable == old(vtable) && vtableInUse == old(vtableInUse)
              && isNested && objectStart == old(objectStart)
    {
      if isNested {
        return false;
      }
      hasVtable := true;
      vtableInUse := numfields;
      for i := 0 to numfields
        invariant hasVtable && vtableInUse == numfields && i <= |vtable| && vtable[..i] == seq(i, _ => 0)
      {
        if i < |vtable| {
          vtable := vtable[i := 0];
        } else {
          vtable := vtable + [0];
        }
        assert vtable[..i + 1] == vtable[..i] + [0];
      }
      isNested := true;
      objectStart := Offset();
      ok := true;
    }

    /**
     * Records that field `voffset` is what was written last; a field beyond the declared ones leaves
     * them alone. Before the first object there is nothing to record it in.
     */
    method Slot(voffset: nat) returns (ok: bool)
      requires Valid() && LayoutOk()
      modifies this`vtable
      ensures Valid() && LayoutOk() && (ok <==> hasVtable) && (!ok ==> vtable == old(vtable))
      ensures ok ==> voffset < |vtable| && vtable[voffset] == Offset() && |vtable| >= old(|vtable|)
      ensures ok ==> forall i :: 0 <= i < old(|vtable|) && i != voffset ==> vtable[i] == old(vtable[i])
      ensures ok && vtableInUse <= old(|vtable|) ==>
                vtable[..vtableInUse] == WithSlot(old(vtable[..vtableInUse]), voffset, Offset())
    {
      if !hasVtable {
        return false;
      }
      ok := true;
      ghost var slots := if vtableInUse <= |vtable| then vtable[..vtableInUse] else [];
      if voffset < |vtable| {
        vtable := vtable[voffset := Offset()];
      } else {
        // the array grows; what lies between is set before it is read
        vtable := vtable + seq(voffset - |vtable|, _ => 0) + [Offset()];
      }
      assert vtableInUse <= old(|vtable|) ==> vtable[..vtableInUse] == WithSlot(slots, voffset, Offset());
    }

    /** Overwrites the 32-bit number at distance `loc` from the end. */
    method Patch(loc: nat, value: int)
      requires Valid() && 4 <= loc <= Offset()
      modifies this`bytes, this`written
      ensures Valid() && |written| == old(|written|) && |bytes| == old(|bytes|)
      ensures written == WithNumber(old(written), loc, value)
    {
      var at := |bytes| - loc;
      var b := Bytes32(value);
      bytes := bytes[..at] + b + bytes[at + 4..];
      written := written[..|written| - loc] + b + written[|written| - loc + 4..];
    }

    /** Drops trailing unset slots. */
    method TrimmedVtable() returns (trimmed: nat)
      requires vtableInUse <= |vtable|
      ensures trimmed == TrimmedSize(vtable[..vtableInUse]) && trimmed <= vtableInUse
    {
      trimmed := vtableInUse;
      while trimmed > 0 && vtable[trimmed - 1] == 0
        invariant trimmed <= vtableInUse && TrimmedSize(vtable[..trimmed]) == TrimmedSize(vtable[..vtableInUse])
      {
        assert vtable[..trimmed][..trimmed - 1] == vtable[..trimmed - 1];
        trimmed := trimmed - 1;
      }
    }

    /** Writes one 16-bit number; at even offsets it needs no padding. */
    method AddShort(value: int) returns (ok: bool)
      requires Valid() && LayoutOk() && Offset() % 2 == 0
      modifies this`bytes, this`space, this`minalign, this`written
      ensures Valid() && LayoutOk()
      ensures ok ==> written == Bytes16(value) + old(written) && Offset() % 2 == 0
      ensures MaxCapacity(|bytes|) == old(MaxCapacity(|bytes|)) && (ok <==> old(|written|) + 2 <= MaxCapacity(|bytes|))
      ensures !ok ==> written == old(written)
    {
      hide MaxCapacity;
      ok := Add(Bytes16(value));
      assert Zeros(0) == [];
    }

    /** Writes the entries of a vtable, last field first. */
    method WriteEntries(ghost vs: seq<int>, loc: nat, trimmed: nat) returns (ok: bool)
      requires Valid() && LayoutOk() && Offset() % 2 == 0 && trimmed <= |vtable|
      requires |vs| == trimmed + 2 && forall i :: 0 <= i < trimmed ==> vs[i + 2] == Entry(loc, vtable[i])
      modifies this`bytes, this`space, this`minalign, this`written
      ensures Valid() && LayoutOk() && Offset() % 2 == 0
      ensures MaxCapacity(|bytes|) == old(MaxCapacity(|bytes|))
      ensures ok <==> old(|written|) + 2 * trimmed <= MaxCapacity(|bytes|)
      ensures ok ==> written == FromShort(vs, 2, old(written))
    {
      ghost var w := written;
      ghost var most := MaxCapacity(|bytes|);
      assert |w| <= most;
      hide Builder.Valid, Builder.LayoutOk, FromShort, Bytes16, MaxCapacity;
      var i: nat := trimmed;
      ok := true;
      FromShortSteps(vs, trimmed + 2, w);
      while i > 0
        invariant Valid() && LayoutOk() && i <= trimmed
        invariant Offset() % 2 == 0 && written == FromShort(vs, i + 2, w)
        invariant |bytes| > 0 && MaxCapacity(|bytes|) == most && |written| <= most
      {
        i := i - 1;
        FromShortSteps(vs, i + 2, w);
        assert vs[i + 2] == Entry(loc, vtable[i]);
        ok := AddShort(if vtable[i] != 0 then loc - vtable[i] else 0);
        if !ok {
          return;
        }
      }
    }

    /** Writes the vtable of `t` in front of its table. */
    method WriteVtable(ghost t: Table, loc: nat, trimmed: nat) returns (ok: bool)
      requires Valid() && LayoutOk() && Offset() % 2 == 0 && vtableInUse <= |vtable|
      requires t == Table(loc, objectStart, vtable[..vtableInUse]) && trimmed == TrimmedSize(t.slots)
      modifies this`bytes, this`space, this`minalign, this`written
      ensures Valid() && LayoutOk()
      ensures MaxCapacity(|bytes|) == old(MaxCapacity(|bytes|))
      ensures ok <==> old(|written|) + 2 * (trimmed + 2) <= MaxCapacity(|bytes|)
      ensures ok ==> written == Shorts(VtableShorts(t)) + old(written)
    {
      hide Builder.LayoutOk, Shorts, VtableShorts, TrimmedSize, Bytes16, FromShort, MaxCapacity;
      ghost var w, vs := written, VtableShorts(t);
      VtableNumbers(t);
      ok := WriteEntries(vs, loc, trimmed);
      if !ok {
        return;
      }
      ok := AddShort(loc - objectStart);
      if !ok {
        return;
      }
      FromShortSteps(vs, 1, w);
      ok := AddShort((trimmed + 2) * SIZEOF_SHORT);
      FromShortSteps(vs, 0, w);
    }

    /** Reads the 16-bit number at position `at` of the buffer. */
    function Short(at: nat): (value: int)
      requires Valid() && space <= at && at + 2 <= |bytes|
      reads this
      ensures value == ReadInt16(written, at - space)
    {
      var low: int, high: int := bytes[at], bytes[at + 1];
      Wrap16(low + 256 * high)
    }

    /** Looks for a remembered vtable equal to the one just written, of `len` bytes; 0 if there is none. */
    method FindVtable(len: nat) returns (existing: nat)
      requires Valid() && TablesLaid(written, tables, vtables) && 2 <= len <= Offset() && len % 2 == 0
      requires ShortAt(written, Offset(), 0) == Wrap16(len)
      ensures existing != 0 ==>
              existing in vtables && len <= INT16_MAX && SameVtable(written, Offset(), existing, len / 2)
      ensures existing == 0 && len <= INT16_MAX ==>
              forall v :: v in vtables ==> !SameVtable(written, Offset(), v, len / 2)
    {
      hide KnownVtable, SameVtable, ShortAt, Builder.Valid;
      existing := 0;
      for i := 0 to |vtables|
        invariant existing == 0
        invariant len <= INT16_MAX ==> forall k :: 0 <= k < i ==> !SameVtable(written, Offset(), vtables[k], len / 2)
      {
        assert vtables[i] in vtables;
        KnownBounds(written, vtables[i]);
        var equal := Equals(vtables[i], len);
        if equal {
          return vtables[i];
        }
      }
    }

    /** Compares the vtable just written with the one at `v`, its length first. */
    method Equals(v: nat, len: nat) returns (equal: bool)
      requires Valid() && KnownVtable(written, v) && 2 <= len <= Offset() && len % 2 == 0
      requires ShortAt(written, Offset(), 0) == Wrap16(len)
      ensures if equal then len <= INT16_MAX && SameVtable(written, Offset(), v, len / 2)
              else len <= INT16_MAX ==> !SameVtable(written, Offset(), v, len / 2)
    {
      FirstOfSame(written, len);
      KnownReadable(written, v, len);
      hide ReadInt16, KnownVtable, SameVtable;
      var vt2 := |bytes| - v;
      equal := false;
      if len == Short(vt2) {
        equal := SameShorts(space, vt2, len);
      }
    }

    /** Compares two vtables whose lengths are known to agree, number by number. */
    method SameShorts(vt1: nat, vt2: nat, len: nat) returns (equal: bool)
      requires Valid() && vt1 == space <= vt2 && vt2 + len <= |bytes| && 2 <= len && len % 2 == 0
      requires Short(vt1) == Short(vt2)
      ensures equal <==> SameVtable(written, Offset(), |bytes| - vt2, len / 2)
    {
      hide ReadInt16;
      ghost var w, own, other := written, Offset(), |bytes| - vt2;
      var j := SIZEOF_SHORT;
      ghost var n: nat := 1;
      while j < len
        invariant j == 2 * n <= len && n >= 1
        invariant forall k :: 0 <= k < n ==> ShortAt(w, own, k) == ShortAt(w, other, k)
      {
        assert Short(vt1 + j) == ShortAt(w, own, n) && Short(vt2 + j) == ShortAt(w, other, n);
        if Short(vt1 + j) != Short(vt2 + j) {
          return false;
        }
        j, n := j + SIZEOF_SHORT, n + 1;
      }
      equal := true;
    }

    /**
     * Finishes the object: writes its vtable, or shares an equal earlier one, and points the table
     * at it. The returned distance is that of the table; all earlier tables stay laid out.
     */
    method EndObject() returns (ok: bool, loc: nat)
      requires Valid() && LayoutOk() && (isNested ==> vtableInUse <= |vtable|)
      modifies this
      ensures Valid()
      ensures ok <==> old(isNested && EndSize(|written|, vtable[..vtableInUse]) <= MaxCapacity(|bytes|))
      ensures MaxCapacity(|bytes|) == old(MaxCapacity(|bytes|))
      ensures ok ==> LayoutOk() && !isNested && Extends(written, old(written))
      ensures ok ==> loc == old(|written|) + AlignSize(old(|written|), SIZEOF_INT) + SIZEOF_INT
      ensures ok ==> var t := Table(loc, old(objectStart), old(vtable)[..old(vtableInUse)]);
                     && tables == old(tables) + [t]
                     && vtables == (if Shareable(old(written), old(vtables), t) then old(vtables)
                                    else old(vtables) + [|written|])
    {
      loc := 0;
      if !isNested {
        return false, 0;
      }
      hide TablesLaid, SlotsBelow, Extends, Bytes32, AlignSize, MaxCapacity, Shareable, TrimmedSize;
      ghost var w := written;
      ghost var pad: seq<byte>;
      ok, pad := ReserveLink();
      if ok {
        loc := Offset();
        ok := FinishTable(loc, w, pad);
      } else {
        NoRoomToEnd(|w|, vtable[..vtableInUse]);
      }
    }

    /** Reserves an aligned place for the link to the vtable. */
    method ReserveLink() returns (ok: bool, ghost pad: seq<byte>)
      requires Valid() && LayoutOk()
      modifies this`bytes, this`space, this`minalign, this`written
      ensures Valid() && LayoutOk()
      ensures MaxCapacity(|bytes|) == old(MaxCapacity(|bytes|))
      ensures ok <==> old(|written|) + AlignSize(old(|written|), SIZEOF_INT) + SIZEOF_INT <= MaxCapacity(|bytes|)
      ensures ok ==> |pad| == AlignSize(old(|written|), SIZEOF_INT) && written == Bytes32(0) + (pad + old(written))
      ensures ok ==> |written| % 2 == 0
    {
      PowersOfTwo(SIZEOF_INT);
      ghost var w := written;
      assert |Bytes32(0)| == SIZEOF_INT;
      EvenAfter(|w|);
      hide *;
      ok := Add(Bytes32(0));
      pad := Zeros(AlignSize(|w|, SIZEOF_INT));
      Regroup(Bytes32(0), pad, w);
    }

    /** The rest of `endObject`, once the place of the vtable offset is reserved. */
    method FinishTable(loc: nat, ghost w: seq<byte>, ghost pad: seq<byte>) returns (ok: bool)
      requires Valid() && LayoutOk() && isNested && loc == Offset() && loc % 2 == 0
      requires written == Bytes32(0) + (pad + w) && TablesLaid(w, tables, vtables)
      requires SlotsBelow(vtable[..vtableInUse], |w|) && objectStart <= |w|
      modifies this
      ensures Valid()
      ensures MaxCapacity(|bytes|) == old(MaxCapacity(|bytes|))
      ensures ok <==> loc + 2 * (TrimmedSize(old(vtable[..vtableInUse])) + 2) <= MaxCapacity(|bytes|)
      ensures ok ==> LayoutOk() && !isNested && Extends(written, w)
      ensures ok ==> var t := Table(loc, old(objectStart), old(vtable)[..old(vtableInUse)]);
                     && tables == old(tables) + [t]
                     && vtables == if Shareable(w, old(vtables), t) then old(vtables) else old(vtables) + [|written|]
    {
      hide TablesLaid, Shorts, VtableShorts, TrimmedSize, Bytes32, SlotsBelow, SameVtable, Serves, ReadInt16, Proper,
           MaxCapacity;
      var trimmed := TrimmedVtable();
      ghost var t := Table(loc, objectStart, vtable[..vtableInUse]);
      VtableNumbers(t);
      ghost var vs := VtableShorts(t);
      ok := WriteVtable(t, loc, trimmed);
      if !ok {
        return;
      }
      ShortsServe(vs, Bytes32(0) + (pad + w));
      FirstShort(written, vs);
      SlotsProper(t, |w|);
      assert Closing(written, t, pad, w, tables, vtables);
      hide Closing, Builder.Valid, Builder.LayoutOk, Extends, Shareable;
      var existing := FindVtable((trimmed + 2) * SIZEOF_SHORT);
      Sharing(written, t, pad, w, tables, vtables, existing);
      if existing != 0 {
        ShareVtable(t, existing, loc, w, pad);
      } else {
        KeepVtable(t, loc, w, pad);
      }
    }

    /** Takes the vtable just written away again and points the table at an equal one. */
    method ShareVtable(ghost t: Table, existing: nat, loc: nat, ghost w: seq<byte>, ghost pad: seq<byte>)
      requires Valid() && Closing(written, t, pad, w, tables, vtables) && loc == t.loc && objectStart <= |w|
      requires existing in vtables && SameVtable(written, |written|, existing, |VtableShorts(t)|)
      modifies this`bytes, this`space, this`written, this`tables, this`isNested
      ensures Valid() && LayoutOk() && !isNested && tables == old(tables) + [t] && Extends(written, w)
      ensures |bytes| == old(|bytes|)
    {
      hide TablesLaid, Shorts, VtableShorts, Bytes32, SameVtable, Serves, Proper, WithNumber, Extends;
      EndShared(written, t, pad, w, existing, tables, vtables);
      ghost var rest := Bytes32(0) + (pad + w);
      CutFront(bytes, written, loc, Shorts(VtableShorts(t)), rest);
      space, written := |bytes| - loc, rest;
      Patch(loc, existing - loc);
      Patched([], existing - loc, pad + w);
      InFront(Bytes32(existing - loc), pad, w);
      isNested := false;
      tables := tables + [t];
    }

    /** Keeps the vtable just written for this table and for later ones. */
    method KeepVtable(ghost t: Table, loc: nat, ghost w: seq<byte>, ghost pad: seq<byte>)
      requires Valid() && Closing(written, t, pad, w, tables, vtables) && loc == t.loc && objectStart <= |w|
      modifies this`bytes, this`written, this`tables, this`vtables, this`isNested
      ensures Valid() && LayoutOk() && !isNested && tables == old(tables) + [t] && Extends(written, w)
      ensures vtables == old(vtables) + [|written|] && |bytes| == old(|bytes|)
    {
      hide TablesLaid, Shorts, VtableShorts, Bytes32, Proper, WithNumber, Extends;
      var v := Offset();
      EndOwn(t, pad, w, tables, vtables);
      Patch(loc, v - loc);
      Patched(Shorts(VtableShorts(t)), v - loc, pad + w);
      Regroup(Bytes32(v - loc), pad, w);
      InFront(Shorts(VtableShorts(t)), Bytes32(v - loc) + pad, w);
      vtables := vtables + [v];
      isNested := false;
      tables := tables + [t];
    }

    /**
     * Prepares a vector: once its elements are written, its length field is aligned to four bytes
     * and to `alignment`, and there is room for elements and length.
     */
    method StartVector(elemSize: nat, numElems: nat, alignment: nat) returns (ok: bool)
      requires Valid() && LayoutOk() && alignment > 0 && IsPowerOfTwo(alignment)
      modifies this`bytes, this`space, this`minalign, this`written, this`vectorNumElems
      ensures Valid() && LayoutOk() && PaddedBy(written, old(written))
      ensures MaxCapacity(|bytes|) == old(MaxCapacity(|bytes|))
      ensures ok <==> !isNested && VectorSize(old(|written|), elemSize * numElems, alignment) <= MaxCapacity(|bytes|)
      ensures ok ==>
              !isNested && vectorNumElems == numElems && VectorReady(|written|, space, elemSize * numElems, alignment)
      ensures ok ==>
              |written| + elemSize * numElems + SIZEOF_INT <= VectorSize(old(|written|), elemSize * numElems, alignment)
    {
      hide TablesLaid, SlotsBelow, PaddedBy, VectorReady, IsPowerOfTwo, VectorSize, MaxCapacity;
      if isNested {
        PaddedByNone(written);
        return false;
      }
      vectorNumElems := numElems;
      ok := PrepVector(elemSize * numElems, alignment);
    }

    /** The two calls of `prep` that start a vector of `size` bytes. */
    method PrepVector(size: nat, alignment: nat) returns (ok: bool)
      requires Valid() && LayoutOk() && alignment > 0 && IsPowerOfTwo(alignment)
      modifies this`bytes, this`space, this`minalign, this`written
      ensures Valid() && LayoutOk() && PaddedBy(written, old(written))
      ensures MaxCapacity(|bytes|) == old(MaxCapacity(|bytes|))
      ensures ok <==> VectorSize(old(|written|), size, alignment) <= MaxCapacity(|bytes|)
      ensures ok ==> VectorReady(|written|, space, size, alignment)
      ensures ok ==> |written| + size + SIZEOF_INT <= VectorSize(old(|written|), size, alignment)
    {
      hide Builder.Valid, Builder.LayoutOk, PaddedBy, IsPowerOfTwo, MaxCapacity, VectorSize, VectorReady, IsMultiple;
      hide AlignSize;
      Bounded();
      PowersOfTwo(alignment);
      ghost var w := written;
      VectorSizes(|w|, size, alignment, MaxCapacity(|bytes|));
      ok := MakeRoom(SIZEOF_INT, size);
      if !ok {
        return;
      }
      ghost var w1 := written;
      SmallAlignment(|w1| + size, alignment);
      ok := MakeRoom(alignment, size);
      PaddedTwice(written, w1, w);
      if ok {
        VectorIsReady(|w1|, |written|, space, size, alignment);
        PreparedSize(|w|, |w1|, |written|, size, alignment);
      }
    }

    /** `prep`, which keeps the layout. */
    method MakeRoom(size: nat, additional: nat) returns (ok: bool)
      requires Valid() && LayoutOk() && IsPowerOfTwo(size)
      modifies this`bytes, this`space, this`minalign, this`written
      ensures Valid() && LayoutOk() && PaddedBy(written, old(written))
      ensures MaxCapacity(|bytes|) == old(MaxCapacity(|bytes|))
      ensures ok <==>
              old(|written|) + AlignSize(old(|written|) + additional, size) + size + additional <= MaxCapacity(|bytes|)
      ensures ok ==> |written| == old(|written|) + AlignSize(old(|written|) + additional, size)
      ensures ok ==> IsMultiple(|written| + additional, size) && size + additional <= space
      ensures ok && IsMultiple(old(|written|) + additional, size) ==> written == old(written) && old(space) <= space
    {
      hide TablesLaid, Zeros, IsPowerOfTwo, PaddedBy, SlotsBelow, AlignSize, MaxCapacity, IsMultiple, Builder.Valid;
      ghost var w := written;
      ok := Prep(size, additional);
      ghost var n := if ok then AlignSize(|w| + additional, size) else 0;
      PaddedBySome(n, w);
      TablesLaidKept(Zeros(n), w, tables, vtables);
      if isNested { SlotsBelowGrow(vtable[..vtableInUse], |w|, |written|); }
    }

    /** Writes bytes for which there is room; the layout is kept. */
    method Put(value: seq<byte>)
      requires Valid() && LayoutOk() && |value| <= space
      modifies this`bytes, this`space, this`written
      ensures Valid() && LayoutOk() && written == value + old(written) && space == old(space) - |value|
      ensures |bytes| == old(|bytes|)
    {
      hide TablesLaid, SlotsBelow;
      Write(value);
      TablesLaidKept(value, old(written), tables, vtables);
      if isNested { SlotsBelowGrow(vtable[..vtableInUse], |old(written)|, |written|); }
    }

    /** Writes the number of elements in front of a vector's elements. */
    method EndVector() returns (loc: nat)
      requires Valid() && LayoutOk() && SIZEOF_INT <= space
      modifies this`bytes, this`space, this`written
      ensures Valid() && LayoutOk() && loc == |written| && written == Bytes32(vectorNumElems) + old(written)
      ensures |bytes| == old(|bytes|)
    {
      Put(Bytes32(vectorNumElems));
      loc := Offset();
    }

    /** Writes a string: its length, its UTF-8 bytes and a zero byte; nothing written before changes. */
    method CreateString(text: seq<Unit>) returns (ok: bool, loc: nat)
      requires Valid() && LayoutOk()
      modifies this`bytes, this`space, this`minalign, this`written, this`vectorNumElems
      ensures Valid() && LayoutOk() && Extends(written, old(written))
      ensures MaxCapacity(|bytes|) == old(MaxCapacity(|bytes|))
      ensures ok <==> !isNested && VectorSize(old(|written|) + 1, |Encode(text)|, 1) <= MaxCapacity(|bytes|)
      ensures ok ==> loc == |written| && loc % SIZEOF_INT == 0 && StringAt(written, loc, Encode(text))
      ensures ok ==> |written| <= VectorSize(old(|written|) + 1, |Encode(text)|, 1)
    {
      var utf8 := EncodeUtf8(text);
      ok, loc := CreateStringOfBytes(utf8);
    }

    /** The same for a byte array, which is taken as it is. */
    method CreateStringOfBytes(utf8: seq<byte>) returns (ok: bool, loc: nat)
      requires Valid() && LayoutOk()
      modifies this`bytes, this`space, this`minalign, this`written, this`vectorNumElems
      ensures Valid() && LayoutOk() && Extends(written, old(written))
      ensures MaxCapacity(|bytes|) == old(MaxCapacity(|bytes|))
      ensures ok <==> !isNested && VectorSize(old(|written|) + 1, |utf8|, 1) <= MaxCapacity(|bytes|)
      ensures ok ==> loc == |written| && loc % SIZEOF_INT == 0 && StringAt(written, loc, utf8)
      ensures ok ==> |written| <= VectorSize(old(|written|) + 1, |utf8|, 1)
    {
      hide Builder.Valid, Builder.LayoutOk, Extends, StringAt, PaddedBy, VectorReady, VectorSize, MaxCapacity;
      loc := 0;
      ghost var w := written;
      ok := StartString(|utf8|);
      PaddedExtends(written, w);
      if ok {
        ghost var rest := written;
        loc := PutString(utf8);
        ExtendsTransitive(written, rest, w);
      }
    }

    /** Writes the zero byte behind a string of `size` bytes and prepares for them. */
    method StartString(size: nat) returns (ok: bool)
      requires Valid() && LayoutOk()
      modifies this`bytes, this`space, this`minalign, this`written, this`vectorNumElems
      ensures Valid() && LayoutOk() && PaddedBy(written, old(written))
      ensures MaxCapacity(|bytes|) == old(MaxCapacity(|bytes|))
      ensures ok <==> !isNested && VectorSize(old(|written|) + 1, size, 1) <= MaxCapacity(|bytes|)
      ensures ok ==> VectorReady(|written|, space, size, 1) && vectorNumElems == size
      ensures ok ==> |written| + size + SIZEOF_INT <= VectorSize(old(|written|) + 1, size, 1)
      ensures ok ==> written != [] && written[0] == 0
    {
      hide *;
      PowersOfTwo(1);
      ghost var w := written;
      NoPadding(|w|, size);
      ok := AddZero();
      if ok {
        ghost var w1 := written;
        ok := StartVector(1, size, 1);
        PaddedTwice(written, w1, w);
      }
    }

    method AddZero() returns (ok: bool)
      requires Valid() && LayoutOk()
      modifies this`bytes, this`space, this`minalign, this`written
      ensures Valid() && LayoutOk() && PaddedBy(written, old(written))
      ensures MaxCapacity(|bytes|) == old(MaxCapacity(|bytes|))
      ensures ok <==> old(|written|) + 1 <= MaxCapacity(|bytes|)
      ensures ok ==> |written| == old(|written|) + 1 && written[0] == 0
    {
      PowersOfTwo(1);
      NoPadding(|written|, 0);
      hide Builder.Valid, Builder.LayoutOk, Extends, PaddedBy, IsPowerOfTwo, AlignSize, MaxCapacity;
      ghost var w := written;
      ok := Add([0]);
      PaddedByZero(written, w, ok);
    }

    /** Writes the bytes and the length of a string for which a vector was started. */
    method PutString(utf8: seq<byte>) returns (loc: nat)
      requires Valid() && LayoutOk() && VectorReady(|written|, space, |utf8|, 1)
      requires vectorNumElems == |utf8| && written != [] && written[0] == 0
      modifies this`bytes, this`space, this`written
      ensures Valid() && LayoutOk() && Extends(written, old(written)) && |bytes| == old(|bytes|)
      ensures loc == |written| && loc % SIZEOF_INT == 0 && StringAt(written, loc, utf8)
      ensures |written| == old(|written|) + |utf8| + SIZEOF_INT
    {
      hide Builder.Valid, Builder.LayoutOk, Extends, StringAt, Bytes32;
      ghost var rest := written;
      Bounded();
      Put(utf8);
      loc := EndVector();
      StringWritten(utf8, rest);
      InFront(Bytes32(|utf8|), utf8, rest);
    }

    /** Writes a reference to what lies at distance `target`, relative to where the reference itself lies. */
    method AddOffset(target: nat) returns (ok: bool)
      requires Valid() && LayoutOk()
      modifies this`bytes, this`space, this`minalign, this`written
      ensures Valid() && LayoutOk() && Extends(written, old(written))
      ensures MaxCapacity(|bytes|) == old(MaxCapacity(|bytes|))
      ensures ok <==> old(|written|) + AlignSize(old(|written|), SIZEOF_INT) + SIZEOF_INT <= MaxCapacity(|bytes|)
      ensures ok && target <= old(|written|) ==> Refers(written, |written|, target)
      ensures ok ==> |written| % SIZEOF_INT == 0
      ensures ok ==> |written| == old(|written|) + AlignSize(old(|written|), SIZEOF_INT) + SIZEOF_INT
    {
      hide Builder.Valid, Builder.LayoutOk, Extends, Refers, PaddedBy, IsPowerOfTwo, MaxCapacity, AlignSize, IsMultiple;
      PowersOfTwo(SIZEOF_INT);
      ghost var w := written;
      ok := MakeRoom(SIZEOF_INT, 0);
      PaddedExtends(written, w);
      if ok {
        AlignedToInt(|written|);
        ghost var rest := written;
        PutOffset(target);
        ExtendsTransitive(written, rest, w);
      }
    }

    /** Writes the reference where there is room for it. */
    method PutOffset(target: nat)
      requires Valid() && LayoutOk() && SIZEOF_INT <= space && |written| % SIZEOF_INT == 0
      modifies this`bytes, this`space, this`written
      ensures Valid() && LayoutOk() && Extends(written, old(written)) && |written| % SIZEOF_INT == 0
      ensures |bytes| == old(|bytes|)
      ensures target <= old(|written|) ==> Refers(written, |written|, target)
      ensures |written| == old(|written|) + SIZEOF_INT
    {
      hide Builder.Valid, Builder.LayoutOk, Extends, Refers, Bytes32;
      ghost var rest := written;
      Bounded();
      var value := Offset() - target + SIZEOF_INT;
      Put(Bytes32(value));
      InFront(Bytes32(value), [], rest);
      if target <= |rest| { Referring(target, rest); }
    }

    /** A field that refers to something written before; a default is left out unless defaults are forced. */
    method AddFieldOffset(voffset: nat, target: nat, defaultValue: nat) returns (ok: bool)
      requires Valid() && LayoutOk() && isNested && vtableInUse <= |vtable|
      modifies this`bytes, this`space, this`minalign, this`written, this`vtable
      ensures Valid() && LayoutOk() && Extends(written, old(written)) && vtableInUse <= |vtable|
      ensures MaxCapacity(|bytes|) == old(MaxCapacity(|bytes|))
      ensures ok <==> (target == defaultValue && !forceDefaults)
                      || old(|written|) + AlignSize(old(|written|), SIZEOF_INT) + SIZEOF_INT <= MaxCapacity(|bytes|)
      ensures !ok || (target == defaultValue && !forceDefaults) ==> vtable == old(vtable)
      ensures target == defaultValue && !forceDefaults ==> written == old(written)
      ensures ok && (target != defaultValue || forceDefaults) ==>
                && |written| == old(|written|) + AlignSize(old(|written|), SIZEOF_INT) + SIZEOF_INT
                && (target <= old(|written|) ==> Refers(written, |written|, target))
                && vtable[..vtableInUse] == WithSlot(old(vtable[..vtableInUse]), voffset, |written|)
    {
      PaddedByNone(written);
      PaddedExtends(written, written);
      hide Builder.LayoutOk, Extends, Refers, MaxCapacity, AlignSize, WithSlot;
      ok := true;
      if forceDefaults || target != defaultValue {
        ok := AddOffset(target);
        if ok {
          var recorded := Slot(voffset);
        }
      }
    }

    /** What generated code does for a vector of numbers: it adds the elements last one first. */
    method CreateVector(elems: seq<seq<byte>>, size: nat) returns (ok: bool, loc: nat)
      requires Valid() && LayoutOk() && size > 0 && IsPowerOfTwo(size) && AllOfSize(elems, size)
      modifies this`bytes, this`space, this`minalign, this`written, this`vectorNumElems
      ensures Valid() && LayoutOk() && Extends(written, old(written))
      ensures MaxCapacity(|bytes|) == old(MaxCapacity(|bytes|))
      ensures ok <==> !isNested && VectorSize(old(|written|), size * |elems|, size) <= MaxCapacity(|bytes|)
      ensures ok ==> loc == |written| && VectorAt(written, loc, elems, size)
    {
      hide *;
      loc := 0;
      ghost var w := written;
      ok := StartVector(size, |elems|, size);
      PaddedExtends(written, w);
      if !ok {
        return;
      }
      ghost var rest := written;
      Bounded();
      ReadyRoom(|rest|, space, size * |elems|, size);
      NoLess(size, |elems|);
      PutElements(elems, size);
      loc := EndVector();
      VectorWritten(elems, size, rest);
      InFront(Bytes32(|elems|), Flat(elems), rest);
      ExtendsTransitive(written, rest, w);
    }

    /** Adds the elements of a vector that was started; they need no padding. */
    method PutElements(elems: seq<seq<byte>>, size: nat)
      requires Valid() && LayoutOk() && size > 0 && IsPowerOfTwo(size) && AllOfSize(elems, size)
      requires VectorReady(|written|, space, size * |elems|, size)
      modifies this`bytes, this`space, this`minalign, this`written
      ensures Valid() && LayoutOk() && written == Flat(elems) + old(written) && space >= SIZEOF_INT
      ensures MaxCapacity(|bytes|) == old(MaxCapacity(|bytes|))
    {
      hide Builder.Valid, Builder.LayoutOk, IsPowerOfTwo, AlignSize, MaxCapacity, VectorReady, Flat, IsMultiple, Times;
      Bounded();
      ghost var rest, most := written, MaxCapacity(|bytes|);
      AlignedBefore(|rest|, space, size, |elems|);
      ReadyRoom(|rest|, space, size * |elems|, size);
      NoLess(size, |elems|);
      FlatSteps(elems, |elems|, rest);
      var i: nat := |elems|;
      while i > 0
        invariant i <= |elems| && Valid() && LayoutOk() && |bytes| > 0 && MaxCapacity(|bytes|) == most
        invariant written == Flat(elems[i..]) + rest && IsMultiple(|written|, size)
        invariant Times(size, i) + SIZEOF_INT <= space
      {
        i := i - 1;
        FlatSteps(elems, i, rest);
        AlignedNext(|written|, size, i);
        PutElement(elems[i], size);
      }
      assert elems[0..] == elems;
    }

    /** Adds one element where it is aligned already and there is room. */
    method PutElement(elem: seq<byte>, size: nat)
      requires Valid() && LayoutOk() && size > 0 && IsPowerOfTwo(size) && |elem| == size
      requires AlignSize(|written|, size) == 0 && size <= space
      modifies this`bytes, this`space, this`minalign, this`written
      ensures Valid() && LayoutOk() && |bytes| > 0 && written == elem + old(written) && space == old(space) - size
      ensures MaxCapacity(|bytes|) == old(MaxCapacity(|bytes|))
    {
      hide Builder.LayoutOk, IsPowerOfTwo, AlignSize, MaxCapacity, IsMultiple;
      var ok := Add(elem);
      assert Zeros(0) == [];
    }
  }

  // ---- a string in a table

  lemma SmallTableFits(size: nat, written: nat, slots: seq<nat>)
    ensures VectorSize(1, size, 1) <= size + 8
    ensures written + AlignSize(written, SIZEOF_INT) + SIZEOF_INT <= written + 7
    ensures |slots| == 1 ==> EndSize(written, slots) <= written + 13
  {}

  /** A table with one field, not far from it. */
  ghost predicate OneField(t: Table, slot: nat) {
    t.slots == [slot] && 0 < slot < t.loc <= slot + 7
  }

  /** Writes a table whose only field refers to what lies at distance `target`. */
  method StoreReference(b: Builder, target: nat) returns (ok: bool, table: nat, ghost t: Table, ghost slot: nat)
    requires b.Valid() && b.LayoutOk() && !b.isNested && 0 < target <= |b.written|
    modifies b
    ensures b.Valid() && (old(|b.written|) + 20 <= GROWTH_LIMIT ==> ok)
    ensures ok ==> b.LayoutOk() && t in b.tables && t.loc == table && OneField(t, slot)
    ensures ok ==> Extends(b.written, old(b.written)) && Refers(b.written, slot, target)
  {
    hide Builder.LayoutOk, Extends, Refers, MaxCapacity, AlignSize, EndSize, TrimmedSize;
    table, t, slot := 0, Table(0, 0, [0]), 0;
    ghost var w := b.written;
    ok := b.StartObject(1);
    SmallTableFits(0, |w|, []);
    ok := b.AddFieldOffset(0, target, 0);
    if !ok {
      return;
    }
    slot := |b.written|;
    ghost var w1 := b.written;
    assert b.vtable[..1] == [slot];
    SmallTableFits(0, slot, [slot]);
    ok, table := b.EndObject();
    if ok {
      t := Table(table, |w|, [slot]);
      RefersKept(b.written, w1, slot, target);
      ExtendsTransitive(b.written, w1, w);
    }
  }

  /** A client that stores a string in a table and reads it back: it gets the string exactly if it is paired. */
  method StringThroughTable(text: seq<Unit>) returns (ok: bool, back: seq<Unit>)
    ensures |Encode(text)| + 28 <= GROWTH_LIMIT ==> ok
    ensures ok ==> (back == text <==> Paired(text))
  {
    hide Extends, Refers, StringAt, MaxCapacity, VectorSize, Encode, OneField, Paired, StringFrom, Readable;
    hide FieldOffset;
    var b := new Builder(0);
    var name, table;
    ghost var t, slot;
    ok, name := b.CreateString(text);
    SmallTableFits(|Encode(text)|, 0, []);
    back := [];
    if !ok {
      return;
    }
    StringIsLong(b.written, name, Encode(text));
    ghost var w := b.written;
    ok, table, t, slot := StoreReference(b, name);
    if ok {
      var s := b.bytes[b.space..];
      StringKept(s, w, name, Encode(text));
      assert Laid(s, t) && Proper(t);
      StoredField(s, t, slot, name, text);
      back := ReadString(s, |s| - table + FieldOffset(s, |s| - table, 4));
    }
  }

  lemma StringIsLong(s: seq<byte>, loc: nat, utf8: seq<byte>)
    requires StringAt(s, loc, utf8)
    ensures 0 < loc <= |s|
  {}

  /** Looking up the only field of the table and following it leads to the string. */
  lemma StoredField(s: seq<byte>, t: Table, slot: nat, name: nat, text: seq<Unit>)
    requires Laid(s, t) && Proper(t) && OneField(t, slot)
    requires Refers(s, slot, name) && StringAt(s, name, Encode(text))
    ensures t.loc <= |s| && Readable(s, |s| - t.loc) && FieldOffset(s, |s| - t.loc, 4) == t.loc - slot
    ensures StringFrom(s, |s| - slot) == text <==> Paired(text)
  {
    hide Laid, Refers, StringAt, Encode, Paired, StringFrom, Readable, FieldOffset, Fits, Proper;
    OneFieldFits(t, slot);
    ReferenceInside(s, slot, name);
    FieldLeadsToString(s, t, 0, name, text);
    assert FieldFound(s, t, 0);
  }

  lemma ReferenceInside(s: seq<byte>, p: nat, loc: nat)
    requires Refers(s, p, loc)
    ensures p <= |s|
  {}

  lemma OneFieldFits(t: Table, slot: nat)
    requires OneField(t, slot)
    ensures Fits(t)
  {}

  // ---- a table that is built and not read back

  /** A field, forty thousand bytes of other data, and the end of the table: the field is not found again. */
  method FarField() returns (b: Builder, loc: nat)
    ensures b.Valid() && b.LayoutOk() && loc == 40000 && Table(loc, 0, [4]) in b.tables
    ensures !FieldFound(b.written, Table(loc, 0, [4]), 0)
  {
    b := new Builder(0);
    var ok := b.StartObject(1);
    loc := WriteFarField(b);
    ghost var t := Table(loc, 0, [4]);
    assert t in b.tables;
    assert Laid(b.written, t);
    ghost var v: nat :| LaidAt(b.written, t, v);
    FarFieldIsMisread(b.written, v);
  }

  method WriteFarField(b: Builder) returns (loc: nat)
    requires b.Valid() && b.LayoutOk() && b.isNested && b.written == [] && b.objectStart == 0
    requires b.vtableInUse == 1 <= |b.vtable|
    modifies b
    ensures b.Valid() && b.LayoutOk() && loc == 40000 && b.tables == old(b.tables) + [Table(loc, 0, [4])]
  {
    PowersOfTwo(SIZEOF_INT);
    hide Builder.LayoutOk, AlignSize, MaxCapacity, IsPowerOfTwo, TrimmedSize, Bytes32;
    var ok := b.Add(Bytes32(7));
    ok := b.Slot(0);
    assert b.vtable[..1] == [4];
    FillUp(b, 39996);
    ok, loc := b.EndObject();
  }

  /** Writes numbers until so many bytes are written. */
  method FillUp(b: Builder, size: nat)
    requires b.Valid() && b.LayoutOk() && |b.written| <= size <= GROWTH_LIMIT && |b.written| % 4 == 0 && size % 4 == 0
    modifies b`bytes, b`space, b`minalign, b`written
    ensures b.Valid() && b.LayoutOk() && |b.written| == size
  {
    PowersOfTwo(SIZEOF_INT);
    hide Builder.LayoutOk, AlignSize, MaxCapacity, IsPowerOfTwo, Bytes32;
    while b.Offset() < size
      invariant b.Valid() && b.LayoutOk() && |b.written| <= size && |b.written| % 4 == 0
      decreases size - |b.written|
    {
      var ok := b.Add(Bytes32(0));
    }
  }
}
