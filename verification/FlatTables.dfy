/** Tables and vtables in a finished stretch of buffer; positions are distances from its end. */
module FlatTables {
  import opened ByteBuffers

  /** A finished table: where it lies, where its object started, and where each field was written (0: unset). */
  datatype Table = Table(loc: nat, start: nat, slots: seq<nat>)

  // ---- the reader's lookup

  ghost predicate Readable(s: seq<byte>, pos: int) {
    && 0 <= pos && pos + 4 <= |s|
    && var vtable := pos - ReadInt32(s, pos);
       0 <= vtable && vtable + 2 <= |s| && vtable + ReadInt16(s, vtable) <= |s|
  }

  /** `__offset`: the field's distance from the table's position, or 0 if the table does not hold it. */
  function FieldOffset(s: seq<byte>, pos: int, vtableOffset: nat): int
    requires Readable(s, pos) && vtableOffset % 2 == 0
  {
    var vtable := pos - ReadInt32(s, pos);
    if vtableOffset < ReadInt16(s, vtable) && vtable + vtableOffset + 2 <= |s| then
      ReadInt16(s, vtable + vtableOffset)
    else 0
  }

  /** Looking up field `i` gives the place it was written, or 0 if it was not set. */
  ghost predicate FieldFound(s: seq<byte>, t: Table, i: nat) {
    && t.loc <= |s| && Readable(s, |s| - t.loc)
    && FieldOffset(s, |s| - t.loc, 4 + 2 * i) == if i < |t.slots| && t.slots[i] != 0 then t.loc - t.slots[i] else 0
  }

  ghost predicate AllFieldsFound(s: seq<byte>, t: Table) {
    forall i: nat :: FieldFound(s, t, i)
  }

  // ---- the writer's vtable

  /** How many slots remain when trailing unset ones are dropped. */
  function TrimmedSize(slots: seq<nat>): (n: nat)
    ensures n <= |slots| && (n > 0 ==> slots[n - 1] != 0)
    ensures forall i :: n <= i < |slots| ==> slots[i] == 0
  {
    if slots == [] then 0
    else if slots[|slots| - 1] != 0 then |slots|
    else TrimmedSize(slots[..|slots| - 1])
  }

  function Entry(loc: nat, slot: nat): int {
    if slot != 0 then loc - slot else 0
  }

  /** The vtable as numbers: its own length in bytes, the object's size, one entry per remaining slot. */
  function VtableShorts(t: Table): (vs: seq<int>)
    ensures |vs| == TrimmedSize(t.slots) + 2
  {
    var n := TrimmedSize(t.slots);
    [2 * (n + 2), t.loc - t.start] + seq(n, i requires 0 <= i < n => Entry(t.loc, t.slots[i]))
  }

  /** Number `k` of the 16-bit numbers at distance `v` from the end. */
  function ShortAt(s: seq<byte>, v: nat, k: nat): int
    requires 2 * k + 2 <= v <= |s|
  {
    ReadInt16(s, |s| - v + 2 * k)
  }

  /** At distance `v` from the end lie these 16-bit numbers. */
  ghost predicate Serves(s: seq<byte>, v: nat, vs: seq<int>) {
    && 2 * |vs| <= v <= |s|
    && forall k :: 0 <= k < |vs| ==> ShortAt(s, v, k) == Wrap16(vs[k])
  }

  /** Table `t` is laid out in `s` and points at a vtable with its numbers. */
  ghost predicate LaidAt(s: seq<byte>, t: Table, v: nat) {
    && 4 <= t.loc <= |s| && v <= |s|
    && ReadInt32(s, |s| - t.loc) == v - t.loc
    && Serves(s, v, VtableShorts(t))
  }

  ghost predicate Laid(s: seq<byte>, t: Table) {
    exists v: nat :: LaidAt(s, t, v)
  }

  /** The vtable's length and every set field's distance fit a signed 16-bit number. */
  ghost predicate Fits(t: Table) {
    && 2 * (TrimmedSize(t.slots) + 2) <= INT16_MAX
    && forall i :: 0 <= i < |t.slots| && t.slots[i] != 0 ==> t.loc - t.slots[i] <= INT16_MAX
  }

  ghost predicate Proper(t: Table) {
    forall i :: 0 <= i < |t.slots| ==> t.slots[i] < t.loc
  }

  lemma LookupInVtable(s: seq<byte>, t: Table, v: nat, i: nat)
    requires LaidAt(s, t, v) && Proper(t) && 2 * (TrimmedSize(t.slots) + 2) <= INT16_MAX
    ensures Readable(s, |s| - t.loc)
    ensures FieldOffset(s, |s| - t.loc, 4 + 2 * i) ==
            if i < TrimmedSize(t.slots) then Wrap16(Entry(t.loc, t.slots[i])) else 0
  {
    var vs, n := VtableShorts(t), TrimmedSize(t.slots);
    assert ShortAt(s, v, 0) == Wrap16(vs[0]) == 2 * (n + 2);
    if i < n {
      assert ShortAt(s, v, i + 2) == Wrap16(vs[i + 2]);
    }
  }

  /** Exactly when do all lookups of a finished table succeed? When its numbers fit 16 signed bits. */
  lemma LookupsSucceedIff(s: seq<byte>, t: Table)
    requires Laid(s, t) && Proper(t)
    ensures AllFieldsFound(s, t) <==> Fits(t)
  {
    var v: nat :| LaidAt(s, t, v);
    var n := TrimmedSize(t.slots);
    if 2 * (n + 2) <= INT16_MAX {
      forall i: nat
        ensures FieldFound(s, t, i) <==> (i < |t.slots| && t.slots[i] != 0 ==> t.loc - t.slots[i] <= INT16_MAX)
      {
        LookupInVtable(s, t, v, i);
      }
      if AllFieldsFound(s, t) {
        forall i | 0 <= i < |t.slots| && t.slots[i] != 0 ensures t.loc - t.slots[i] <= INT16_MAX {
          assert FieldFound(s, t, i);
        }
      }
    } else {
      LastFieldLost(s, t, v);
      assert !FieldFound(s, t, n - 1);
    }
  }

  /** A vtable too long for 16 bits hides at least the last field that was set. */
  lemma LastFieldLost(s: seq<byte>, t: Table, v: nat)
    requires LaidAt(s, t, v) && Proper(t) && 2 * (TrimmedSize(t.slots) + 2) > INT16_MAX
    ensures !FieldFound(s, t, TrimmedSize(t.slots) - 1)
  {
    var vs, n := VtableShorts(t), TrimmedSize(t.slots);
    assert ShortAt(s, v, 0) == Wrap16(vs[0]);
    assert Wrap16(2 * (n + 2)) < 2 * (n + 2);
  }

  /** A field written more than 32767 bytes before its table is not found where it was written. */
  lemma FarFieldIsMisread(s: seq<byte>, v: nat)
    requires LaidAt(s, Table(40000, 0, [4]), v)
    ensures !Fits(Table(40000, 0, [4])) && !FieldFound(s, Table(40000, 0, [4]), 0)
  {
    var t := Table(40000, 0, [4]);
    assert TrimmedSize(t.slots) == 1 && t.loc - t.slots[0] > INT16_MAX;
    LookupInVtable(s, t, v, 0);
  }

  // ---- later writes do not disturb what is laid out

  lemma ServesKept(front: seq<byte>, s: seq<byte>, v: nat, vs: seq<int>)
    requires Serves(s, v, vs)
    ensures Serves(front + s, v, vs)
  {
    forall k | 0 <= k < |vs| ensures ShortAt(front + s, v, k) == Wrap16(vs[k]) {
      assert ShortAt(s, v, k) == Wrap16(vs[k]);
      ReadBehind(front, s, |s| - v + 2 * k);
    }
  }

  lemma LaidKept(front: seq<byte>, s: seq<byte>, t: Table)
    requires Laid(s, t)
    ensures Laid(front + s, t)
  {
    var v: nat :| LaidAt(s, t, v);
    ServesKept(front, s, v, VtableShorts(t));
    ReadBehind(front, s, |s| - t.loc);
    assert LaidAt(front + s, t, v);
  }

  // ---- sixteen-bit numbers in a row

  function Shorts(vs: seq<int>): (b: seq<byte>)
    ensures |b| == 2 * |vs|
  {
    if vs == [] then [] else Bytes16(vs[0]) + Shorts(vs[1..])
  }

  lemma {:induction false} ShortsServe(vs: seq<int>, rest: seq<byte>)
    ensures Serves(Shorts(vs) + rest, 2 * |vs| + |rest|, vs)
    decreases |vs|
  {
    var s := Shorts(vs) + rest;
    if vs != [] {
      ShortsServe(vs[1..], rest);
      var inner := Shorts(vs[1..]) + rest;
      assert s == Bytes16(vs[0]) + inner;
      forall k | 0 <= k < |vs| ensures ShortAt(s, 2 * |vs| + |rest|, k) == Wrap16(vs[k]) {
        if k == 0 {
          assert s[0..2] == Bytes16(vs[0]);
          Read16Back(s, 0, vs[0]);
        } else {
          ReadBehind(Bytes16(vs[0]), inner, 2 * (k - 1));
          assert ShortAt(inner, 2 * |vs[1..]| + |rest|, k - 1) == Wrap16(vs[1..][k - 1]);
        }
      }
    }
  }

  /** The first `n` numbers at two distances are equal: what `endObject` compares. */
  ghost predicate SameVtable(s: seq<byte>, own: nat, other: nat, n: nat) {
    && 2 * n <= own <= |s| && 2 * n <= other <= |s|
    && forall k :: 0 <= k < n ==> ShortAt(s, own, k) == ShortAt(s, other, k)
  }

  /** An equal vtable serves a table as well as its own. */
  lemma SharedServes(s: seq<byte>, own: nat, other: nat, vs: seq<int>)
    requires Serves(s, own, vs) && SameVtable(s, own, other, |vs|)
    ensures Serves(s, other, vs)
  {
    forall k | 0 <= k < |vs| ensures ShortAt(s, other, k) == Wrap16(vs[k]) {
      assert ShortAt(s, own, k) == Wrap16(vs[k]);
    }
  }

  /** A vtable the builder remembers: its first number is its own length in bytes. */
  ghost predicate KnownVtable(s: seq<byte>, v: nat) {
    exists vs :: |vs| >= 2 && vs[0] == 2 * |vs| && Serves(s, v, vs)
  }

  lemma KnownKept(front: seq<byte>, s: seq<byte>, v: nat)
    requires KnownVtable(s, v)
    ensures KnownVtable(front + s, v)
  {
    var vs :| |vs| >= 2 && vs[0] == 2 * |vs| && Serves(s, v, vs);
    ServesKept(front, s, v, vs);
  }

  /** The reads of the comparison stay inside a remembered vtable. */
  lemma KnownReadable(s: seq<byte>, v: nat, len: nat)
    requires KnownVtable(s, v)
    ensures 4 <= v <= |s|
    ensures ShortAt(s, v, 0) == len ==> len <= v
  {
    var vs :| |vs| >= 2 && vs[0] == 2 * |vs| && Serves(s, v, vs);
    assert ShortAt(s, v, 0) == Wrap16(vs[0]);
    assert Wrap16(2 * |vs|) <= 2 * |vs|;
  }

  /** A vtable found in a longer buffer lies in the part of it that holds its distance. */
  lemma ServesInside(front: seq<byte>, s: seq<byte>, v: nat, vs: seq<int>)
    requires Serves(front + s, v, vs) && v <= |s|
    ensures Serves(s, v, vs)
  {
    forall k | 0 <= k < |vs| ensures ShortAt(s, v, k) == Wrap16(vs[k]) {
      assert ShortAt(front + s, v, k) == Wrap16(vs[k]);
      ReadBehind(front, s, |s| - v + 2 * k);
    }
  }

  /** A table that points at its own vtable, written directly in front of it. */
  lemma OwnVtable(t: Table, rest: seq<byte>)
    requires t.loc == 4 + |rest| && 2 * |VtableShorts(t)| <= INT32_MAX
    ensures var vs := VtableShorts(t); var v := 2 * |vs| + t.loc;
            var s := Shorts(vs) + (Bytes32(v - t.loc) + rest);
            LaidAt(s, t, v) && KnownVtable(s, v)
  {
    var vs := VtableShorts(t);
    var v := 2 * |vs| + t.loc;
    var s := Shorts(vs) + (Bytes32(v - t.loc) + rest);
    ShortsServe(vs, Bytes32(v - t.loc) + rest);
    assert |s| - t.loc == 2 * |vs| && s[2 * |vs|..2 * |vs| + 4] == Bytes32(v - t.loc);
    Read32Back(s, |s| - t.loc, v - t.loc);
  }

  /** A table that points at an equal vtable further back. */
  lemma SharedVtable(t: Table, pad: seq<byte>, written: seq<byte>, v: nat)
    requires t.loc == 4 + |pad| + |written| <= INT32_MAX && v <= |written| && Serves(written, v, VtableShorts(t))
    ensures LaidAt(Bytes32(v - t.loc) + (pad + written), t, v)
  {
    var s := Bytes32(v - t.loc) + (pad + written);
    assert s == (Bytes32(v - t.loc) + pad) + written;
    ServesKept(Bytes32(v - t.loc) + pad, written, v, VtableShorts(t));
    assert s[0..4] == Bytes32(v - t.loc);
    Read32Back(s, 0, v - t.loc);
  }

  // ---- the layout, number by number

  /**
   * A table starts with the distance back to its vtable. The vtable holds its own length in bytes,
   * the size of the object, and for each field up to the last one set how far it lies from the
   * start of the table, or 0.
   */
  lemma LayoutMeans(s: seq<byte>, t: Table, v: nat)
    requires LaidAt(s, t, v)
    ensures var table, vtable, n := |s| - t.loc, |s| - v, TrimmedSize(t.slots);
            && 0 <= vtable && vtable + 4 + 2 * n <= |s| && 0 <= table && table + 4 <= |s|
            && table - ReadInt32(s, table) == vtable
            && ReadInt16(s, vtable) == Wrap16(4 + 2 * n)
            && ReadInt16(s, vtable + 2) == Wrap16(t.loc - t.start)
            && forall i :: 0 <= i < n ==>
                ReadInt16(s, vtable + 4 + 2 * i) == Wrap16(if t.slots[i] != 0 then t.loc - t.slots[i] else 0)
  {
    var vs, n := VtableShorts(t), TrimmedSize(t.slots);
    assert ShortAt(s, v, 0) == Wrap16(vs[0]) && ShortAt(s, v, 1) == Wrap16(vs[1]);
    forall i | 0 <= i < n
      ensures ReadInt16(s, |s| - v + 4 + 2 * i) == Wrap16(if t.slots[i] != 0 then t.loc - t.slots[i] else 0)
    {
      assert ShortAt(s, v, i + 2) == Wrap16(vs[i + 2]);
    }
  }

  /** A lookup in any vtable reads the entry that lies there, and 0 for a field the vtable does not reach. */
  lemma LookupMeans(s: seq<byte>, table: nat, vtable: nat, i: nat, entry: int)
    requires table + 4 <= |s| && table - ReadInt32(s, table) == vtable && vtable + 2 <= |s|
    requires vtable + ReadInt16(s, vtable) <= |s| && vtable + 6 + 2 * i <= |s|
    requires ReadInt16(s, vtable + 4 + 2 * i) == entry
    ensures Readable(s, table)
    ensures ReadInt16(s, vtable) >= 6 + 2 * i ==> FieldOffset(s, table, 4 + 2 * i) == entry
    ensures ReadInt16(s, vtable) <= 4 + 2 * i ==> FieldOffset(s, table, 4 + 2 * i) == 0
  {}
}
