/** Base64 as in section 4 of RFC 4648, for hints. */
module Base64 {

  import opened ByteBuffers

  type sextet = v: int | 0 <= v < 64

  datatype Option<T> = None | Some(value: T)

  // ---- the alphabet

  function Char(v: sextet): char {
    if v < 26 then 'A' + v as char
    else if v < 52 then 'a' + (v - 26) as char
    else if v < 62 then '0' + (v - 52) as char
    else if v == 62 then '+'
    else '/'
  }

  function Value(c: char): (v: Option<sextet>)
    ensures v.Some? ==> Char(v.value) == c
  {
    if 'A' <= c <= 'Z' then Some((c - 'A') as int)
    else if 'a' <= c <= 'z' then Some((c - 'a') as int + 26)
    else if '0' <= c <= '9' then Some((c - '0') as int + 52)
    else if c == '+' then Some(62)
    else if c == '/' then Some(63)
    else None
  }

  lemma ValueOfChar(v: sextet)
    ensures Value(Char(v)) == Some(v) && Char(v) != '='
  {}

  // ---- bits

  /** Three bytes as four sextets. */
  function Split(x: int, y: int, z: int): (s: seq<sextet>)
    requires 0 <= x < 256 && 0 <= y < 256 && 0 <= z < 256
    ensures |s| == 4
  {
    [x / 4, x % 4 * 16 + y / 16, y % 16 * 4 + z / 64, z % 64]
  }

  /** Four sextets as three bytes. */
  function Join(p: int, q: int, r: int, s: int): (b: seq<byte>)
    requires 0 <= p < 64 && 0 <= q < 64 && 0 <= r < 64 && 0 <= s < 64
    ensures |b| == 3
  {
    [p * 4 + q / 16, q % 16 * 16 + r / 4, r % 4 * 64 + s]
  }

  lemma JoinSplit(x: int, y: int, z: int)
    requires 0 <= x < 256 && 0 <= y < 256 && 0 <= z < 256
    ensures var s := Split(x, y, z); Join(s[0], s[1], s[2], s[3]) == [x, y, z]
    ensures z == 0 ==> Split(x, y, z)[3] == 0
    ensures y == 0 && z == 0 ==> Split(x, y, z)[2] == 0
  {
    var q, r := x % 4 * 16 + y / 16, y % 16 * 4 + z / 64;
    assert q / 16 == x % 4 && q % 16 == y / 16 && r / 4 == y % 16 && r % 4 == z / 64;
  }

  /** Six bits at a time from bytes; the last group is filled up with zero bits. */
  function SixBits(b: seq<byte>): (s: seq<sextet>)
    ensures |s| == (4 * |b| + 2) / 3
  {
    if |b| == 0 then []
    else if |b| == 1 then Split(b[0], 0, 0)[..2]
    else if |b| == 2 then Split(b[0], b[1], 0)[..3]
    else Split(b[0], b[1], b[2]) + SixBits(b[3..])
  }

  /** Eight bits at a time from sextets; left-over bits are discarded. */
  function EightBits(s: seq<sextet>): (b: seq<byte>)
    ensures |b| == 3 * |s| / 4
  {
    if |s| <= 1 then []
    else if |s| == 2 then Join(s[0], s[1], 0, 0)[..1]
    else if |s| == 3 then Join(s[0], s[1], s[2], 0)[..2]
    else Join(s[0], s[1], s[2], s[3]) + EightBits(s[4..])
  }

  function Zeros(n: nat): (z: seq<sextet>)
    ensures |z| == n && forall i :: 0 <= i < n ==> z[i] == 0
  {
    seq(n, _ => 0)
  }

  function Padding(n: nat): (p: nat)
    ensures p <= 2 && (n + p) % 3 == 0
  {
    (3 - n % 3) % 3
  }

  // ---- strings

  function Chars(s: seq<sextet>): (c: string)
    ensures |c| == |s| && forall i :: 0 <= i < |s| ==> c[i] == Char(s[i])
  {
    seq(|s|, i requires 0 <= i < |s| => Char(s[i]))
  }

  function Equals(n: nat): (c: string)
    ensures |c| == n && forall i :: 0 <= i < n ==> c[i] == '='
  {
    seq(n, _ => '=')
  }

  function Encoded(b: seq<byte>): string {
    Chars(SixBits(b)) + Equals(Padding(|b|))
  }

  /** `encodeBase64`: pads a copy to whole groups, encodes what is not padding, appends the signs. */
  method EncodeBase64(first: seq<byte>) returns (encoded: string)
    ensures encoded == Encoded(first)
  {
    var bytes, bytesToPad := first, 0;
    while |bytes| % 3 != 0
      invariant bytesToPad <= Padding(|first|) && |bytes| == |first| + bytesToPad && bytes[..|first|] == first
      decreases Padding(|first|) - bytesToPad
    {
      bytesToPad := bytesToPad + 1;
      bytes := bytes + [0];
    }
    assert bytes[..|bytes| - bytesToPad] == first;
    encoded := Chars(SixBits(bytes[..|bytes| - bytesToPad]));
    encoded := encoded + Equals(bytesToPad);
  }

  function CountPads(s: string): (n: nat)
    ensures n <= |s|
  {
    if s == [] then 0 else CountPads(s[..|s| - 1]) + if s[|s| - 1] == '=' then 1 else 0
  }

  /** The sextets of a string in which padding signs count as zero, or nothing if another sign is in it. */
  function Values(s: string): (v: Option<seq<sextet>>)
    ensures v.Some? ==> |v.value| == |s|
  {
    if s == [] then Some([])
    else
      var front, last := Values(s[..|s| - 1]), if s[|s| - 1] == '=' then Some(0) else Value(s[|s| - 1]);
      if front.Some? && last.Some? then Some(front.value + [last.value]) else None
  }

  function Decoded(s: string): Option<seq<byte>> {
    var v := Values(s);
    if v.Some? && CountPads(s) <= |EightBits(v.value)| then
      Some(EightBits(v.value)[..|EightBits(v.value)| - CountPads(s)])
    else None
  }

  /**
   * `decodeBase64`: counts the padding signs, reads them as zero, and cuts as many bytes off the end.
   * A sign outside the alphabet is an error, and so are more padding signs than bytes.
   */
  method DecodeBase64(encoded: string) returns (decoded: Option<seq<byte>>)
    ensures decoded == Decoded(encoded)
  {
    var numPadded := 0;
    var unpadded := encoded;
    var sextets: seq<sextet> := [];
    for i := 0 to |encoded|
      invariant numPadded == CountPads(encoded[..i]) && Values(encoded[..i]) == Some(sextets)
      invariant |unpadded| == |encoded| && unpadded[i..] == encoded[i..]
    {
      assert encoded[..i + 1][..i] == encoded[..i];
      if encoded[i] == '=' {
        numPadded := numPadded + 1;
        unpadded := unpadded[i := 'A'];
      }
      assert unpadded[i] == if encoded[i] == '=' then 'A' else encoded[i] by { assert unpadded[i..][0] == unpadded[i]; }
      var v := Value(unpadded[i]);
      if v.None? {
        NoValues(encoded, i);
        return None;
      }
      sextets := sextets + [v.value];
    }
    assert encoded[..|encoded|] == encoded;
    var bytes := EightBits(sextets);
    decoded := if numPadded <= |bytes| then Some(bytes[..|bytes| - numPadded]) else None;
  }

  lemma {:induction false} NoValues(s: string, i: nat)
    requires i < |s| && s[i] != '=' && Value(s[i]).None?
    ensures Values(s).None?
    decreases |s|
  {
    if i < |s| - 1 { NoValues(s[..|s| - 1], i); }
  }

  // ---- the round trip

  lemma OneGroup(s: seq<sextet>, x: int, y: int, z: int)
    requires 0 <= x < 256 && 0 <= y < 256 && 0 <= z < 256 && |s| >= 4 && s[..4] == Split(x, y, z)
    ensures EightBits(s) == [x, y, z] + EightBits(s[4..])
  {
    hide Split, Join;
    JoinSplit(x, y, z);
    var g := s[..4];
    assert s[0] == g[0] && s[1] == g[1] && s[2] == g[2] && s[3] == g[3];
  }

  lemma JustOneGroup(s: seq<sextet>, x: int, y: int, z: int)
    requires 0 <= x < 256 && 0 <= y < 256 && 0 <= z < 256 && s == Split(x, y, z)
    ensures EightBits(s) == [x, y, z]
  {
    hide Split, EightBits;
    assert s[..4] == s && s[4..] == [];
    OneGroup(s, x, y, z);
    NoBits(s[4..]);
  }

  lemma ShortBits(b: seq<byte>)
    ensures |b| == 1 ==> SixBits(b) == Split(b[0], 0, 0)[..2]
    ensures |b| == 2 ==> SixBits(b) == Split(b[0], b[1], 0)[..3]
  {
    hide Split;
  }

  lemma OneByte(b: seq<byte>, z: seq<sextet>)
    requires |b| == 1 && |z| == 2 && z[0] == 0 && z[1] == 0
    ensures SixBits(b) + z == Split(b[0], 0, 0)
  {
    hide Split, Join, SixBits;
    JoinSplit(b[0], 0, 0);
    ShortBits(b);
    var s := Split(b[0], 0, 0);
    assert s[2..] == [s[2], s[3]] == z;
    assert s == s[..2] + s[2..];
  }

  lemma TwoBytes(b: seq<byte>, z: seq<sextet>)
    requires |b| == 2 && |z| == 1 && z[0] == 0
    ensures SixBits(b) + z == Split(b[0], b[1], 0)
  {
    hide Split, Join, SixBits;
    JoinSplit(b[0], b[1], 0);
    ShortBits(b);
    var s := Split(b[0], b[1], 0);
    assert s[3..] == [s[3]] == z;
    assert s == s[..3] + s[3..];
  }

  /** The last group: one or two bytes. */
  lemma LastGroup(b: seq<byte>, z: seq<sextet>)
    requires 1 <= |b| <= 2 && |z| == 3 - |b| && z[0] == 0 && (|z| == 2 ==> z[1] == 0)
    ensures EightBits(SixBits(b) + z) == b + z
  {
    hide Split, EightBits, SixBits;
    if |b| == 1 {
      OneByte(b, z);
      JustOneGroup(SixBits(b) + z, b[0], 0, 0);
      assert b + z == [b[0], 0, 0];
    } else {
      TwoBytes(b, z);
      JustOneGroup(SixBits(b) + z, b[0], b[1], 0);
      assert b + z == [b[0], b[1], 0];
    }
  }

  lemma NoBits(s: seq<sextet>)
    requires s == []
    ensures EightBits(s) == []
  {}

  lemma FirstGroup(b: seq<byte>)
    requires |b| >= 3
    ensures SixBits(b) == Split(b[0], b[1], b[2]) + SixBits(b[3..])
  {
    hide Split;
  }

  lemma AfterGroup(g: seq<sextet>, r: seq<sextet>, z: seq<sextet>)
    requires |g| == 4
    ensures ((g + r) + z)[..4] == g && ((g + r) + z)[4..] == r + z
  {}

  lemma SamePadding(n: nat)
    ensures Padding(n + 3) == Padding(n)
  {}

  /** Regrouping the bits and back gives the bytes, and zero bytes for what was filled up. */
  lemma {:induction false} BitsBack(b: seq<byte>)
    ensures EightBits(SixBits(b) + Zeros(Padding(|b|))) == b + Zeros(Padding(|b|))
    decreases |b|
  {
    hide Split, SixBits, EightBits, Zeros, Padding;
    if |b| == 0 {
      NoBits(SixBits(b) + Zeros(Padding(|b|)));
    } else if |b| <= 2 {
      LastGroup(b, Zeros(Padding(|b|)));
    } else {
      var rest, z := b[3..], Zeros(Padding(|b|));
      var s, g := SixBits(b) + z, Split(b[0], b[1], b[2]);
      SamePadding(|rest|);
      FirstGroup(b);
      AfterGroup(g, SixBits(rest), z);
      OneGroup(s, b[0], b[1], b[2]);
      BitsBack(rest);
      assert b + z == [b[0], b[1], b[2]] + (rest + z);
    }
  }

  lemma {:induction false} ValuesOf(s: seq<sextet>, n: nat)
    ensures Values(Chars(s) + Equals(n)) == Some(s + Zeros(n)) && CountPads(Chars(s) + Equals(n)) == n
    decreases |s| + n
  {
    var c := Chars(s) + Equals(n);
    if n > 0 {
      ValuesOf(s, n - 1);
      assert c[..|c| - 1] == Chars(s) + Equals(n - 1);
      assert s + Zeros(n) == (s + Zeros(n - 1)) + [0];
    } else if |s| > 0 {
      ValuesOf(s[..|s| - 1], 0);
      assert c[..|c| - 1] == Chars(s[..|s| - 1]) + Equals(0);
      ValueOfChar(s[|s| - 1]);
      assert s + Zeros(0) == (s[..|s| - 1] + Zeros(0)) + [s[|s| - 1]];
    }
  }

  lemma EncodedLength(b: seq<byte>)
    ensures |Encoded(b)| == 4 * ((|b| + 2) / 3)
  {
    hide SixBits, Chars, Equals;
  }

  /** Decoding what was encoded gives it back, and the length is four characters for every started group of three. */
  lemma RoundTrip(b: seq<byte>)
    ensures Decoded(Encoded(b)) == Some(b)
    ensures |Encoded(b)| == 4 * ((|b| + 2) / 3)
  {
    EncodedLength(b);
    hide SixBits, EightBits, Values, CountPads, Chars, Equals, Zeros, Padding;
    var p := Padding(|b|);
    ValuesOf(SixBits(b), p);
    BitsBack(b);
    assert (b + Zeros(p))[..|b|] == b;
  }

  // ---- against section 4 of RFC 4648

  /** The alphabet: 'A' to 'Z' stand for the first numbers, then come 'a' to 'z', '0' to '9', '+' and '/'. */
  lemma AlphabetRuns(v: sextet)
    ensures Char(0) == 'A' && Char(25) == 'Z' && Char(26) == 'a' && Char(51) == 'z'
    ensures Char(52) == '0' && Char(61) == '9' && Char(62) == '+' && Char(63) == '/'
    ensures v < 61 && v != 25 && v != 51 ==> Char(v + 1) as int == Char(v) as int + 1
  {}

  /** No other sign stands for a number. */
  lemma ValueIff(c: char, v: sextet)
    ensures Value(c) == Some(v) <==> c == Char(v)
  {
    ValueOfChar(v);
  }

  /** Three bytes and four sextets hold the same twenty-four bits, the first ones highest. */
  lemma SameBits(x: byte, y: byte, z: byte)
    ensures var s := Split(x, y, z);
            var p: int, q: int, r: int, t: int := s[0], s[1], s[2], s[3];
            ((p * 64 + q) * 64 + r) * 64 + t == (x * 256 + y) * 256 + z
  {
    assert x == x / 4 * 4 + x % 4 && y == y / 16 * 16 + y % 16 && z == z / 64 * 64 + z % 64;
  }

  /** A whole group of three bytes becomes four signs, and what follows is encoded by itself. */
  lemma EncodesGroup(b: seq<byte>) returns (p: sextet, q: sextet, r: sextet, s: sextet)
    requires |b| >= 3
    ensures var x: int, y: int, z: int := b[0], b[1], b[2];
            ((p * 64 + q) * 64 + r) * 64 + s == (x * 256 + y) * 256 + z
    ensures Encoded(b) == [Char(p), Char(q), Char(r), Char(s)] + Encoded(b[3..])
  {
    var g := Split(b[0], b[1], b[2]);
    p, q, r, s := g[0], g[1], g[2], g[3];
    SameBits(b[0], b[1], b[2]);
    FirstGroup(b);
    SamePadding(|b[3..]|);
    hide Split, SixBits, Padding;
    assert g == [p, q, r, s];
    assert Chars(g + SixBits(b[3..])) == [Char(p), Char(q), Char(r), Char(s)] + Chars(SixBits(b[3..]));
  }

  /** One byte over: its bits and four zero bits in two signs, and two signs of padding. */
  lemma EncodesOneByte(x: byte) returns (p: sextet, q: sextet)
    ensures p * 64 + q == x * 16 && Encoded([x]) == [Char(p), Char(q), '=', '=']
    ensures Encoded([]) == []
  {
    var g := Split(x, 0, 0);
    p, q := g[0], g[1];
    assert x == x / 4 * 4 + x % 4;
    assert SixBits([x]) == [p, q] && Padding(1) == 2;
    assert Chars([p, q]) == [Char(p), Char(q)] && Equals(2) == ['=', '='];
  }

  /** Two bytes over: their bits and two zero bits in three signs, and one sign of padding. */
  lemma EncodesTwoBytes(x: byte, y: byte) returns (p: sextet, q: sextet, r: sextet)
    ensures (p * 64 + q) * 64 + r == (x * 256 + y) * 4 && Encoded([x, y]) == [Char(p), Char(q), Char(r), '=']
  {
    var g := Split(x, y, 0);
    p, q, r := g[0], g[1], g[2];
    assert x == x / 4 * 4 + x % 4 && y == y / 16 * 16 + y % 16;
    assert SixBits([x, y]) == [p, q, r] && Padding(2) == 1;
    assert Chars([p, q, r]) == [Char(p), Char(q), Char(r)] && Equals(1) == ['='];
  }

  /** Four sextets and three bytes hold the same bits on the way back as well, whatever they are. */
  lemma SameBitsBack(p: sextet, q: sextet, r: sextet, s: sextet)
    ensures var b := Join(p, q, r, s);
            var x: int, y: int, z: int := b[0], b[1], b[2];
            (x * 256 + y) * 256 + z == ((p * 64 + q) * 64 + r) * 64 + s
  {
    assert q == q / 16 * 16 + q % 16 && r == r / 4 * 4 + r % 4;
  }

  lemma {:induction false} ValuesOfConcat(a: string, c: string)
    requires Values(a).Some? && Values(c).Some?
    ensures Values(a + c) == Some(Values(a).value + Values(c).value)
    ensures CountPads(a + c) == CountPads(a) + CountPads(c)
    decreases |c|
  {
    var v, w := Values(a).value, Values(c).value;
    if c == [] {
      assert a + c == a && v + w == v;
    } else {
      var front := c[..|c| - 1];
      assert (a + c)[..|a + c| - 1] == a + front;
      ValuesOfConcat(a, front);
      assert v + w == (v + Values(front).value) + [w[|w| - 1]];
    }
  }

  /** Decoding: four signs give the three bytes with the same bits, and what follows is decoded by itself. */
  lemma DecodesGroup(p: sextet, q: sextet, r: sextet, s: sextet, rest: string) returns (x: byte, y: byte, z: byte)
    requires Decoded(rest).Some?
    ensures (x * 256 + y) * 256 + z == ((p * 64 + q) * 64 + r) * 64 + s
    ensures Decoded([Char(p), Char(q), Char(r), Char(s)] + rest) == Some([x, y, z] + Decoded(rest).value)
  {
    var b := Join(p, q, r, s);
    x, y, z := b[0], b[1], b[2];
    SameBitsBack(p, q, r, s);
    ValuesOf([p, q, r, s], 0);
    var signs := [Char(p), Char(q), Char(r), Char(s)];
    assert signs == Chars([p, q, r, s]) + Equals(0) && [p, q, r, s] + Zeros(0) == [p, q, r, s];
    ValuesOfConcat(signs, rest);
    hide Join, Values, CountPads, Chars, Equals, Zeros;
    var w, n := Values(rest).value, CountPads(rest);
    assert ([p, q, r, s] + w)[4..] == w;
    var all := EightBits([p, q, r, s] + w);
    assert all == b + EightBits(w);
    assert all[..|all| - n] == b + EightBits(w)[..|EightBits(w)| - n];
  }

  /** Two signs and padding give the byte of their leading eight bits. */
  lemma DecodesOneByte(p: sextet, q: sextet) returns (x: byte)
    ensures x == (p * 64 + q) / 16 && Decoded([Char(p), Char(q), '=', '=']) == Some([x])
  {
    var b := Join(p, q, 0, 0);
    x := b[0];
    assert (p * 64 + q) / 16 == p * 4 + q / 16;
    ValuesOf([p, q], 2);
    assert [Char(p), Char(q), '=', '='] == Chars([p, q]) + Equals(2) && [p, q] + Zeros(2) == [p, q, 0, 0];
    hide Join, Values, CountPads, Chars, Equals, Zeros;
    assert [p, q, 0, 0][4..] == [] && EightBits([p, q, 0, 0]) == b + EightBits([]) == b;
    assert b[..1] == [x];
  }

  /** Three signs and padding give the bytes of their leading sixteen bits. */
  lemma DecodesTwoBytes(p: sextet, q: sextet, r: sextet) returns (x: byte, y: byte)
    ensures x * 256 + y == ((p * 64 + q) * 64 + r) / 4 && Decoded([Char(p), Char(q), Char(r), '=']) == Some([x, y])
  {
    var b := Join(p, q, r, 0);
    x, y := b[0], b[1];
    assert ((p * 64 + q) * 64 + r) / 4 == p * 1024 + q * 16 + r / 4;
    assert q == q / 16 * 16 + q % 16;
    ValuesOf([p, q, r], 1);
    assert [Char(p), Char(q), Char(r), '='] == Chars([p, q, r]) + Equals(1) && [p, q, r] + Zeros(1) == [p, q, r, 0];
    hide Join, Values, CountPads, Chars, Equals, Zeros;
    assert [p, q, r, 0][4..] == [] && EightBits([p, q, r, 0]) == b + EightBits([]) == b;
    assert b[..2] == [x, y];
  }
}
