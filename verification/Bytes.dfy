/** Bytes and 32-bit integers in network byte order. */
module Bytes {

  type Byte = b: int | 0 <= b < 0x100

  type Int32 = v: int | -0x8000_0000 <= v < 0x8000_0000

  /** The bit pattern of a two's-complement 32-bit integer, read as unsigned. */
  function Unsigned(v: Int32): (u: int)
    ensures 0 <= u < 0x1_0000_0000
  {
    if v < 0 then v + 0x1_0000_0000 else v
  }

  function Signed(u: int): Int32
    requires 0 <= u < 0x1_0000_0000
  {
    if u < 0x8000_0000 then u else u - 0x1_0000_0000
  }

  /** `htonl` followed by a copy of the four bytes in memory order. */
  function Encode(v: Int32): (s: seq<Byte>)
    ensures |s| == 4
  {
    var u := Unsigned(v);
    [u / 0x100_0000, (u / 0x1_0000) % 0x100, (u / 0x100) % 0x100, u % 0x100]
  }

  /** `ntohl` of the first four bytes, kept in a signed 32-bit integer. */
  function Decode(s: seq<Byte>): Int32
    requires |s| >= 4
  {
    var b0: int, b1: int, b2: int, b3: int := s[0], s[1], s[2], s[3];
    Signed(b0 * 0x100_0000 + b1 * 0x1_0000 + b2 * 0x100 + b3)
  }

  /** Network byte order: the four bytes, most significant first, are the number modulo
      2^32; being four bytes they are determined by it. */
  lemma NetworkOrder(v: Int32)
    ensures var e := Encode(v);
      var b0: int, b1: int, b2: int, b3: int := e[0], e[1], e[2], e[3];
      |e| == 4 && (b0 * 0x100_0000 + b1 * 0x1_0000 + b2 * 0x100 + b3 - v) % 0x1_0000_0000 == 0
  {
    var u := Unsigned(v);
    assert u == (u / 0x100) * 0x100 + u % 0x100;
    assert u / 0x100 == (u / 0x1_0000) * 0x100 + (u / 0x100) % 0x100;
    assert u / 0x1_0000 == (u / 0x100_0000) * 0x100 + (u / 0x1_0000) % 0x100;
    assert (u - v) % 0x1_0000_0000 == 0;
  }

  lemma SmallNumbers(v: Int32)
    requires 0 <= v < 0x1_0000
    ensures Encode(v) == [0, 0, v / 0x100, v % 0x100]
  {}

  /** What is read back is, in the range of 32 bits, the number four bytes stand for. */
  lemma DecodedOrder(s: seq<Byte>)
    requires |s| >= 4
    ensures var b0: int, b1: int, b2: int, b3: int := s[0], s[1], s[2], s[3];
      (b0 * 0x100_0000 + b1 * 0x1_0000 + b2 * 0x100 + b3 - Decode(s)) % 0x1_0000_0000 == 0
  {
    var b0: int, b1: int, b2: int, b3: int := s[0], s[1], s[2], s[3];
    var u := b0 * 0x100_0000 + b1 * 0x1_0000 + b2 * 0x100 + b3;
    assert Decode(s) == Signed(u);
    assert (u - Signed(u)) % 0x1_0000_0000 == 0;
  }

  lemma DecodeEncode(v: Int32)
    ensures Decode(Encode(v)) == v
  {
    var u := Unsigned(v);
    assert u == (u / 0x100) * 0x100 + u % 0x100;
    assert u / 0x100 == (u / 0x1_0000) * 0x100 + (u / 0x100) % 0x100;
    assert u / 0x1_0000 == (u / 0x100_0000) * 0x100 + (u / 0x1_0000) % 0x100;
  }

  lemma DecodePrefix(a: seq<Byte>, b: seq<Byte>)
    requires |a| >= 4
    ensures Decode(a + b) == Decode(a)
  {}

  function Flatten<T>(ss: seq<seq<T>>): seq<T> {
    if ss == [] then [] else ss[0] + Flatten(ss[1..])
  }

  lemma {:induction false} FlattenAppend<T>(a: seq<seq<T>>, b: seq<seq<T>>)
    ensures Flatten(a + b) == Flatten(a) + Flatten(b)
  {
    if a == [] {
      assert a + b == b;
    } else {
      FlattenAppend(a[1..], b);
      assert (a + b)[0] == a[0] && (a + b)[1..] == a[1..] + b;
      Regroup(a[0], Flatten(a[1..]), Flatten(b));
    }
  }

  lemma Regroup<T>(a: seq<T>, b: seq<T>, c: seq<T>)
    ensures a + (b + c) == (a + b) + c
  {}

  /** `memcpy` of `src` to offset `at`. */
  method CopyBytes(dst: array<Byte>, at: nat, src: seq<Byte>)
    requires at + |src| <= dst.Length
    modifies dst
    ensures dst[..at] == old(dst[..at])
    ensures dst[at..at + |src|] == src
    ensures dst[at + |src|..] == old(dst[at + |src|..])
    ensures forall i | 0 <= i < dst.Length && !(at <= i < at + |src|) :: dst[i] == old(dst[i])
  {
    for i := 0 to |src|
      invariant dst[at..at + i] == src[..i]
      invariant forall j | 0 <= j < at || at + i <= j < dst.Length :: dst[j] == old(dst[j])
    {
      dst[at + i] := src[i];
    }
  }
}
