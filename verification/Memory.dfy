// Byte-addressed memory: little-endian words, stores, and what a store leaves
// alone. An address is an index; address 0 is NULL.

module Memory {
  import opened SizeClasses

  type byte = x: nat | x < 256

  function Encode(x: nat, width: nat): (bs: seq<byte>)
    ensures |bs| == width
    ensures width > 0 ==> bs[0] == x % 256
  {
    if width == 0 then [] else [x % 256] + Encode(x / 256, width - 1)
  }

  function Decode(bs: seq<byte>): (x: nat)
    ensures |bs| > 0 ==> x % 256 == bs[0]
  {
    if bs == [] then 0 else bs[0] + 256 * Decode(bs[1..])
  }

  // Number of values that fit `width` bytes.
  function Values(width: nat): (r: nat)
    ensures r >= 1
  {
    if width == 0 then 1 else 256 * Values(width - 1)
  }

  lemma {:induction false} DecodeEncode(x: nat, width: nat)
    requires x < Values(width)
    ensures Decode(Encode(x, width)) == x
  {
    if width > 0 {
      DecodeEncode(x / 256, width - 1);
      assert Encode(x, width)[1..] == Encode(x / 256, width - 1);
    }
  }

  lemma {:induction false} EncodeDecode(bs: seq<byte>)
    ensures Encode(Decode(bs), |bs|) == bs
  {
    if bs != [] {
      EncodeDecode(bs[1..]);
      assert Decode(bs) / 256 == Decode(bs[1..]);
    }
  }

  lemma {:induction false} DecodeZeros(bs: seq<byte>)
    requires forall i :: 0 <= i < |bs| ==> bs[i] == 0
    ensures Decode(bs) == 0
  {
    if bs != [] {
      DecodeZeros(bs[1..]);
    }
  }

  lemma WordValues(c: Machine)
    ensures Values(c.h) == Word(c)
  {
    assert Values(2) == 65536;
    assert Values(4) == 0x1_0000_0000;
    assert Values(6) == 0x1_0000_0000_0000;
  }

  function Zeros(n: nat): (z: seq<byte>)
    ensures |z| == n && forall i :: 0 <= i < n ==> z[i] == 0
  {
    seq(n, _ => 0)
  }

  // Memory with bs written at address a.
  function Store(mem: seq<byte>, a: nat, bs: seq<byte>): (r: seq<byte>)
    requires a + |bs| <= |mem|
    ensures |r| == |mem|
    ensures r[a..a + |bs|] == bs
    ensures SameOutside(mem, r, a, a + |bs|)
  {
    mem[..a] + bs + mem[a + |bs|..]
  }

  predicate SameOutside(mem: seq<byte>, mem': seq<byte>, lo: nat, hi: nat) {
    && |mem'| == |mem|
    && forall i :: 0 <= i < |mem| && !(lo <= i < hi) ==> mem'[i] == mem[i]
  }

  predicate ZeroAt(mem: seq<byte>, lo: nat, hi: nat) {
    hi <= |mem| && forall i :: lo <= i < hi ==> mem[i] == 0
  }

  // The word at address a: `((union overhead *) a)->ov_next`.
  function Load(c: Machine, mem: seq<byte>, a: nat): nat
    requires a + c.h <= |mem|
  {
    Decode(mem[a..a + c.h])
  }

  lemma LoadStored(c: Machine, mem: seq<byte>, a: nat, x: nat)
    requires a + c.h <= |mem| && x < Word(c)
    ensures Load(c, Store(mem, a, Encode(x, c.h)), a) == x
  {
    WordValues(c);
    DecodeEncode(x, c.h);
  }

  // A slice that a change stays away from.
  lemma SliceKept(mem: seq<byte>, mem': seq<byte>, lo: nat, hi: nat, i: nat, j: nat)
    requires SameOutside(mem, mem', lo, hi)
    requires i <= j <= |mem| && (j <= lo || hi <= i || i == j)
    ensures |mem'| == |mem| && mem'[i..j] == mem[i..j]
  {
  }
}
