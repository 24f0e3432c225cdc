// How a ledger is laid out in bytes: the word in the header of a free block
// links it to the next one, the first two header bytes of a live block hold
// the magic number and the bucket, and payloads lie behind the headers.

module Coupling {
  import opened Arithmetic
  import opened SizeClasses
  import opened Memory
  import opened Ledgers

  const MAGIC: byte := 0xef

  // The list that starts at p, read off the links in memory, is q.
  ghost predicate Chain(c: Machine, mem: seq<byte>, p: nat, q: seq<Block>)
    decreases |q|
  {
    if q == [] then p == 0
    else q[0].addr == p && p > 0 && p + c.h <= |mem| && Chain(c, mem, Load(c, mem, p), q[1..])
  }

  ghost predicate Marked(mem: seq<byte>, x: Block) {
    x.addr + 1 < |mem| && mem[x.addr] == MAGIC && mem[x.addr + 1] == x.bucket
  }

  ghost predicate Holds(c: Machine, mem: seq<byte>, s: Ledger, x: Block) {
    && x.addr + Phys(c, x.bucket) <= |mem| && x in s.data
    && mem[x.addr + c.h..x.addr + Phys(c, x.bucket)] == s.data[x]
  }

  ghost predicate Chains(c: Machine, mem: seq<byte>, nextf: seq<nat>, s: Ledger) {
    |nextf| == |s.free| && forall b: nat :: b < |nextf| ==> Chain(c, mem, nextf[b], s.free[b])
  }

  ghost predicate Coupled(c: Machine, mem: seq<byte>, nextf: seq<nat>, s: Ledger) {
    && |mem| == s.brk
    && Chains(c, mem, nextf, s)
    && (forall x :: x in s.live ==> Marked(mem, x))
    && (forall x :: x in s.blocks ==> Holds(c, mem, s, x))
  }

  // ---------------------------------------------------------------- frames

  ghost predicate HeaderKept(c: Machine, mem: seq<byte>, mem': seq<byte>, y: Block) {
    && y.addr + c.h <= |mem| && y.addr + c.h <= |mem'|
    && mem'[y.addr..y.addr + c.h] == mem[y.addr..y.addr + c.h]
  }

  ghost predicate PayloadKept(c: Machine, mem: seq<byte>, mem': seq<byte>, y: Block) {
    && y.addr + Phys(c, y.bucket) <= |mem| && y.addr + Phys(c, y.bucket) <= |mem'|
    && mem'[y.addr + c.h..y.addr + Phys(c, y.bucket)] == mem[y.addr + c.h..y.addr + Phys(c, y.bucket)]
  }

  lemma {:induction false} ChainFrame(c: Machine, mem: seq<byte>, mem': seq<byte>, p: nat, q: seq<Block>)
    requires Chain(c, mem, p, q)
    requires forall y :: y in q ==> HeaderKept(c, mem, mem', y)
    ensures Chain(c, mem', p, q)
    decreases |q|
  {
    if q != [] {
      assert HeaderKept(c, mem, mem', q[0]);
      assert forall y :: y in q[1..] ==> y in q;
      ChainFrame(c, mem, mem', Load(c, mem, p), q[1..]);
    }
  }

  // A change inside one block keeps every other block, and keeps the block's
  // own header if it stays behind it.
  lemma BlockFrame(c: Machine, mem: seq<byte>, mem': seq<byte>, s: Ledger, x: Block, lo: nat, hi: nat)
    requires Geometry(c, s) && |mem| == s.brk && x in s.blocks
    requires SameOutside(mem, mem', lo, hi) && x.addr <= lo <= hi <= x.addr + Phys(c, x.bucket)
    ensures forall y :: y in s.blocks && (y != x || x.addr + c.h <= lo) ==> HeaderKept(c, mem, mem', y)
    ensures forall y :: y in s.blocks && (y != x || hi <= x.addr + c.h) ==> PayloadKept(c, mem, mem', y)
  {
    hide Phys, Tiles, SameOutside, HeaderKept, PayloadKept;
    forall y | y in s.blocks
      ensures y != x || x.addr + c.h <= lo ==> HeaderKept(c, mem, mem', y)
      ensures y != x || hi <= x.addr + c.h ==> PayloadKept(c, mem, mem', y)
    {
      OneFrame(c, mem, mem', s, x, y, lo, hi);
    }
  }

  lemma OneFrame(c: Machine, mem: seq<byte>, mem': seq<byte>, s: Ledger, x: Block, y: Block, lo: nat, hi: nat)
    requires Geometry(c, s) && |mem| == s.brk && x in s.blocks && y in s.blocks
    requires SameOutside(mem, mem', lo, hi) && x.addr <= lo <= hi <= x.addr + Phys(c, x.bucket)
    ensures y != x || x.addr + c.h <= lo ==> HeaderKept(c, mem, mem', y)
    ensures y != x || hi <= x.addr + c.h ==> PayloadKept(c, mem, mem', y)
  {
    TilesInside(c, s.blocks, s.base, s.brk);
    AtLeastHeader(c, y.bucket);
    AtLeastHeader(c, x.bucket);
    hide Phys, Tiles, SameOutside, Aligned;
    if y != x {
      TilesApart(c, s.blocks, s.base, s.brk, x, y);
    }
    if y != x || x.addr + c.h <= lo {
      SliceKept(mem, mem', lo, hi, y.addr, y.addr + c.h);
    }
    if y != x || hi <= x.addr + c.h {
      SliceKept(mem, mem', lo, hi, y.addr + c.h, y.addr + Phys(c, y.bucket));
    }
  }

  lemma AtLeastHeader(c: Machine, b: nat)
    ensures Phys(c, b) >= 8 >= c.h
  {
  }

  // ---------------------------------------------------------------- the stores of kmalloc

  lemma PopBytes(c: Machine, mem: seq<byte>, nextf: seq<nat>, s: Ledger, b: nat, mem': seq<byte>)
    requires Ok(c, s) && Coupled(c, mem, nextf, s) && b < |s.free| && s.free[b] != []
    requires var a := s.free[b][0].addr;
             a + 1 < |mem| && b < 256 && mem' == mem[a := MAGIC][a + 1 := b]
    ensures nextf[b] == s.free[b][0].addr && nextf[b] + c.h <= |mem|
    ensures Coupled(c, mem', nextf[b := Load(c, mem, nextf[b])], Pop(s, b))
  {
    var x := s.free[b][0];
    var t := Pop(s, b);
    assert x in s.free[b] && ListOk(s, b);
    assert Chain(c, mem, nextf[b], s.free[b]);
    AtLeastHeader(c, x.bucket);
    assert Holds(c, mem, s, x);
    BlockFrame(c, mem, mem', s, x, x.addr, x.addr + 2);
    PopChains(c, mem, nextf, s, b, mem');
    hide Phys, Chains, Geometry, ListOk;
    assert forall y :: y in t.live ==> Marked(mem', y) by {
      forall y | y in s.live ensures Marked(mem', y) {
        assert HeaderKept(c, mem, mem', y) && Marked(mem, y);
        HeaderBytes(c, mem, mem', y);
      }
    }
    forall y | y in t.blocks ensures Holds(c, mem', t, y) {
      assert Holds(c, mem, s, y) && PayloadKept(c, mem, mem', y);
    }
  }

  lemma HeaderBytes(c: Machine, mem: seq<byte>, mem': seq<byte>, y: Block)
    requires HeaderKept(c, mem, mem', y)
    ensures y.addr + 1 < |mem| && y.addr + 1 < |mem'|
    ensures mem'[y.addr] == mem[y.addr] && mem'[y.addr + 1] == mem[y.addr + 1]
  {
    assert mem[y.addr] == mem[y.addr..y.addr + c.h][0] && mem'[y.addr] == mem'[y.addr..y.addr + c.h][0];
    assert mem[y.addr + 1] == mem[y.addr..y.addr + c.h][1] && mem'[y.addr + 1] == mem'[y.addr..y.addr + c.h][1];
  }

  lemma PopChains(c: Machine, mem: seq<byte>, nextf: seq<nat>, s: Ledger, b: nat, mem': seq<byte>)
    requires Partition(s) && Chains(c, mem, nextf, s) && b < |s.free| && s.free[b] != []
    requires forall y :: y in s.blocks && y != s.free[b][0] ==> HeaderKept(c, mem, mem', y)
    requires nextf[b] + c.h <= |mem|
    ensures Chains(c, mem', nextf[b := Load(c, mem, nextf[b])], Pop(s, b))
  {
    var x := s.free[b][0];
    var t := Pop(s, b);
    assert ListOk(s, b);
    assert s.free[b] == [x] + t.free[b];
    forall b': nat | b' < |nextf| ensures Chain(c, mem', nextf[b := Load(c, mem, nextf[b])][b'], t.free[b']) {
      assert ListOk(s, b') && Chain(c, mem, nextf[b'], s.free[b']);
      if b' == b {
        ChainFrame(c, mem, mem', Load(c, mem, nextf[b]), t.free[b]);
      } else {
        ChainFrame(c, mem, mem', nextf[b'], s.free[b']);
      }
    }
  }

  // ---------------------------------------------------------------- the stores of kfree

  lemma PushBytes(c: Machine, mem: seq<byte>, nextf: seq<nat>, s: Ledger, x: Block)
    requires Ok(c, s) && Coupled(c, mem, nextf, s) && x in s.live
    ensures x.bucket < |nextf| && x.addr > 0 && x.addr + c.h <= |mem|
    ensures Coupled(c, Store(mem, x.addr, Encode(nextf[x.bucket], c.h)), nextf[x.bucket := x.addr], Push(s, x))
  {
    var b := x.bucket;
    AtLeastHeader(c, b);
    assert Holds(c, mem, s, x) && Aligned(c, x);
    var mem' := Store(mem, x.addr, Encode(nextf[b], c.h));
    var nextf' := nextf[b := x.addr];
    TilesInside(c, s.blocks, s.base, s.brk);
    BlockFrame(c, mem, mem', s, x, x.addr, x.addr + c.h);
    PushChains(c, mem, nextf, s, x);
    hide Phys, Chains, Geometry, Partition, Store, Tiles;
    forall y | y in s.live && y != x ensures Marked(mem', y) {
      assert HeaderKept(c, mem, mem', y) && Marked(mem, y);
      HeaderBytes(c, mem, mem', y);
    }
    forall y | y in s.blocks ensures Holds(c, mem', Push(s, x), y) {
      assert Holds(c, mem, s, y) && PayloadKept(c, mem, mem', y);
    }
  }

  lemma PushChains(c: Machine, mem: seq<byte>, nextf: seq<nat>, s: Ledger, x: Block)
    requires Partition(s) && Chains(c, mem, nextf, s) && x in s.live
    requires x.addr > 0 && x.addr + c.h <= |mem| && |mem| <= Word(c) && x.bucket < |s.free|
    requires var mem' := Store(mem, x.addr, Encode(nextf[x.bucket], c.h));
             forall y :: y in s.blocks && y != x ==> HeaderKept(c, mem, mem', y)
    ensures Chains(c, Store(mem, x.addr, Encode(nextf[x.bucket], c.h)), nextf[x.bucket := x.addr], Push(s, x))
  {
    var b := x.bucket;
    var mem' := Store(mem, x.addr, Encode(nextf[b], c.h));
    var t := Push(s, x);
    assert Chain(c, mem, nextf[b], s.free[b]);
    LoadStored(c, mem, x.addr, nextf[b]);
    forall b': nat | b' < |nextf| ensures Chain(c, mem', nextf[b := x.addr][b'], t.free[b']) {
      assert ListOk(s, b') && Chain(c, mem, nextf[b'], s.free[b']);
      ChainFrame(c, mem, mem', nextf[b'], s.free[b']);
      if b' == b {
        assert t.free[b][1..] == s.free[b];
      }
    }
  }

  // ---------------------------------------------------------------- payload writes

  lemma PokeBytes(c: Machine, mem: seq<byte>, nextf: seq<nat>, s: Ledger, x: Block, off: nat, bs: seq<byte>)
    requires Ok(c, s) && Coupled(c, mem, nextf, s) && x in s.blocks && off + |bs| <= Cap(c, x.bucket)
    ensures x.addr + c.h + off + |bs| <= |mem|
    ensures Coupled(c, Store(mem, x.addr + c.h + off, bs), nextf, Poke(s, x, off, bs))
  {
    hide *;
    Parts(c, mem, nextf, s);
    PokeFrame(c, mem, nextf, s, x, off, bs);
    var mem' := Store(mem, x.addr + c.h + off, bs);
    var t := Poke(s, x, off, bs);
    HeadersFrame(c, mem, mem', nextf, s);
    PokeFields(s, x, off, bs);
    PokeOthers(c, mem, mem', s, x, t);
    CoupledFrom(c, mem', nextf, s, t);
  }

  lemma Parts(c: Machine, mem: seq<byte>, nextf: seq<nat>, s: Ledger)
    requires Ok(c, s) && Coupled(c, mem, nextf, s)
    ensures Geometry(c, s) && Partition(s) && |mem| == s.brk
    ensures forall x :: x in s.blocks ==> Holds(c, mem, s, x)
  {
    hide Geometry, Partition, Chains, Marked, Holds;
  }

  lemma PokeFrame(c: Machine, mem: seq<byte>, nextf: seq<nat>, s: Ledger, x: Block, off: nat, bs: seq<byte>)
    requires Ok(c, s) && Coupled(c, mem, nextf, s) && x in s.blocks && off + |bs| <= Cap(c, x.bucket)
    ensures x.addr + c.h + off + |bs| <= |mem| && x in s.data && off + |bs| <= |s.data[x]|
    ensures var mem' := Store(mem, x.addr + c.h + off, bs);
            && |mem'| == |mem|
            && Holds(c, mem', Poke(s, x, off, bs), x)
            && (forall y :: y in s.blocks ==> HeaderKept(c, mem, mem', y))
            && (forall y :: y in s.blocks && y != x ==> PayloadKept(c, mem, mem', y))
  {
    hide Phys, Geometry, Store, Cap, HeaderKept, PayloadKept, Marked, Chains, Poke, Partition, Counts;
    assert Holds(c, mem, s, x);
    var lo := x.addr + c.h + off;
    PokeFits(c, x.bucket, off, |bs|);
    PokeHolds(c, mem, s, x, off, bs);
    BlockFrame(c, mem, Store(mem, lo, bs), s, x, lo, lo + |bs|);
  }

  lemma PokeFits(c: Machine, b: nat, off: nat, len: nat)
    requires off + len <= Cap(c, b)
    ensures c.h + off + len <= Phys(c, b)
  {
  }

  // A ledger with the same lists and marks as s over memory that holds its payloads.
  lemma CoupledFrom(c: Machine, mem: seq<byte>, nextf: seq<nat>, s: Ledger, t: Ledger)
    requires Chains(c, mem, nextf, s) && (forall x :: x in s.live ==> Marked(mem, x))
    requires t.free == s.free && t.live == s.live && t.brk == |mem|
    requires forall x :: x in t.blocks ==> Holds(c, mem, t, x)
    ensures Coupled(c, mem, nextf, t)
  {
    hide Chain, Marked, Holds;
  }

  lemma PokeFields(s: Ledger, x: Block, off: nat, bs: seq<byte>)
    requires x in s.data && off + |bs| <= |s.data[x]|
    ensures var t := Poke(s, x, off, bs);
            && t.blocks == s.blocks && t.free == s.free && t.live == s.live && t.brk == s.brk
            && forall y :: y in s.data && y != x ==> y in t.data && t.data[y] == s.data[y]
  {
  }

  // Nothing but payloads changed: lists and magic numbers stay.
  lemma HeadersFrame(c: Machine, mem: seq<byte>, mem': seq<byte>, nextf: seq<nat>, s: Ledger)
    requires Partition(s) && Coupled(c, mem, nextf, s)
    requires forall y :: y in s.blocks ==> HeaderKept(c, mem, mem', y)
    ensures Chains(c, mem', nextf, s)
    ensures forall x :: x in s.live ==> Marked(mem', x)
  {
    hide HeaderKept;
    forall b: nat | b < |nextf| ensures Chain(c, mem', nextf[b], s.free[b]) {
      assert ListOk(s, b) && Chain(c, mem, nextf[b], s.free[b]);
      ChainFrame(c, mem, mem', nextf[b], s.free[b]);
    }
    forall y | y in s.live ensures Marked(mem', y) {
      assert HeaderKept(c, mem, mem', y) && Marked(mem, y);
      HeaderBytes(c, mem, mem', y);
    }
  }

  lemma PokeOthers(c: Machine, mem: seq<byte>, mem': seq<byte>, s: Ledger, x: Block, t: Ledger)
    requires t.blocks == s.blocks && Holds(c, mem', t, x)
    requires forall y :: y in s.blocks ==> Holds(c, mem, s, y)
    requires forall y :: y in s.blocks && y != x ==> PayloadKept(c, mem, mem', y)
    requires forall y :: y in s.data && y != x ==> y in t.data && t.data[y] == s.data[y]
    ensures forall y :: y in t.blocks ==> Holds(c, mem', t, y)
  {
    hide Phys;
    forall y | y in s.blocks ensures Holds(c, mem', t, y) {
      assert Holds(c, mem, s, y);
      if y != x { assert PayloadKept(c, mem, mem', y); }
    }
  }

  lemma PokeHolds(c: Machine, mem: seq<byte>, s: Ledger, x: Block, off: nat, bs: seq<byte>)
    requires Holds(c, mem, s, x) && off + |bs| <= Cap(c, x.bucket)
    ensures |s.data[x]| == Cap(c, x.bucket)
    ensures Holds(c, Store(mem, x.addr + c.h + off, bs), Poke(s, x, off, bs), x)
  {
    hide Phys;
    var lo, hi := x.addr + c.h, x.addr + Phys(c, x.bucket);
    assert mem[..lo + off][lo..] == mem[lo..hi][..off];
    var mem' := Store(mem, lo + off, bs);
    assert mem'[lo..hi] == Store(mem[lo..hi], off, bs);
  }

  // ---------------------------------------------------------------- the loop of morecore

  // The bytes after the loop that links n blocks of `stride` bytes from op on.
  function LinkUp(c: Machine, mem: seq<byte>, op: nat, stride: nat, n: nat): (r: seq<byte>)
    requires stride >= c.h
    ensures |r| == |mem|
    decreases n
  {
    if n <= 1 || op + stride > |mem| then mem
    else LinkUp(c, Store(mem, op, Encode(op + stride, c.h)), op + stride, stride, n - 1)
  }

  // Where n strides from op on end.
  function EndOf(op: nat, stride: nat, n: nat): (r: nat)
    ensures r >= op && (n > 0 ==> r >= op + stride)
    ensures r == op + n * stride
    decreases n
  {
    if n == 0 then op
    else
      assert n * stride == stride + (n - 1) * stride;
      EndOf(op + stride, stride, n - 1)
  }

  lemma {:induction false} LinkUpSame(c: Machine, mem: seq<byte>, op: nat, stride: nat, n: nat)
    requires stride >= c.h && EndOf(op, stride, n) <= |mem|
    ensures SameOutside(mem, LinkUp(c, mem, op, stride, n), op, EndOf(op, stride, n))
    decreases n
  {
    if n > 1 {
      var mem1 := Store(mem, op, Encode(op + stride, c.h));
      LinkUpSame(c, mem1, op + stride, stride, n - 1);
      var mid, end := op + stride, EndOf(op, stride, n);
      var mem2 := LinkUp(c, mem1, op + stride, stride, n - 1);
      assert SameOutside(mem1, mem2, mid, end);
      hide *;
      SameOutsideTrans(mem, mem1, mem2, op, op + c.h, mid, end);
    }
  }

  lemma SameOutsideTrans(mem: seq<byte>, mem1: seq<byte>, mem2: seq<byte>, lo: nat, hi: nat, lo': nat, hi': nat)
    requires SameOutside(mem, mem1, lo, hi) && SameOutside(mem1, mem2, lo', hi') && hi <= lo' <= hi' && lo <= lo'
    ensures SameOutside(mem, mem2, lo, hi')
  {
  }

  // One round of the loop: the bytes of the first block are final.
  lemma LinkUpStep(c: Machine, mem: seq<byte>, op: nat, stride: nat, n: nat)
    requires n >= 2 && stride >= c.h && EndOf(op, stride, n) <= |mem| <= Word(c)
    requires ZeroAt(mem, op, EndOf(op, stride, n))
    ensures EndOf(op + stride, stride, n - 1) == EndOf(op, stride, n) >= op + stride
    ensures var mem1 := Store(mem, op, Encode(op + stride, c.h));
            var mem2 := LinkUp(c, mem, op, stride, n);
            && mem2 == LinkUp(c, mem1, op + stride, stride, n - 1)
            && ZeroAt(mem1, op + stride, EndOf(op, stride, n))
            && Load(c, mem2, op) == op + stride
            && ZeroAt(mem2, op + c.h, op + stride)
  {
    hide Store, Load, Encode, SameOutside, ZeroAt;
    var mem1 := Store(mem, op, Encode(op + stride, c.h));
    LinkUpSame(c, mem1, op + stride, stride, n - 1);
    LoadStored(c, mem, op, op + stride);
    LinkedBytes(c, mem, mem1, LinkUp(c, mem, op, stride, n), op, op + stride, EndOf(op, stride, n));
  }

  lemma LinkedBytes(c: Machine, mem: seq<byte>, mem1: seq<byte>, mem2: seq<byte>, op: nat, mid: nat, end: nat)
    requires op + c.h <= mid <= end && ZeroAt(mem, op, end)
    requires SameOutside(mem, mem1, op, op + c.h) && SameOutside(mem1, mem2, mid, end)
    ensures ZeroAt(mem1, mid, end) && ZeroAt(mem2, op + c.h, mid)
    ensures op + c.h <= |mem1| == |mem2| && mem2[op..op + c.h] == mem1[op..op + c.h]
    ensures Load(c, mem2, op) == Load(c, mem1, op)
  {
    SliceKept(mem1, mem2, mid, end, op, op + c.h);
  }

  // Linking fresh zero bytes gives a list of the carved blocks, ended by the
  // last header, which the loop never writes; payloads stay zero.
  lemma {:induction false} LinkUpChain(c: Machine, mem: seq<byte>, b: nat, op: nat, n: nat)
    requires n >= 1 && op > 0 && EndOf(op, Phys(c, b), n) <= |mem| <= Word(c)
    requires ZeroAt(mem, op, EndOf(op, Phys(c, b), n))
    ensures Phys(c, b) >= c.h && Chain(c, LinkUp(c, mem, op, Phys(c, b), n), op, Carve(c, b, op, n))
    decreases n
  {
    var stride := Phys(c, b);
    AtLeastHeader(c, b);
    hide Phys, Word, Load, LinkUp, Carve, Chain, SameOutside, EndOf;
    if n == 1 {
      LinkUpOne(c, mem, op, stride);
      ZeroInside(mem, op, EndOf(op, stride, n), op, op + c.h);
      OneLink(c, mem, b, op);
    } else {
      LinkUpStep(c, mem, op, stride, n);
      LinkUpChain(c, Store(mem, op, Encode(op + stride, c.h)), b, op + stride, n - 1);
      ChainCons(c, LinkUp(c, mem, op, stride, n), b, op, n);
    }
  }

  lemma LinkUpOne(c: Machine, mem: seq<byte>, op: nat, stride: nat)
    requires stride >= c.h
    ensures LinkUp(c, mem, op, stride, 1) == mem
  {
  }

  lemma ChainCons(c: Machine, mem: seq<byte>, b: nat, op: nat, n: nat)
    requires n >= 1 && op > 0 && op + c.h <= |mem| && Load(c, mem, op) == op + Phys(c, b)
    requires Chain(c, mem, op + Phys(c, b), Carve(c, b, op + Phys(c, b), n - 1))
    ensures Chain(c, mem, op, Carve(c, b, op, n))
  {
    hide Phys, Load;
    assert Carve(c, b, op, n)[1..] == Carve(c, b, op + Phys(c, b), n - 1);
  }

  lemma OneLink(c: Machine, mem: seq<byte>, b: nat, op: nat)
    requires op > 0 && op + c.h <= |mem| && ZeroAt(mem, op, op + c.h)
    ensures Chain(c, mem, op, Carve(c, b, op, 1))
  {
    DecodeZeros(mem[op..op + c.h]);
    assert Carve(c, b, op, 1) == [Block(op, b)];
    assert Chain(c, mem, 0, []);
  }

  lemma {:induction false} LinkUpZero(c: Machine, mem: seq<byte>, b: nat, op: nat, n: nat)
    requires n >= 1 && EndOf(op, Phys(c, b), n) <= |mem| <= Word(c)
    requires ZeroAt(mem, op, EndOf(op, Phys(c, b), n))
    ensures Phys(c, b) >= c.h
    ensures forall x :: x in Carve(c, b, op, n) ==>
              ZeroAt(LinkUp(c, mem, op, Phys(c, b), n), x.addr + c.h, x.addr + Phys(c, b))
    decreases n
  {
    var stride := Phys(c, b);
    AtLeastHeader(c, b);
    hide Phys, Word, Load, ZeroAt, LinkUp, Store, EndOf;
    if n == 1 {
      LinkUpOne(c, mem, op, stride);
      ZeroInside(mem, op, EndOf(op, stride, n), op + c.h, op + stride);
      assert Carve(c, b, op, 1) == [Block(op, b)];
    } else {
      LinkUpStep(c, mem, op, stride, n);
      LinkUpZero(c, Store(mem, op, Encode(op + stride, c.h)), b, op + stride, n - 1);
      assert Carve(c, b, op, n) == [Block(op, b)] + Carve(c, b, op + stride, n - 1);
    }
  }

  lemma ZeroInside(mem: seq<byte>, lo: nat, hi: nat, i: nat, j: nat)
    requires ZeroAt(mem, lo, hi) && lo <= i && j <= hi
    ensures ZeroAt(mem, i, j)
  {
  }

  lemma GrowBytes(c: Machine, mem: seq<byte>, nextf: seq<nat>, s: Ledger, b: nat, grant: bool)
    requires Ok(c, s) && s.phase == Ready && Coupled(c, mem, nextf, s)
    requires b < |s.free| && s.free[b] == [] && CanGrow(c, s, b, grant)
    ensures s.brk + PerGrow(c, b) * Phys(c, b) <= |mem| + Grab(c, b) && Phys(c, b) >= c.h
    ensures Coupled(c, LinkUp(c, mem + Zeros(Grab(c, b)), s.brk, Phys(c, b), PerGrow(c, b)),
                    nextf[b := s.brk], Grow(c, s, b, grant))
  {
    var n, size := PerGrow(c, b), Grab(c, b);
    GrabIs(c, b);
    AtLeastHeader(c, b);
    var mem0 := mem + Zeros(size);
    var mem' := LinkUp(c, mem0, s.brk, Phys(c, b), n);
    assert EndOf(s.brk, Phys(c, b), n) == s.brk + size;
    TilesInside(c, s.blocks, s.base, s.brk);
    hide Phys, Page, Grab, PerGrow, Word, Tiles, LinkUp, Carve, EndOf;
    assert s.base > 0;
    LinkUpSame(c, mem0, s.brk, Phys(c, b), n);
    LinkUpChain(c, mem0, b, s.brk, n);
    LinkUpZero(c, mem0, b, s.brk, n);
    OldKept(c, mem, mem', s);
    GrowChains(c, mem, nextf, s, b, grant, mem');
    GrowHolds(c, mem, s, b, grant, mem');
    HeadersFrame(c, mem, mem', nextf, s);
    hide *;
    GrowBreak(c, s, b, grant);
  }

  lemma GrowBreak(c: Machine, s: Ledger, b: nat, grant: bool)
    requires b < |s.free| && CanGrow(c, s, b, grant)
    ensures Grow(c, s, b, grant).brk == s.brk + Grab(c, b) && Grow(c, s, b, grant).live == s.live
  {
  }

  // Memory that only changed from the break on keeps all blocks.
  lemma OldKept(c: Machine, mem: seq<byte>, mem': seq<byte>, s: Ledger)
    requires Geometry(c, s) && |mem| == s.brk <= |mem'| && mem'[..s.brk] == mem
    ensures forall y :: y in s.blocks ==> HeaderKept(c, mem, mem', y) && PayloadKept(c, mem, mem', y)
  {
    TilesInside(c, s.blocks, s.base, s.brk);
    forall y | y in s.blocks ensures HeaderKept(c, mem, mem', y) && PayloadKept(c, mem, mem', y) {
      AtLeastHeader(c, y.bucket);
      hide Phys, Tiles;
      SlicePrefix(mem, mem', y.addr, y.addr + c.h);
      SlicePrefix(mem, mem', y.addr + c.h, y.addr + Phys(c, y.bucket));
    }
  }

  lemma SlicePrefix(mem: seq<byte>, mem': seq<byte>, i: nat, j: nat)
    requires |mem| <= |mem'| && mem'[..|mem|] == mem && i <= j <= |mem|
    ensures mem'[i..j] == mem[i..j]
  {
    forall k | i <= k < j ensures mem'[k] == mem[k] {
      assert mem'[k] == mem'[..|mem|][k];
    }
  }

  lemma GrowChains(c: Machine, mem: seq<byte>, nextf: seq<nat>, s: Ledger, b: nat, grant: bool, mem': seq<byte>)
    requires Partition(s) && Chains(c, mem, nextf, s) && b < |s.free| && CanGrow(c, s, b, grant)
    requires forall y :: y in s.blocks ==> HeaderKept(c, mem, mem', y)
    requires Chain(c, mem', s.brk, Carve(c, b, s.brk, PerGrow(c, b)))
    ensures Chains(c, mem', nextf[b := s.brk], Grow(c, s, b, grant))
  {
    hide Phys, Page, Grab, PerGrow, Carve, CanGrow, HeaderKept;
    var t := Grow(c, s, b, grant);
    forall b': nat | b' < |nextf| ensures Chain(c, mem', nextf[b := s.brk][b'], t.free[b']) {
      assert ListOk(s, b') && Chain(c, mem, nextf[b'], s.free[b']);
      if b' != b {
        ChainFrame(c, mem, mem', nextf[b'], s.free[b']);
      }
    }
  }

  lemma GrowHolds(c: Machine, mem: seq<byte>, s: Ledger, b: nat, grant: bool, mem': seq<byte>)
    requires Geometry(c, s) && b < |s.free| && CanGrow(c, s, b, grant) && |mem'| == s.brk + Grab(c, b)
    requires forall y :: y in s.blocks ==> Holds(c, mem, s, y) && PayloadKept(c, mem, mem', y)
    requires forall x :: x in Carve(c, b, s.brk, PerGrow(c, b)) ==>
               ZeroAt(mem', x.addr + c.h, x.addr + Phys(c, b))
    ensures forall y :: y in Grow(c, s, b, grant).blocks ==> Holds(c, mem', Grow(c, s, b, grant), y)
  {
    AtLeastHeader(c, b);
    hide Phys, Page, Grab, PerGrow, Carve, Tiles, Word;
    var q := Carve(c, b, s.brk, PerGrow(c, b));
    CarveTiles(c, b, s.brk, PerGrow(c, b));
    NewBlocks(c, s, q);
    forall y | y in Grow(c, s, b, grant).blocks ensures Holds(c, mem', Grow(c, s, b, grant), y) {
      if y in q {
        assert mem'[y.addr + c.h..y.addr + Phys(c, b)] == Zeros(Cap(c, b));
      }
    }
  }

  // ---------------------------------------------------------------- the first call

  lemma PrimeBytes(c: Machine, mem: seq<byte>, nextf: seq<nat>, s: Ledger, grant: bool)
    requires Ok(c, s) && s.phase == Fresh && Coupled(c, mem, nextf, s) && Prime(c, s, grant).phase == Ready
    ensures Coupled(c, mem + Zeros(Pad(c, s.brk)), nextf, Prime(c, s, grant))
  {
    hide Pad, Page, Word, Tiles, Phys;
    var t := Prime(c, s, grant);
    forall b: nat | b < |nextf| ensures Chain(c, mem + Zeros(Pad(c, s.brk)), nextf[b], t.free[b]) {
      assert ListOk(s, b) && Chain(c, mem, nextf[b], s.free[b]);
    }
  }

  // ---------------------------------------------------------------- the magic number

  // In a list, every header word is NULL or the address of a listed block.
  lemma {:induction false} ChainLink(c: Machine, mem: seq<byte>, p: nat, q: seq<Block>, x: Block)
    requires Chain(c, mem, p, q) && x in q
    ensures x.addr + c.h <= |mem|
    ensures Load(c, mem, x.addr) == 0 || exists y :: y in q && y.addr == Load(c, mem, x.addr)
    decreases |q|
  {
    if x == q[0] {
      if |q| > 1 { assert q[1] in q; }
    } else {
      ChainLink(c, mem, Load(c, mem, p), q[1..], x);
    }
  }

  lemma AlignedByFour(c: Machine, x: Block)
    requires Aligned(c, x)
    ensures x.addr % 4 == 0
  {
    hide ZeroBits;
    ZeroBitsFewer(x.addr + c.h, Bits(c, x.bucket), 3);
    FourOf(x.addr, c.h);
  }

  lemma FourOf(a: nat, h: nat)
    requires (h == 4 || h == 8) && ZeroBits(a + h, 3)
    ensures a % 4 == 0
  {
    assert ZeroBits((a + h) / 2, 2);
  }

  // The low byte of a header is the magic number exactly when the block is
  // live, and then the next byte is its bucket.
  lemma MagicDecisive(c: Machine, mem: seq<byte>, nextf: seq<nat>, s: Ledger, x: Block)
    requires Ok(c, s) && Coupled(c, mem, nextf, s) && x in s.blocks
    ensures x.addr + c.h <= |mem|
    ensures mem[x.addr] == MAGIC <==> x in s.live
    ensures x in s.live ==> mem[x.addr + 1] == x.bucket
  {
    AtLeastHeader(c, x.bucket);
    assert Holds(c, mem, s, x);
    hide Phys, Tiles, Aligned, Page, Word, Load;
    if x in s.live {
      assert Marked(mem, x);
    } else {
      var b := x.bucket;
      assert ListOk(s, b) && x in s.free[b] && Chain(c, mem, nextf[b], s.free[b]);
      ChainLink(c, mem, nextf[b], s.free[b], x);
      var v := Load(c, mem, x.addr);
      if v != 0 {
        var y :| y in s.free[b] && y.addr == v;
        AlignedByFour(c, y);
      }
      LinkIsNotMagic(c, mem, x.addr);
    }
  }

  lemma LinkIsNotMagic(c: Machine, mem: seq<byte>, a: nat)
    requires a + c.h <= |mem| && Load(c, mem, a) % 4 == 0
    ensures mem[a] != MAGIC
  {
    var v := Load(c, mem, a);
    assert v % 256 == mem[a];
    assert v == 256 * (v / 256) + mem[a];
  }

  // ---------------------------------------------------------------- round trip

  // Freeing what was just allocated puts back every byte of the header.
  lemma PopPushBytes(c: Machine, mem: seq<byte>, a: nat, b: byte)
    requires a + c.h <= |mem|
    ensures Store(mem[a := MAGIC][a + 1 := b], a, Encode(Load(c, mem, a), c.h)) == mem
  {
    EncodeDecode(mem[a..a + c.h]);
    var mem1 := mem[a := MAGIC][a + 1 := b];
    var r := Store(mem1, a, Encode(Load(c, mem, a), c.h));
    forall i | 0 <= i < |mem| ensures r[i] == mem[i] {
      if a <= i < a + c.h {
        assert r[i] == r[a..a + c.h][i - a];
      }
    }
  }
}
