// The abstract allocator: which blocks have been carved out of the heap, which
// are live, which wait on which free list, and what every payload holds. Each
// operation is a function on ledgers; nothing here knows about header bytes.

module Ledgers {
  import opened Arithmetic
  import opened SizeClasses
  import opened Memory

  // A block of the heap: the address of its header, and its bucket.
  datatype Block = Block(addr: nat, bucket: nat)

  // Before the first kmalloc; after it; and after a failure that the code does
  // not survive: a refused first sbrk, a memset through NULL in kcalloc, or a
  // shift by more than the width of an int in krealloc.
  datatype Phase = Fresh | Ready | Dead

  // How the system answers the two calls of sbrk that one operation can make.
  datatype Os = Os(align: bool, grow: bool)

  datatype Ledger = Ledger(
    phase: Phase,
    base: nat,                    // where the first block starts
    brk: nat,                     // the program break
    blocks: seq<Block>,           // all blocks ever carved, by address
    free: seq<seq<Block>>,        // the free lists
    live: set<Block>,             // what the clients own
    data: map<Block, seq<byte>>)  // the payload of every block

  datatype Reply = Reply(s: Ledger, p: nat)

  // ---------------------------------------------------------------- operations

  function Opening(brk: nat): Ledger {
    Ledger(Fresh, brk, brk, [], seq(NBUCKETS, _ => []), {}, map[])
  }

  // How far the break is from a page boundary less a header.
  function Pad(c: Machine, brk: nat): nat {
    var n := Page(c) - c.h - brk % Page(c);
    if n < 0 then n + Page(c) else n
  }

  function Prime(c: Machine, s: Ledger, grant: bool): Ledger {
    if s.phase != Fresh then s
    else if Pad(c, s.brk) > 0 && (!grant || s.brk + Pad(c, s.brk) > Word(c)) then s.(phase := Dead)
    else s.(phase := Ready, base := s.brk + Pad(c, s.brk), brk := s.brk + Pad(c, s.brk))
  }

  // Blocks that one call of morecore yields, and the bytes that it asks for.
  function PerGrow(c: Machine, b: nat): (n: nat)
    ensures n >= 1
  {
    if b < c.pb then Pow2(c.pb - b) else 1
  }

  function Grab(c: Machine, b: nat): nat {
    if b < c.pb then Page(c) else Size(b) + Page(c)
  }

  function Carve(c: Machine, b: nat, start: nat, n: nat): (q: seq<Block>)
    ensures |q| == n
    ensures n > 0 ==> q[0] == Block(start, b)
    decreases n
  {
    if n == 0 then [] else [Block(start, b)] + Carve(c, b, start + Phys(c, b), n - 1)
  }

  predicate CanGrow(c: Machine, s: Ledger, b: nat, grant: bool) {
    b < 28 && grant && s.brk + Grab(c, b) <= Word(c)
  }

  function Grow(c: Machine, s: Ledger, b: nat, grant: bool): Ledger
    requires b < |s.free|
  {
    if !CanGrow(c, s, b, grant) then s
    else
      var q := Carve(c, b, s.brk, PerGrow(c, b));
      s.(brk := s.brk + Grab(c, b),
         blocks := s.blocks + q,
         free := s.free[b := q],
         data := s.data + map x | x in q :: Zeros(Cap(c, b)))
  }

  function Pop(s: Ledger, b: nat): Ledger
    requires b < |s.free| && s.free[b] != []
  {
    s.(free := s.free[b := s.free[b][1..]], live := s.live + {s.free[b][0]})
  }

  function Push(s: Ledger, x: Block): Ledger
    requires x.bucket < |s.free|
  {
    s.(free := s.free[x.bucket := [x] + s.free[x.bucket]], live := s.live - {x})
  }

  // Bytes bs written into the payload of x.
  function Poke(s: Ledger, x: Block, off: nat, bs: seq<byte>): Ledger
    requires x in s.data && off + |bs| <= |s.data[x]|
  {
    s.(data := s.data[x := Store(s.data[x], off, bs)])
  }

  // ---------------------------------------------------------------- invariant

  ghost predicate Tiles(c: Machine, q: seq<Block>, lo: nat, hi: nat) {
    if q == [] then lo == hi
    else q[0].addr == lo && Tiles(c, q[1..], lo + Phys(c, q[0].bucket), hi)
  }

  // Zero bits that a payload address of bucket b ends in: those of
  // min(2^(b+3), page size).
  function Bits(c: Machine, b: nat): nat { 3 + if b < c.pb then b else c.pb }

  ghost predicate Shape(s: Ledger) {
    && |s.free| == NBUCKETS && s.free[28] == [] && s.free[29] == []
    && (s.phase == Fresh ==> s.blocks == [] && s.live == {})
  }

  ghost predicate Aligned(c: Machine, x: Block) {
    x.bucket < 28 && ZeroBits(x.addr + c.h, Bits(c, x.bucket))
  }

  ghost predicate Geometry(c: Machine, s: Ledger) {
    && Tiles(c, s.blocks, s.base, s.brk) && s.brk <= Word(c)
    && (s.phase == Ready ==> ZeroBits(s.brk + c.h, c.pb + 3) && s.base > 0)
    && (s.blocks != [] ==> s.base > 0)
    && forall x :: x in s.blocks ==> Aligned(c, x)
  }

  // What is on list b: free blocks of bucket b, each once.
  ghost predicate ListOk(s: Ledger, b: nat)
    requires b < |s.free|
  {
    && Distinct(s.free[b])
    && forall x :: x in s.free[b] ==> x in s.blocks && x.bucket == b && x !in s.live
  }

  ghost predicate Partition(s: Ledger) {
    && (forall b: nat :: b < |s.free| ==> ListOk(s, b))
    && (forall x :: x in s.live ==> x in s.blocks)
    && (forall x :: x in s.blocks ==> x.bucket < |s.free| && (x in s.live || x in s.free[x.bucket]))
  }

  ghost predicate Contents(c: Machine, s: Ledger) {
    forall x :: x in s.blocks ==> x in s.data && |s.data[x]| == Cap(c, x.bucket)
  }

  function Count(q: seq<Block>, b: nat): nat {
    if q == [] then 0 else (if q[0].bucket == b then 1 else 0) + Count(q[1..], b)
  }

  function LiveOf(s: Ledger, b: nat): set<Block> {
    set x | x in s.live && x.bucket == b
  }

  // The blocks carved for a bucket are its live blocks and its listed blocks.
  ghost predicate Balanced(s: Ledger, b: nat)
    requires b < |s.free|
  {
    |LiveOf(s, b)| + |s.free[b]| == Count(s.blocks, b)
  }

  ghost predicate Counts(s: Ledger) {
    forall b: nat :: b < |s.free| ==> Balanced(s, b)
  }

  ghost predicate Ok(c: Machine, s: Ledger) {
    Shape(s) && Geometry(c, s) && Partition(s) && Contents(c, s) && Counts(s)
  }

  // ---------------------------------------------------------------- tilings

  lemma {:induction false} TilesAppend(c: Machine, p: seq<Block>, q: seq<Block>, lo: nat, mid: nat, hi: nat)
    requires Tiles(c, p, lo, mid) && Tiles(c, q, mid, hi)
    ensures Tiles(c, p + q, lo, hi)
  {
    if p == [] {
      assert p + q == q;
    } else {
      TilesAppend(c, p[1..], q, lo + Phys(c, p[0].bucket), mid, hi);
      assert (p + q)[1..] == p[1..] + q;
    }
  }

  // The blocks of a tiling lie inside it.
  lemma {:induction false} TilesInside(c: Machine, q: seq<Block>, lo: nat, hi: nat)
    requires Tiles(c, q, lo, hi)
    ensures lo <= hi
    ensures forall x :: x in q ==> lo <= x.addr && x.addr + Phys(c, x.bucket) <= hi
  {
    hide Phys;
    if q != [] {
      TilesInside(c, q[1..], lo + Phys(c, q[0].bucket), hi);
      assert forall x :: x in q ==> x == q[0] || x in q[1..];
    }
  }

  ghost predicate Apart(c: Machine, x: Block, y: Block) {
    x.addr + Phys(c, x.bucket) <= y.addr || y.addr + Phys(c, y.bucket) <= x.addr
  }

  // Different blocks of a tiling have no byte in common.
  lemma {:induction false} TilesApart(c: Machine, q: seq<Block>, lo: nat, hi: nat, x: Block, y: Block)
    requires Tiles(c, q, lo, hi) && x in q && y in q && x != y
    ensures Apart(c, x, y)
  {
    hide Phys;
    TilesInside(c, q[1..], lo + Phys(c, q[0].bucket), hi);
    if x != q[0] && y != q[0] {
      TilesApart(c, q[1..], lo + Phys(c, q[0].bucket), hi, x, y);
    }
  }

  // Every byte of a tiled range belongs to a block.
  lemma {:induction false} TilesCover(c: Machine, q: seq<Block>, lo: nat, hi: nat, i: nat) returns (x: Block)
    requires Tiles(c, q, lo, hi) && lo <= i < hi
    ensures x in q && x.addr <= i < x.addr + Phys(c, x.bucket)
  {
    if i < lo + Phys(c, q[0].bucket) {
      x := q[0];
    } else {
      x := TilesCover(c, q[1..], lo + Phys(c, q[0].bucket), hi, i);
    }
  }

  // ---------------------------------------------------------------- carving

  // What one morecore asks for is exactly filled by its blocks, and is a whole
  // number of pages.
  lemma GrabIs(c: Machine, b: nat)
    ensures PerGrow(c, b) * Phys(c, b) == Grab(c, b)
    ensures b < c.pb ==> Page(c) / Size(b) == PerGrow(c, b)
    ensures ZeroBits(Grab(c, b), c.pb + 3)
  {
    PageBits(c);
    if b < c.pb {
      Pow2Sum(c.pb - b, b);
      FewerMod(Pow2(c.pb - b), Pow2(b), Page(c));
    } else {
      SizeBits(b, c.pb + 3);
      hide ZeroBits;
      ZeroBitsSum(Size(b), Page(c), c.pb + 3);
    }
  }

  lemma FewerMod(k: nat, m: nat, x: nat)
    requires m > 0 && x == 8 * (k * m)
    ensures k * (8 * m) == x && x / (8 * m) == k
  {
    MultipleMod(k, 8 * m);
  }

  lemma SizeBits(b: nat, k: nat)
    requires k <= b + 3
    ensures ZeroBits(Size(b), k)
  {
    ZeroBitsPow2(b + 3, k);
    hide ZeroBits;
    assert Pow2(b + 3) == 2 * Pow2(b + 2) && Pow2(b + 2) == 2 * Pow2(b + 1);
  }

  lemma PageBits(c: Machine)
    ensures ZeroBits(Page(c), c.pb + 3) && Pow2(c.pb + 3) == Page(c)
  {
    SizeBits(c.pb, c.pb + 3);
    hide ZeroBits;
    assert Pow2(c.pb + 3) == 2 * Pow2(c.pb + 2) && Pow2(c.pb + 2) == 2 * Pow2(c.pb + 1);
  }

  lemma {:induction false} CarveTiles(c: Machine, b: nat, start: nat, n: nat)
    ensures Tiles(c, Carve(c, b, start, n), start, start + n * Phys(c, b))
    ensures forall x :: x in Carve(c, b, start, n) ==> x.bucket == b && x.addr >= start
    decreases n
  {
    hide Phys;
    if n > 0 {
      CarveTiles(c, b, start + Phys(c, b), n - 1);
      assert n * Phys(c, b) == Phys(c, b) + (n - 1) * Phys(c, b);
      assert Carve(c, b, start, n)[1..] == Carve(c, b, start + Phys(c, b), n - 1);
    }
  }

  lemma {:induction false} CarveDistinct(c: Machine, b: nat, start: nat, n: nat)
    ensures Distinct(Carve(c, b, start, n))
    decreases n
  {
    if n > 0 {
      CarveDistinct(c, b, start + Phys(c, b), n - 1);
      CarveTiles(c, b, start + Phys(c, b), n - 1);
    }
  }

  lemma {:induction false} CarveAligned(c: Machine, b: nat, start: nat, n: nat)
    requires b < 28 && ZeroBits(start + c.h, Bits(c, b)) && (b < c.pb || n <= 1)
    ensures forall x :: x in Carve(c, b, start, n) ==> Aligned(c, x)
    decreases n
  {
    hide ZeroBits, Size;
    if n > 1 {
      SizeBits(b, Bits(c, b));
      ZeroBitsSum(start + c.h, Size(b), Bits(c, b));
      assert start + c.h + Size(b) == start + Phys(c, b) + c.h;
      CarveAligned(c, b, start + Phys(c, b), n - 1);
    }
  }

  lemma {:induction false} CountAppend(p: seq<Block>, q: seq<Block>, b: nat)
    ensures Count(p + q, b) == Count(p, b) + Count(q, b)
  {
    if p == [] {
      assert p + q == q;
    } else {
      CountAppend(p[1..], q, b);
      assert (p + q)[1..] == p[1..] + q;
    }
  }

  lemma {:induction false} CountUniform(q: seq<Block>, b: nat, b': nat)
    requires forall x :: x in q ==> x.bucket == b
    ensures Count(q, b') == if b' == b then |q| else 0
  {
    if q != [] {
      assert q[0] in q;
      CountUniform(q[1..], b, b');
    }
  }

  // ---------------------------------------------------------------- preservation

  lemma PadAligns(c: Machine, brk: nat)
    ensures ZeroBits(brk + Pad(c, brk) + c.h, c.pb + 3) && Pad(c, brk) < Page(c)
    ensures brk + Pad(c, brk) > 0
  {
    hide ZeroBits, Page, Pow2;
    PageCaps(c);
    PageBits(c);
    RoundUp(brk, Page(c));
    var up := brk - brk % Page(c) + Page(c);
    ZeroBitsMod(up, c.pb + 3);
    ZeroBitsSum(up, Page(c), c.pb + 3);
  }

  lemma RoundUp(x: nat, m: nat)
    requires m > 0
    ensures x % m <= x && (x - x % m + m) % m == 0
  {
    var q := x / m;
    assert x == q * m + x % m;
    assert x - x % m + m == (q + 1) * m;
    MultipleMod(q + 1, m);
  }

  lemma OpeningOk(c: Machine, brk: nat)
    requires brk <= Word(c)
    ensures Ok(c, Opening(brk))
  {
    hide Phys;
    assert forall b :: LiveOf(Opening(brk), b) == {};
  }

  lemma PrimeOk(c: Machine, s: Ledger, grant: bool)
    requires Ok(c, s)
    ensures Ok(c, Prime(c, s, grant))
  {
    var t := Prime(c, s, grant);
    hide Pad, Page, Word, Phys;
    PadAligns(c, s.brk);
    forall b: nat | b < |t.free| ensures Balanced(t, b) && ListOk(t, b) {
      assert Balanced(s, b) && ListOk(s, b);
      assert LiveOf(t, b) == LiveOf(s, b);
    }
  }

  lemma DeadOk(c: Machine, s: Ledger)
    requires Ok(c, s)
    ensures Ok(c, s.(phase := Dead))
  {
    hide Tiles, Page, Aligned;
    var t := s.(phase := Dead);
    forall b: nat | b < |t.free| ensures Balanced(t, b) && ListOk(t, b) {
      assert Balanced(s, b) && ListOk(s, b);
      assert LiveOf(t, b) == LiveOf(s, b);
    }
  }

  lemma PopOk(c: Machine, s: Ledger, b: nat)
    requires Ok(c, s) && s.phase == Ready && b < |s.free| && s.free[b] != []
    ensures Ok(c, Pop(s, b))
  {
    hide Tiles, Aligned, Page, Count, Cap, Word;
    var x := s.free[b][0];
    var t := Pop(s, b);
    assert x in s.free[b] && ListOk(s, b);
    assert Partition(t) by { PopPartition(s, b); }
    forall b': nat | b' < |t.free| ensures Balanced(t, b') {
      assert Balanced(s, b');
      if b' == b {
        assert LiveOf(t, b') == LiveOf(s, b') + {x};
      } else {
        assert LiveOf(t, b') == LiveOf(s, b');
      }
    }
  }

  lemma PopPartition(s: Ledger, b: nat)
    requires Partition(s) && b < |s.free| && s.free[b] != []
    ensures Partition(Pop(s, b))
  {
    var x := s.free[b][0];
    var t := Pop(s, b);
    assert ListOk(s, b) && x in s.free[b];
    assert s.free[b] == [x] + t.free[b];
    forall b': nat | b' < |t.free| ensures ListOk(t, b') {
      assert ListOk(s, b');
    }
    assert forall y :: y in s.blocks ==> y in t.live || y in t.free[y.bucket];
  }

  lemma PushOk(c: Machine, s: Ledger, x: Block)
    requires Ok(c, s) && x in s.live
    ensures x.bucket < 28 && Ok(c, Push(s, x))
  {
    hide Tiles, Page, Count, Cap, Word;
    var b := x.bucket;
    assert Aligned(c, x);
    var t := Push(s, x);
    assert Partition(t) by { PushPartition(s, x); }
    forall b': nat | b' < |t.free| ensures Balanced(t, b') {
      assert Balanced(s, b');
      if b' == b {
        assert LiveOf(s, b') == LiveOf(t, b') + {x};
      } else {
        assert LiveOf(t, b') == LiveOf(s, b');
      }
    }
  }

  lemma PushPartition(s: Ledger, x: Block)
    requires Partition(s) && x in s.live
    ensures Partition(Push(s, x))
  {
    var t := Push(s, x);
    assert ListOk(s, x.bucket);
    forall b: nat | b < |t.free| ensures ListOk(t, b) {
      assert ListOk(s, b);
    }
    assert forall y :: y in s.blocks ==> y in t.live || y in t.free[y.bucket];
  }

  lemma PokeOk(c: Machine, s: Ledger, x: Block, off: nat, bs: seq<byte>)
    requires Ok(c, s) && x in s.blocks && off + |bs| <= Cap(c, x.bucket)
    ensures Ok(c, Poke(s, x, off, bs))
  {
    hide Tiles, Aligned, Page, Count, Cap, Word;
    var t := Poke(s, x, off, bs);
    forall b: nat | b < |t.free| ensures Balanced(t, b) && ListOk(t, b) {
      assert Balanced(s, b) && ListOk(s, b);
      assert LiveOf(t, b) == LiveOf(s, b);
    }
  }

  lemma GrowOk(c: Machine, s: Ledger, b: nat, grant: bool)
    requires Ok(c, s) && s.phase == Ready && b < |s.free| && s.free[b] == []
    ensures Ok(c, Grow(c, s, b, grant))
  {
    if CanGrow(c, s, b, grant) {
      GrowGeometry(c, s, b, grant);
      GrowPartition(c, s, b, grant);
      GrowCounts(c, s, b, grant);
      hide *;
      GrowContents(c, s, b, grant);
      GrowShape(c, s, b, grant);
    }
  }

  lemma GrowShape(c: Machine, s: Ledger, b: nat, grant: bool)
    requires Shape(s) && s.phase == Ready && b < |s.free|
    ensures Shape(Grow(c, s, b, grant))
  {
  }

  lemma GrowContents(c: Machine, s: Ledger, b: nat, grant: bool)
    requires Contents(c, s) && b < |s.free| && CanGrow(c, s, b, grant)
    ensures Contents(c, Grow(c, s, b, grant))
  {
    hide Page, Cap, Carve, PerGrow, Grab, Phys;
    CarveTiles(c, b, s.brk, PerGrow(c, b));
  }

  lemma GrowGeometry(c: Machine, s: Ledger, b: nat, grant: bool)
    requires Geometry(c, s) && s.phase == Ready && b < |s.free| && CanGrow(c, s, b, grant)
    ensures Geometry(c, Grow(c, s, b, grant))
  {
    hide Phys, Page, Grab, PerGrow, Size, Word, ZeroBits, Bits;
    GrowAligned(c, s.brk, b);
    TilesInside(c, s.blocks, s.base, s.brk);
    CarveTiles(c, b, s.brk, PerGrow(c, b));
    TilesAppend(c, s.blocks, Carve(c, b, s.brk, PerGrow(c, b)), s.base, s.brk, s.brk + Grab(c, b));
  }

  lemma GrowAligned(c: Machine, brk: nat, b: nat)
    requires b < 28 && ZeroBits(brk + c.h, c.pb + 3)
    ensures PerGrow(c, b) * Phys(c, b) == Grab(c, b)
    ensures ZeroBits(brk + Grab(c, b) + c.h, c.pb + 3)
    ensures forall x :: x in Carve(c, b, brk, PerGrow(c, b)) ==> Aligned(c, x)
  {
    GrabIs(c, b);
    hide ZeroBits, Grab, Phys;
    ZeroBitsFewer(brk + c.h, c.pb + 3, Bits(c, b));
    ZeroBitsSum(brk + c.h, Grab(c, b), c.pb + 3);
    assert brk + c.h + Grab(c, b) == brk + Grab(c, b) + c.h;
    CarveAligned(c, b, brk, PerGrow(c, b));
  }

  lemma GrowPartition(c: Machine, s: Ledger, b: nat, grant: bool)
    requires Geometry(c, s) && Partition(s) && b < |s.free| && s.free[b] == [] && CanGrow(c, s, b, grant)
    ensures Partition(Grow(c, s, b, grant))
  {
    hide Phys, Page, Grab, PerGrow, Carve;
    var q := Carve(c, b, s.brk, PerGrow(c, b));
    var t := Grow(c, s, b, grant);
    CarveTiles(c, b, s.brk, PerGrow(c, b));
    CarveDistinct(c, b, s.brk, PerGrow(c, b));
    NewBlocks(c, s, q);
    forall b': nat | b' < |t.free| ensures ListOk(t, b') {
      assert ListOk(s, b');
    }
  }

  // Blocks at or above the break were not there before.
  lemma NewBlocks(c: Machine, s: Ledger, q: seq<Block>)
    requires Geometry(c, s) && forall x :: x in q ==> x.addr >= s.brk
    ensures forall x :: x in q ==> x !in s.blocks
  {
    TilesInside(c, s.blocks, s.base, s.brk);
  }

  lemma GrowCounts(c: Machine, s: Ledger, b: nat, grant: bool)
    requires Counts(s) && b < |s.free| && s.free[b] == [] && CanGrow(c, s, b, grant)
    ensures Counts(Grow(c, s, b, grant))
  {
    hide Phys, Page, Grab, PerGrow, Carve, Count;
    var q := Carve(c, b, s.brk, PerGrow(c, b));
    var t := Grow(c, s, b, grant);
    CarveTiles(c, b, s.brk, PerGrow(c, b));
    forall b': nat | b' < |t.free| ensures Balanced(t, b') {
      assert Balanced(s, b');
      assert LiveOf(t, b') == LiveOf(s, b');
      CountAppend(s.blocks, q, b');
      CountUniform(q, b, b');
    }
  }
}
