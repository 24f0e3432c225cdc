// Sums over the heap: by address, block after block, and by bucket, as the
// statistics print them.

module Accounts {
  import opened Arithmetic
  import opened SizeClasses
  import opened Ledgers

  // Bytes of heap taken by the blocks of the first m buckets.
  function HeldBytes(c: Machine, q: seq<Block>, m: nat): nat {
    if m == 0 then 0 else HeldBytes(c, q, m - 1) + Count(q, m - 1) * Phys(c, m - 1)
  }

  // The same without spare pages, as 2^(b+3) a block.
  function NamedBytes(q: seq<Block>, m: nat): nat {
    if m == 0 then 0 else NamedBytes(q, m - 1) + Count(q, m - 1) * Size(m - 1)
  }

  // Blocks of the page bucket or above, among the first m buckets.
  function Spares(c: Machine, q: seq<Block>, m: nat): nat {
    if m == 0 then 0 else Spares(c, q, m - 1) + if m - 1 < c.pb then 0 else Count(q, m - 1)
  }

  function FreeBytes(s: Ledger, m: nat): nat
    requires m <= |s.free|
  {
    if m == 0 then 0 else FreeBytes(s, m - 1) + |s.free[m - 1]| * Size(m - 1)
  }

  function LiveBytes(s: Ledger, m: nat): nat {
    if m == 0 then 0 else LiveBytes(s, m - 1) + |LiveOf(s, m - 1)| * Size(m - 1)
  }

  lemma {:induction false} HeldCons(c: Machine, q: seq<Block>, m: nat)
    requires q != []
    ensures HeldBytes(c, q, m) ==
              HeldBytes(c, q[1..], m) + if q[0].bucket < m then Phys(c, q[0].bucket) else 0
  {
    if m > 0 {
      hide Phys, Count;
      HeldCons(c, q, m - 1);
      CountCons(q, m - 1);
      Distribute(Count(q[1..], m - 1), 1, Phys(c, m - 1));
    }
  }

  lemma CountCons(q: seq<Block>, b: nat)
    requires q != []
    ensures Count(q, b) == Count(q[1..], b) + if q[0].bucket == b then 1 else 0
  {
  }

  lemma {:induction false} HeldNone(c: Machine, m: nat)
    ensures HeldBytes(c, [], m) == 0
  {
    if m > 0 { HeldNone(c, m - 1); }
  }

  // The length of a tiled range is the sum over buckets.
  lemma {:induction false} TilesTotal(c: Machine, q: seq<Block>, lo: nat, hi: nat, m: nat)
    requires Tiles(c, q, lo, hi) && forall x :: x in q ==> x.bucket < m
    ensures hi == lo + HeldBytes(c, q, m)
  {
    if q == [] {
      HeldNone(c, m);
    } else {
      HeldCons(c, q, m);
      assert q[0] in q && forall x :: x in q[1..] ==> x in q;
      hide Phys, HeldBytes;
      TilesTotal(c, q[1..], lo + Phys(c, q[0].bucket), hi, m);
    }
  }

  lemma {:induction false} HeldIsNamed(c: Machine, q: seq<Block>, m: nat)
    ensures HeldBytes(c, q, m) == NamedBytes(q, m) + Spares(c, q, m) * Page(c)
  {
    if m > 0 {
      hide Page, Size, Count;
      HeldIsNamed(c, q, m - 1);
      var n := Count(q, m - 1);
      if m - 1 >= c.pb {
        Distribute(Size(m - 1), Page(c), n);
        Distribute(Spares(c, q, m - 1), n, Page(c));
        assert n * Phys(c, m - 1) == Phys(c, m - 1) * n;
        assert n * Size(m - 1) == Size(m - 1) * n;
        assert n * Page(c) == Page(c) * n;
      }
    }
  }

  lemma {:induction false} FreeAndLive(s: Ledger, m: nat)
    requires Counts(s) && m <= |s.free|
    ensures FreeBytes(s, m) + LiveBytes(s, m) == NamedBytes(s.blocks, m)
  {
    if m > 0 {
      FreeAndLive(s, m - 1);
      BucketBytes(s, m - 1);
    }
  }

  lemma BucketBytes(s: Ledger, b: nat)
    requires Counts(s) && b < |s.free|
    ensures |s.free[b]| * Size(b) + |LiveOf(s, b)| * Size(b) == Count(s.blocks, b) * Size(b)
  {
    assert Balanced(s, b);
    hide Size, Count;
    Distribute(|s.free[b]|, |LiveOf(s, b)|, Size(b));
  }

  lemma {:induction false} FreeBytesAtLeast(s: Ledger, m: nat, b: nat)
    requires b < m <= |s.free|
    ensures FreeBytes(s, m) >= |s.free[b]| * Size(b)
  {
    hide Size;
    if b < m - 1 {
      FreeBytesAtLeast(s, m - 1, b);
    }
    assert |s.free[m - 1]| * Size(m - 1) >= 0;
  }

  // Blocks on a list take eight bytes of the address space at least.
  lemma ListsFit(c: Machine, s: Ledger, b: nat)
    requires Ok(c, s) && b < |s.free|
    ensures 8 * |s.free[b]| <= Word(c)
  {
    Conservation(c, s);
    hide *;
    BreakFits(c, s);
    FreeBytesAtLeast(s, NBUCKETS, b);
    SizeIs(b);
    EightEach(|s.free[b]|, Pow2(b));
    Room(FreeBytes(s, NBUCKETS), LiveBytes(s, NBUCKETS), Spares(c, s.blocks, NBUCKETS), Page(c));
  }

  lemma BreakFits(c: Machine, s: Ledger)
    requires Ok(c, s)
    ensures s.brk <= Word(c) && |s.free| == NBUCKETS
  {
  }

  lemma SizeIs(b: nat)
    ensures Size(b) == 8 * Pow2(b)
  {
  }

  lemma Room(f: nat, l: nat, p: nat, page: nat)
    ensures f <= f + l + p * page
  {
  }

  lemma EightEach(n: nat, k: nat)
    requires k >= 1
    ensures n * (8 * k) >= 8 * n
  {
    assert n * (8 * k) == 8 * (n * k);
    assert n * k >= n;
  }

  // What is free and what is in use, at 2^(b+3) a block, is the heap less the
  // spare pages.
  lemma Conservation(c: Machine, s: Ledger)
    requires Ok(c, s)
    ensures |s.free| == NBUCKETS && s.base <= s.brk
    ensures FreeBytes(s, NBUCKETS) + LiveBytes(s, NBUCKETS) + Spares(c, s.blocks, NBUCKETS) * Page(c) == s.brk - s.base
  {
    hide Page, Size, HeldBytes, NamedBytes, Spares, FreeBytes, LiveBytes, Tiles, Count, Phys;
    forall x | x in s.blocks ensures x.bucket < NBUCKETS {
      assert Aligned(c, x);
    }
    TilesTotal(c, s.blocks, s.base, s.brk, NBUCKETS);
    HeldIsNamed(c, s.blocks, NBUCKETS);
    FreeAndLive(s, NBUCKETS);
  }
}
