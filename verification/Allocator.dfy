// The allocator as it runs: free lists threaded through bytes, a table of list
// heads, and the two statics that the first call sets. Every method is proved
// to do to the ledger what the operation of the same name does.

module Allocator {
  import opened Arithmetic
  import opened SizeClasses
  import opened Memory
  import opened Ledgers
  import opened Operations
  import opened Coupling
  import opened Accounts

  // Counters are unsigned int.
  const UINT: nat := 0x1_0000_0000

  ghost predicate Counters(nmalloc: seq<nat>, s: Ledger) {
    |nmalloc| == |s.free| && forall b: nat :: b < |nmalloc| ==> nmalloc[b] == |LiveOf(s, b)| % UINT
  }

  ghost predicate Image(c: Machine, mem: seq<byte>, nextf: seq<nat>, nmalloc: seq<nat>,
                        pagesz: nat, pagebucket: nat, s: Ledger) {
    && Ok(c, s)
    && (s.phase != Dead ==> Coupled(c, mem, nextf, s) && Counters(nmalloc, s))
    && (s.phase == Fresh ==> pagesz == 0 && pagebucket == 0)
    && (s.phase == Ready ==> pagesz == Page(c) && pagebucket == c.pb)
  }

  lemma ImageFacts(c: Machine, mem: seq<byte>, nextf: seq<nat>, nmalloc: seq<nat>,
                   pagesz: nat, pagebucket: nat, s: Ledger)
    requires Image(c, mem, nextf, nmalloc, pagesz, pagebucket, s)
    ensures Ok(c, s) && Shape(s) && |s.free| == NBUCKETS
    ensures s.phase != Dead ==> Coupled(c, mem, nextf, s) && Chains(c, mem, nextf, s) && |mem| == s.brk
    ensures s.phase == Fresh ==> pagesz == 0 && pagebucket == 0
    ensures s.phase == Ready ==> pagesz == Page(c) && pagebucket == c.pb
  {
    hide Geometry, Partition, Contents, Counts, Chains;
  }

  lemma PrimeImage(c: Machine, mem: seq<byte>, nextf: seq<nat>, nmalloc: seq<nat>,
                   pagesz: nat, pagebucket: nat, s: Ledger, grant: bool)
    requires Image(c, mem, nextf, nmalloc, pagesz, pagebucket, s) && s.phase == Fresh
    ensures pagesz == pagebucket == 0 && |mem| == s.brk
    ensures Prime(c, s, grant).phase == Dead ==> Image(c, mem, nextf, nmalloc, Page(c), 0, Prime(c, s, grant))
    ensures Prime(c, s, grant).phase == Ready ==>
              Image(c, mem + Zeros(Pad(c, s.brk)), nextf, nmalloc, Page(c), c.pb, Prime(c, s, grant))
    ensures Prime(c, s, grant).phase != Fresh
  {
    hide Ok, Coupled, Pad, Page;
    SameLength(c, mem, nextf, s);
    PrimeOk(c, s, grant);
    if Prime(c, s, grant).phase == Ready {
      PrimeBytes(c, mem, nextf, s, grant);
    }
    assert forall b :: LiveOf(Prime(c, s, grant), b) == LiveOf(s, b);
  }

  lemma SameLength(c: Machine, mem: seq<byte>, nextf: seq<nat>, s: Ledger)
    requires Ok(c, s) && Coupled(c, mem, nextf, s)
    ensures |nextf| == |s.free| == NBUCKETS && |mem| == s.brk
  {
  }

  lemma GrowImage(c: Machine, mem: seq<byte>, nextf: seq<nat>, nmalloc: seq<nat>, s: Ledger, b: nat, grant: bool)
    requires Image(c, mem, nextf, nmalloc, Page(c), c.pb, s) && s.phase == Ready
    requires b < |s.free| && s.free[b] == [] && CanGrow(c, s, b, grant)
    ensures Phys(c, b) >= c.h && b < |nextf|
    ensures Image(c, LinkUp(c, mem + Zeros(Grab(c, b)), s.brk, Phys(c, b), PerGrow(c, b)), nextf[b := s.brk],
                  nmalloc, Page(c), c.pb, Grow(c, s, b, grant))
  {
    hide Ok, Coupled, CanGrow, Page, Phys, Grab, PerGrow, LinkUp, Carve;
    GrowOk(c, s, b, grant);
    GrowBytes(c, mem, nextf, s, b, grant);
    SameLength(c, mem, nextf, s);
    assert forall b' :: LiveOf(Grow(c, s, b, grant), b') == LiveOf(s, b');
  }

  lemma PopImage(c: Machine, mem: seq<byte>, nextf: seq<nat>, nmalloc: seq<nat>, s: Ledger, b: nat)
    requires Image(c, mem, nextf, nmalloc, Page(c), c.pb, s) && s.phase == Ready
    requires b < |s.free| && s.free[b] != []
    ensures |nextf| == |nmalloc| == |s.free| && nextf[b] == s.free[b][0].addr && nextf[b] + c.h <= |mem| && b < 28
    ensures Image(c, mem[nextf[b] := MAGIC][nextf[b] + 1 := b], nextf[b := Load(c, mem, nextf[b])],
                  nmalloc[b := (nmalloc[b] + 1) % UINT], Page(c), c.pb, Pop(s, b))
  {
    PopOk(c, s, b);
    HeadFits(c, mem, nextf, s, b);
    PopBytes(c, mem, nextf, s, b, mem[nextf[b] := MAGIC][nextf[b] + 1 := b]);
    hide Coupled, Ok, Load, Page;
    PopCounters(nmalloc, s, b);
  }

  lemma PopCounters(nmalloc: seq<nat>, s: Ledger, b: nat)
    requires Counters(nmalloc, s) && b < |s.free| && s.free[b] != []
    requires s.free[b][0] !in s.live && s.free[b][0].bucket == b
    ensures Counters(nmalloc[b := (nmalloc[b] + 1) % UINT], Pop(s, b))
  {
    var t := Pop(s, b);
    var nmalloc' := nmalloc[b := (nmalloc[b] + 1) % UINT];
    CountUp(|LiveOf(s, b)|, nmalloc[b]);
    forall b': nat | b' < |nmalloc| ensures nmalloc'[b'] == |LiveOf(t, b')| % UINT {
      if b' == b {
        assert LiveOf(t, b) == LiveOf(s, b) + {s.free[b][0]};
      } else {
        assert LiveOf(t, b') == LiveOf(s, b');
      }
    }
  }

  lemma CountUp(n: nat, k: nat)
    requires k == n % UINT
    ensures (k + 1) % UINT == (n + 1) % UINT
  {
  }

  lemma CountDown(n: nat, k: nat)
    requires n > 0 && k == n % UINT
    ensures (k + UINT - 1) % UINT == (n - 1) % UINT
  {
  }

  lemma HeadFits(c: Machine, mem: seq<byte>, nextf: seq<nat>, s: Ledger, b: nat)
    requires Ok(c, s) && Coupled(c, mem, nextf, s) && b < |s.free|
    ensures |nextf| == |s.free|
    ensures nextf[b] == 0 <==> s.free[b] == []
    ensures s.free[b] != [] ==> b < 28 && nextf[b] == s.free[b][0].addr && nextf[b] + c.h <= |mem|
    ensures s.free[b] != [] ==> s.free[b][0] in s.blocks && s.free[b][0] !in s.live && s.free[b][0].bucket == b
  {
    hide Geometry, Page, Load;
    assert Chain(c, mem, nextf[b], s.free[b]) && ListOk(s, b);
  }

  lemma PushImage(c: Machine, mem: seq<byte>, nextf: seq<nat>, nmalloc: seq<nat>, s: Ledger, x: Block)
    requires Image(c, mem, nextf, nmalloc, Page(c), c.pb, s) && s.phase == Ready && x in s.live
    ensures |nextf| == |nmalloc| == |s.free| && x.bucket < |nextf| && x.addr + c.h <= |mem|
    ensures Image(c, Store(mem, x.addr, Encode(nextf[x.bucket], c.h)), nextf[x.bucket := x.addr],
                  nmalloc[x.bucket := (nmalloc[x.bucket] + UINT - 1) % UINT], Page(c), c.pb, Push(s, x))
  {
    PushOk(c, s, x);
    PushBytes(c, mem, nextf, s, x);
    hide Coupled, Ok, Store, Encode, Page;
    PushCounters(nmalloc, s, x);
  }

  lemma PushCounters(nmalloc: seq<nat>, s: Ledger, x: Block)
    requires Counters(nmalloc, s) && x in s.live && x.bucket < |s.free|
    ensures Counters(nmalloc[x.bucket := (nmalloc[x.bucket] + UINT - 1) % UINT], Push(s, x))
  {
    var t := Push(s, x);
    var nmalloc' := nmalloc[x.bucket := (nmalloc[x.bucket] + UINT - 1) % UINT];
    forall b: nat | b < |nmalloc| ensures nmalloc'[b] == |LiveOf(t, b)| % UINT {
      if b == x.bucket {
        assert LiveOf(s, b) == LiveOf(t, b) + {x};
        CountDown(|LiveOf(s, b)|, nmalloc[b]);
      } else {
        assert LiveOf(t, b) == LiveOf(s, b);
      }
    }
  }

  lemma PokeImage(c: Machine, mem: seq<byte>, nextf: seq<nat>, nmalloc: seq<nat>, s: Ledger,
                  x: Block, off: nat, bs: seq<byte>)
    requires Image(c, mem, nextf, nmalloc, Page(c), c.pb, s) && s.phase == Ready
    requires x in s.blocks && off + |bs| <= Cap(c, x.bucket)
    ensures x.addr + c.h + off + |bs| <= |mem| && x in s.data && off + |bs| <= |s.data[x]|
    ensures Image(c, Store(mem, x.addr + c.h + off, bs), nextf, nmalloc, Page(c), c.pb, Poke(s, x, off, bs))
  {
    PokeOk(c, s, x, off, bs);
    PokeBytes(c, mem, nextf, s, x, off, bs);
    hide Coupled, Ok, Store, Page;
    assert forall b :: LiveOf(Poke(s, x, off, bs), b) == LiveOf(s, b);
  }

  class Kmalloc {
    const c: Machine
    var mem: seq<byte>              // the process image below the break
    const nextf: array<nat>
    const nmalloc: array<nat>
    var pagesz: nat
    var pagebucket: nat
    var srchlen: int                // realloc_srchlen
    ghost var led: Ledger

    ghost predicate Valid()
      reads this, nextf, nmalloc
    {
      && nextf.Length == NBUCKETS && nmalloc.Length == NBUCKETS && nextf != nmalloc
      && Image(c, mem, nextf[..], nmalloc[..], pagesz, pagebucket, led)
    }

    // The process starts with any image; no block has been carved.
    constructor (c: Machine, image: seq<byte>)
      requires |image| <= Word(c)
      ensures Valid() && fresh(nextf) && fresh(nmalloc)
      ensures this.c == c && mem == image && led == Opening(|image|) && srchlen == 4
    {
      this.c := c;
      mem := image;
      nextf := new nat[NBUCKETS](_ => 0);
      nmalloc := new nat[NBUCKETS](_ => 0);
      pagesz, pagebucket, srchlen := 0, 0, 4;
      led := Opening(|image|);
      new;
      OpeningOk(c, |image|);
      assert forall b :: LiveOf(led, b) == {};
      hide Ok, Geometry;
    }

    // The system's sbrk: it fails without effect, or returns the old break over
    // zero bytes. Nobody else moves the break.
    method Sbrk(n: nat, grant: bool) returns (p: int)
      modifies this`mem
      ensures p == -1 <==> !(grant && |old(mem)| + n <= Word(c))
      ensures p == -1 ==> mem == old(mem)
      ensures p != -1 ==> p == |old(mem)| && mem == old(mem) + Zeros(n)
    {
      if grant && |mem| + n <= Word(c) {
        p := |mem|;
        mem := mem + Zeros(n);
      } else {
        p := -1;
      }
    }

    // kmalloc, first call: the bucket whose block size is a page.
    static method PageBucket(c: Machine, pagesz: nat) returns (bucket: nat)
      requires pagesz == Page(c)
      ensures bucket == c.pb
    {
      var amt := 8;
      bucket := 0;
      while pagesz > amt
        invariant bucket <= c.pb && amt == Size(bucket)
        decreases c.pb - bucket
      {
        SizeBelowPage(c, bucket);
        SizeFits(c, c.pb);
        amt := (2 * amt) % UINT;
        bucket := bucket + 1;
      }
      SizeBelowPage(c, bucket);
    }

    // kmalloc, first call: align the break and set the two statics.
    method Setup(grant: bool) returns (ok: bool)
      requires Valid() && led.phase == Fresh
      modifies this`mem, this`led, this`pagesz, this`pagebucket
      ensures Valid() && led == Prime(c, old(led), grant)
      ensures ok <==> led.phase == Ready
      ensures !ok ==> led.phase == Dead && pagesz == Page(c) && pagebucket == 0
    {
      hide Image, Page;
      ghost var s, image := led, mem;
      PageCaps(c);
      PrimeImage(c, mem, nextf[..], nmalloc[..], pagesz, pagebucket, s, grant);
      pagesz := Page(c);
      var n := pagesz - c.h - |mem| % pagesz;
      if n < 0 {
        n := n + pagesz;
      }
      led := Prime(c, s, grant);
      if n != 0 {
        var r := Sbrk(n, grant);
        if r == -1 {
          return false;
        }
      }
      assert mem == image + Zeros(n);
      pagebucket := PageBucket(c, pagesz);
      ok := true;
    }
  
    // morecore. `1 << (bucket + 3)` is an int, so bucket 28 gives a negative size.
    method Morecore(bucket: nat, grant: bool)
      requires Valid() && led.phase == Ready && bucket <= LAST && led.free[bucket] == []
      modifies this`mem, this`led, nextf
      ensures Valid() && led == Grow(c, old(led), bucket, grant)
      // The list is filled exactly when the system gives a page, or for a block of a
      // page or more a page beyond its size; else nothing at all has changed.
      ensures var sz := Size(bucket); var amt := if sz < Page(c) then Page(c) else sz + Page(c);
              if bucket < 28 && grant && |old(mem)| + amt <= Word(c)
              then nextf[bucket] == |old(mem)| && |mem| == |old(mem)| + amt
              else mem == old(mem) && nextf[..] == old(nextf[..]) && led == old(led)
    {
      hide Image, Grow, Size, Page, Phys, Grab, PerGrow, LinkUp, Zeros, EndOf;
      ghost var s, image, heads := led, mem, nextf[..];
      IntSize(c, bucket);
      ImageFacts(c, mem, nextf[..], nmalloc[..], pagesz, pagebucket, led);
      GrowCases(c, image, heads, nmalloc[..], pagesz, pagebucket, s, bucket, grant);
      var sz: int := if Size(bucket) < 0x8000_0000 then Size(bucket) else Size(bucket) - 0x1_0000_0000;
      if sz <= 0 {
        return;
      }
      var amt, nblks;
      if sz < pagesz {
        amt := pagesz;
        nblks := amt / sz;
      } else {
        amt := sz + pagesz;
        nblks := 1;
      }
      var op := Sbrk(amt, grant);
      if op == -1 {
        return;
      }
      led := Grow(c, s, bucket, grant);
      nextf[bucket] := op;
      assert nextf[..] == heads[bucket := s.brk];
      LinkStride(c, mem, op, bucket);
      mem := Link(c, mem, op, sz, nblks);
    }

    // The loop of morecore: each new block but the last is linked to its neighbour.
    static method Link(c: Machine, mem0: seq<byte>, start: nat, sz: nat, blocks: nat) returns (mem: seq<byte>)
      requires sz >= c.h && blocks >= 1 && EndOf(start, sz, blocks) <= |mem0|
      ensures mem == LinkUp(c, mem0, start, sz, blocks)
    {
      hide Store, Encode;
      mem := mem0;
      var op: nat := start;
      var nblks: nat := blocks - 1;
      while nblks > 0
        invariant |mem| == |mem0| && EndOf(op, sz, nblks + 1) <= |mem|
        invariant LinkUp(c, mem, op, sz, nblks + 1) == LinkUp(c, mem0, start, sz, blocks)
      {
        mem := Store(mem, op, Encode(op + sz, c.h));
        op := op + sz;
        nblks := nblks - 1;
      }
    }

    // The head of a list left it, and two of its header bytes changed.
    ghost predicate Popped(mem0: seq<byte>, heads0: seq<nat>, nbytes: nat)
      reads this, nextf
    {
      && Choose(c, nbytes).Some?
      && var b := Choose(c, nbytes).value;
      && b < |heads0| && heads0[b] + c.h <= |mem0|
      && mem == mem0[heads0[b] := MAGIC][heads0[b] + 1 := b]
      && nextf[..] == heads0[b := Load(c, mem0, heads0[b])]
    }

    // kmalloc.
    method Kmalloc(nbytes: nat, os: Os) returns (p: nat)
      requires Valid() && led.phase != Dead && nbytes < Word(c)
      modifies this`mem, this`led, this`pagesz, this`pagebucket, nextf, nmalloc
      ensures Valid() && Reply(led, p) == Malloc(c, old(led), nbytes, os)
      ensures old(led.phase == Ready && InStock(c, led, nbytes)) ==> Popped(old(mem), old(nextf[..]), nbytes)
      ensures led.phase == Dead ==> pagesz == Page(c) && pagebucket == 0
    {
      hide Image, Ok, Page, Prime, MallocReady, Choose, Grow, Pop, Coupled, Allocated, Known, Cap, Shape;
      ghost var s := led;
      ImageFacts(c, mem, nextf[..], nmalloc[..], pagesz, pagebucket, led);
      PrimePhase(c, s, os.align);
      PageCaps(c);
      if pagesz == 0 {
        var ok := Setup(os.align);
        if !ok {
          return 0;
        }
      }
      ImageFacts(c, mem, nextf[..], nmalloc[..], pagesz, pagebucket, led);
      MallocReadyLaws(c, led, nbytes, os.grow);
      p := Take(nbytes, os.grow);
    }

    // kmalloc, once the statics are set: search, fill the list if need be, take its head.
    method Take(nbytes: nat, grant: bool) returns (p: nat)
      requires Valid() && led.phase == Ready && nbytes < Word(c)
      modifies this`mem, this`led, nextf, nmalloc
      ensures Valid() && Reply(led, p) == MallocReady(c, old(led), nbytes, grant)
      ensures old(InStock(c, led, nbytes)) ==> Popped(old(mem), old(nextf[..]), nbytes)
    {
      hide Image, Ok, Page, Choose, Grow, Pop, Coupled, Stocked, Load, Shape;
      ghost var s := led;
      ImageFacts(c, mem, nextf[..], nmalloc[..], pagesz, pagebucket, led);
      MallocReadyCases(c, s, nbytes, grant);
      var r := Search(c, pagesz, pagebucket, nbytes);
      if r == None {
        return 0;
      }
      var bucket := r.value;
      HeadFits(c, mem, nextf[..], led, bucket);
      StockedCases(c, s, bucket, grant);
      if nextf[bucket] == 0 {
        Morecore(bucket, grant);
        ImageFacts(c, mem, nextf[..], nmalloc[..], pagesz, pagebucket, led);
        HeadFits(c, mem, nextf[..], led, bucket);
        if nextf[bucket] == 0 {
          return 0;
        }
      }
      PopImage(c, mem, nextf[..], nmalloc[..], led, bucket);
      var op := nextf[bucket];
      nextf[bucket] := Load(c, mem, op);
      mem := mem[op := MAGIC][op + 1 := bucket];
      nmalloc[bucket] := (nmalloc[bucket] + 1) % UINT;
      led := Pop(led, bucket);
      p := op + c.h;
    }

    // kfree. A block that is already free is left as it is, and so is all else.
    method Kfree(cp: nat)
      requires Valid() && led.phase != Dead && (cp != 0 ==> Known(c, led, cp))
      modifies this`mem, this`led, nextf, nmalloc
      ensures Valid() && led == Free(c, old(led), cp)
      ensures old(cp != 0 && At(c, led, cp) in led.live) ==>
                Pushed(old(mem), old(nextf[..]), old(At(c, led, cp)))
      ensures old(cp == 0 || At(c, led, cp) !in led.live) ==>
                led == old(led) && mem == old(mem) && nextf[..] == old(nextf[..]) && nmalloc[..] == old(nmalloc[..])
    {
      hide Image, Ok, Page, Coupled, Push, Shape, Store, Encode;
      ghost var s := led;
      ImageFacts(c, mem, nextf[..], nmalloc[..], pagesz, pagebucket, led);
      if cp == 0 {
        return;
      }
      ghost var x := At(c, s, cp);
      KnownReady(c, mem, nextf[..], s, x);
      var op := cp - c.h;
      if mem[op] != MAGIC {
        return;
      }
      PushImage(c, mem, nextf[..], nmalloc[..], s, x);
      var size := mem[op + 1];
      mem := Store(mem, op, Encode(nextf[size], c.h));
      nextf[size] := op;
      nmalloc[size] := (nmalloc[size] + UINT - 1) % UINT;
      led := Push(s, x);
    }

    ghost predicate Pushed(mem0: seq<byte>, heads0: seq<nat>, x: Block)
      reads this, nextf
    {
      && x.bucket < |heads0| && x.addr + c.h <= |mem0|
      && mem == Store(mem0, x.addr, Encode(heads0[x.bucket], c.h))
      && nextf[..] == heads0[x.bucket := x.addr]
    }

    // kcalloc. The size of the memset is the wrapped product too.
    method Kcalloc(nelem: nat, elsize: nat, os: Os) returns (p: nat)
      requires Valid() && led.phase != Dead && nelem < Word(c) && elsize < Word(c)
      modifies this`mem, this`led, this`pagesz, this`pagebucket, nextf, nmalloc
      ensures Valid() && Reply(led, p) == Calloc(c, old(led), nelem, elsize, os)
    {
      hide Image, Ok, Page, Coupled, Malloc, Shape, Store, Allocated, Choose, Known, Cap, Zeros, Word;
      ghost var s := led;
      ImageFacts(c, mem, nextf[..], nmalloc[..], pagesz, pagebucket, led);
      var n := (nelem * elsize) % Word(c);
      MallocLaws(c, s, n, os);
      p := Kmalloc(n, os);
      ImageFacts(c, mem, nextf[..], nmalloc[..], pagesz, pagebucket, led);
      if p == 0 {
        DeadImage(c, mem, nextf[..], nmalloc[..], pagesz, pagebucket, led);
        led := led.(phase := Dead);
        return;
      }
      ghost var x := At(c, led, p);
      PokeImage(c, mem, nextf[..], nmalloc[..], led, x, 0, Zeros(n));
      mem := Store(mem, p, Zeros(n));
      led := Poke(led, x, 0, Zeros(n));
    }

    // What a client does between calls: it writes inside a payload it owns.
    method Write(p: nat, off: nat, bs: seq<byte>)
      requires Valid() && led.phase != Dead && Known(c, led, p) && At(c, led, p) in led.live
      requires off + |bs| <= Cap(c, At(c, led, p).bucket)
      modifies this`mem, this`led
      ensures Valid() && At(c, old(led), p) in old(led).data
      ensures off + |bs| <= |old(led).data[At(c, old(led), p)]| && led == Poke(old(led), At(c, old(led), p), off, bs)
    {
      hide Image, Ok, Page, Coupled, Shape, Store, Cap;
      ghost var x := At(c, led, p);
      ImageFacts(c, mem, nextf[..], nmalloc[..], pagesz, pagebucket, led);
      KnownReady(c, mem, nextf[..], led, x);
      PokeImage(c, mem, nextf[..], nmalloc[..], led, x, off, bs);
      mem := Store(mem, p + off, bs);
      led := Poke(led, x, off, bs);
    }

    // findbucket: the first list that has freep among its first `limit` entries.
    method Findbucket(freep: nat, limit: int) returns (r: int)
      requires Valid() && led.phase == Ready
      ensures -1 <= r < NBUCKETS
      ensures r >= 0 ==> Within(led.free[r], freep, limit)
      ensures forall b :: 0 <= b < (if r >= 0 then r else NBUCKETS) ==> !Within(led.free[b], freep, limit)
      // By rank: the block that stands k entries behind the head of list b.
      ensures forall b: nat, k: nat :: b < |led.free| && k < |led.free[b]| && led.free[b][k].addr == freep ==>
                r == if limit < 0 || k < limit then b else -1
      ensures r >= 0 ==> r < |led.free| && exists k :: 0 <= k < |led.free[r]| && led.free[r][k].addr == freep
    {
      hide Image, Ok, Page, Coupled, Shape;
      ImageFacts(c, mem, nextf[..], nmalloc[..], pagesz, pagebucket, led);
      for i := 0 to NBUCKETS
        invariant forall b :: 0 <= b < i ==> !Within(led.free[b], freep, limit)
      {
        var j := 0;
        var p := nextf[i];
        ghost var q := led.free[i];
        assert Chain(c, mem, nextf[..][i], q);
        while p != 0 && j != limit
          invariant 0 <= j <= |led.free[i]| && q == led.free[i][j..]
          invariant limit >= 0 ==> j <= limit
          invariant Chain(c, mem, p, q)
          invariant forall k :: 0 <= k < j ==> led.free[i][k].addr != freep
          decreases |q|
        {
          if p == freep {
            assert led.free[i][j].addr == freep;
            FoundByRank(c, led, i, freep, limit);
            return i;
          }
          p := Load(c, mem, p);
          q := q[1..];
          j := j + 1;
        }
      }
      FoundByRank(c, led, -1, freep, limit);
      return -1;
    }

    // krealloc: the bucket of a block that is live or can be found, or NBUCKETS.
    method BucketOf(cp: nat) returns (wasAlloced: bool, i: nat)
      requires Valid() && led.phase != Dead && cp != 0 && Known(c, led, cp)
      ensures wasAlloced <==> At(c, led, cp) in led.live
      ensures At(c, led, cp).bucket < 28 && |led.free| == NBUCKETS
      ensures i == if wasAlloced || Findable(led, At(c, led, cp), srchlen) then At(c, led, cp).bucket else NBUCKETS
      // By rank: the block that stands k entries behind the head of its list.
      ensures forall b: nat, k: nat :: b < |led.free| && k < |led.free[b]| && led.free[b][k] == At(c, led, cp) ==>
                !wasAlloced && i == if k == 0 || srchlen < 0 || k < srchlen then b else NBUCKETS
    {
      hide Image, Ok, Page, Coupled, Shape;
      ImageFacts(c, mem, nextf[..], nmalloc[..], pagesz, pagebucket, led);
      ghost var x := At(c, led, cp);
      KnownReady(c, mem, nextf[..], led, x);
      InBucket(c, led, x);
      var op := cp - c.h;
      wasAlloced := mem[op] == MAGIC;
      if wasAlloced {
        i := mem[op + 1];
      } else {
        var r := Findbucket(op, 1);
        FoundBucket(c, led, x, r, 1);
        if r < 0 {
          r := Findbucket(op, srchlen);
          FoundBucket(c, led, x, r, srchlen);
          if r < 0 {
            r := NBUCKETS;
          }
        }
        i := r;
      }
      ReachedByRank(c, led, x, srchlen);
    }

    // The end of krealloc: allocate, and copy unless the block itself came back.
    method Refill(cp: nat, nbytes: nat, onb: nat, os: Os) returns (res: nat)
      requires Valid() && led.phase == Ready && nbytes < Word(c) && Known(c, led, cp)
      requires onb == Cap(c, At(c, led, cp).bucket)
      modifies this`mem, this`led, this`pagesz, this`pagebucket, nextf, nmalloc
      ensures Valid() && Reply(led, res) == Move(c, old(led), At(c, old(led), cp), nbytes, os.grow)
    {
      hide Image, Ok, Page, Coupled, Shape, Store, Cap, Malloc, MallocReady, Choose, Word, Move, Poke, Bcopy;
      ghost var s, x := led, At(c, led, cp);
      ImageFacts(c, mem, nextf[..], nmalloc[..], pagesz, pagebucket, led);
      MoveCases(c, s, x, nbytes, os);
      res := Kmalloc(nbytes, os);
      if res == 0 {
        return 0;
      }
      if cp != res {
        ghost var y := At(c, led, res);
        var k := if nbytes < onb then nbytes else onb;
        CopyImage(c, mem, nextf[..], nmalloc[..], pagesz, pagebucket, led, x, y, k);
        mem := Bcopy(mem, cp, res, k);
        led := Poke(led, y, 0, led.data[x][..k]);
      }
    }

    // krealloc.
    method Krealloc(cp: nat, nbytes: nat, os: Os) returns (p: nat)
      requires Valid() && led.phase != Dead && nbytes < Word(c)
      requires cp != 0 ==> Known(c, led, cp)
      modifies this`mem, this`led, this`pagesz, this`pagebucket, nextf, nmalloc
      ensures Valid() && Reply(led, p) == Realloc(c, old(led), cp, nbytes, os, srchlen)
    {
      hide Image, Ok, Page, Coupled, Shape, Cap, Malloc, Choose, Word, Size, Move, KeepsBlock, Push;
      ghost var s := led;
      ImageFacts(c, mem, nextf[..], nmalloc[..], pagesz, pagebucket, led);
      if cp == 0 {
        p := Kmalloc(nbytes, os);
        return;
      }
      if nbytes == 0 {
        Kfree(cp);
        return 0;
      }
      ghost var x := At(c, led, cp);
      KnownReady(c, mem, nextf[..], led, x);
      var wasAlloced, i := BucketOf(cp);
      if i == NBUCKETS {
        // `1 << (i + 3)` shifts an int by more than its width.
        DeadImage(c, mem, nextf[..], nmalloc[..], pagesz, pagebucket, led);
        led := led.(phase := Dead);
        return 0;
      }
      ReallocSizes(c, i, nbytes);
      var onb := Size(i);
      if onb < pagesz {
        onb := onb - c.h;
      } else {
        onb := onb + pagesz - c.h;
      }
      if wasAlloced {
        var low := i;
        if i != 0 {
          low := Size(i - 1);
          if low < pagesz {
            low := low - c.h;
          } else {
            low := low + pagesz - c.h;
          }
        }
        if nbytes <= onb && nbytes > low {
          return cp;
        }
        PushOk(c, s, x);
        Kfree(cp);
        AfterPush(c, s, x);
      }
      p := Refill(cp, nbytes, onb, os);
    }

    // mstats: the length of every free list, the counters, and the two totals,
    // all in the code's 32 bits.
    method Mstats() returns (frees: seq<nat>, useds: seq<nat>, totused: nat, totfree: nat)
      requires Valid() && led.phase != Dead
      ensures |led.free| == NBUCKETS && led.base <= led.brk
      ensures |frees| == |useds| == NBUCKETS
      ensures forall b: nat :: b < NBUCKETS ==>
                && frees[b] == |led.free[b]| % UINT && useds[b] == |LiveOf(led, b)| % UINT
                && (frees[b] + useds[b]) % UINT == Count(led.blocks, b) % UINT
      ensures totfree == FreeBytes(led, NBUCKETS) % UINT && totused == LiveBytes(led, NBUCKETS) % UINT
      ensures (totused + totfree + Spares(c, led.blocks, NBUCKETS) * Page(c)) % UINT == (led.brk - led.base) % UINT
    {
      hide Image, Ok, Page, Coupled, Shape, Size, AddTotal, FreeBytes, LiveBytes, Spares, Count;
      ImageFacts(c, mem, nextf[..], nmalloc[..], pagesz, pagebucket, led);
      assert FreeBytes(led, 0) == 0 == LiveBytes(led, 0) by { NoBytes(led); }
      frees, totfree, totused := [], 0, 0;
      for i := 0 to NBUCKETS
        invariant totfree == FreeBytes(led, i) % UINT
        invariant |frees| == i && forall b: nat :: b < i ==> frees[b] == |led.free[b]| % UINT
      {
        var j := ListLength(i);
        AddFree(led, i, totfree, j);
        frees := frees + [j];
        totfree := AddTotal(totfree, j, i);
      }
      ImageCounters(c, mem, nextf[..], nmalloc[..], pagesz, pagebucket, led);
      useds := [];
      for i := 0 to NBUCKETS
        invariant totused == LiveBytes(led, i) % UINT
        invariant |useds| == i && forall b: nat :: b < i ==> useds[b] == |LiveOf(led, b)| % UINT
      {
        AddLive(led, i, totused, nmalloc[..][i]);
        useds := useds + [nmalloc[i]];
        totused := AddTotal(totused, nmalloc[i], i);
      }
      PrintedCounts(c, led, frees, useds);
      Conservation(c, led);
      TotalsMod(LiveBytes(led, NBUCKETS), FreeBytes(led, NBUCKETS), Spares(c, led.blocks, NBUCKETS) * Page(c));
    }

    // mstats: the walk of one list.
    method ListLength(i: nat) returns (j: nat)
      requires Valid() && led.phase != Dead && i < NBUCKETS
      ensures i < |led.free| && j == |led.free[i]| % UINT
    {
      hide Image, Ok, Coupled, Shape;
      ImageFacts(c, mem, nextf[..], nmalloc[..], pagesz, pagebucket, led);
      j := 0;
      var p := nextf[i];
      ghost var q := led.free[i];
      assert Chain(c, mem, nextf[..][i], q);
      ghost var n := 0;
      while p != 0
        invariant n + |q| == |led.free[i]| && j == n % UINT
        invariant Chain(c, mem, p, q)
        decreases |q|
      {
        p := Load(c, mem, p);
        q := q[1..];
        CountUp(n, j);
        j := (j + 1) % UINT;
        n := n + 1;
      }
    }

    // Allocations and frees nested like brackets, none of which needs morecore:
    // the memory image, the list heads and the lists end up as they were.
    method NestRun(w: Nest)
      requires Valid() && led.phase == Ready && Served(c, led, w)
      modifies this`mem, this`led, this`pagesz, this`pagebucket, nextf, nmalloc
      ensures Valid() && led == old(led)
      ensures mem == old(mem) && nextf[..] == old(nextf[..])
      decreases w
    {
      if w.Pair? {
        hide Image, Ok, Page, Coupled, Shape, Choose, Word, MallocReady, Load, Store, Encode, Free;
        ghost var s, mem0, heads0 := led, mem, nextf[..];
        ImageFacts(c, mem, nextf[..], nmalloc[..], pagesz, pagebucket, led);
        NestPair(c, mem, nextf[..], s, w.n);
        PrimePhase(c, s, true);
        var p := Kmalloc(w.n, Os(true, true));
        NestRun(w.inner);
        Kfree(p);
        NestRun(w.after);
      }
    }
  }

  // A well-nested sequence of allocations and frees.
  datatype Nest = Stop | Pair(n: nat, inner: Nest, after: Nest)

  // Every allocation of the sequence finds its list filled.
  ghost predicate Served(c: Machine, s: Ledger, w: Nest)
    decreases w
  {
    match w
    case Stop => true
    case Pair(n, inner, after) =>
      n < Word(c) && InStock(c, s, n) && Served(c, Pop(s, Choose(c, n).value), inner) && Served(c, s, after)
  }

  // One pair of brackets: what kmalloc takes from its list, kfree puts back,
  // down to the stale bytes of the header.
  lemma NestPair(c: Machine, mem: seq<byte>, nextf: seq<nat>, s: Ledger, n: nat)
    requires Ok(c, s) && s.phase == Ready && Coupled(c, mem, nextf, s) && InStock(c, s, n)
    ensures var b := Choose(c, n).value; var x := s.free[b][0]; var t := Pop(s, b);
            && MallocReady(c, s, n, true) == Reply(t, x.addr + c.h)
            && x.bucket == b && b < |nextf| && nextf[b] == x.addr && x.addr + c.h <= |mem| && b < 256
            && Ok(c, t) && t.phase == Ready && x in t.live
            && Known(c, t, x.addr + c.h) && At(c, t, x.addr + c.h) == x && Free(c, t, x.addr + c.h) == s
            && Store(mem[x.addr := MAGIC][x.addr + 1 := b], x.addr, Encode(Load(c, mem, x.addr), c.h)) == mem
            && nextf[b := Load(c, mem, x.addr)][b := x.addr] == nextf
  {
    ImageShape(c, s);
    hide Ok, Coupled, Shape, Choose, MallocReady, Load, Store, Encode, Pop, Push, Known, Stocked;
    var b := Choose(c, n).value;
    var x := s.free[b][0];
    HeadFits(c, mem, nextf, s, b);
    MallocReadyCases(c, s, n, true);
    StockedCases(c, s, b, true);
    PopLaws(c, s, b);
    PopPushBytes(c, mem, x.addr, b);
    PopPush(s, b);
    assert nextf[b := Load(c, mem, x.addr)][b := x.addr] == nextf;
  }

  lemma ImageShape(c: Machine, s: Ledger)
    requires Ok(c, s)
    ensures Shape(s)
  {
  }

  lemma PopPush(s: Ledger, b: nat)
    requires b < |s.free| && s.free[b] != [] && s.free[b][0].bucket == b && s.free[b][0] !in s.live
    ensures Push(Pop(s, b), s.free[b][0]) == s && s.free[b][0] in Pop(s, b).live
  {
    var t := Push(Pop(s, b), s.free[b][0]);
    assert t.live == s.live;
    assert t.free[b] == s.free[b];
    assert t.free == s.free;
  }

  lemma ImageCounters(c: Machine, mem: seq<byte>, nextf: seq<nat>, nmalloc: seq<nat>,
                      pagesz: nat, pagebucket: nat, s: Ledger)
    requires Image(c, mem, nextf, nmalloc, pagesz, pagebucket, s) && s.phase != Dead
    ensures |nmalloc| == NBUCKETS == |s.free|
    ensures forall b: nat :: b < |nmalloc| ==> nmalloc[b] == |LiveOf(s, b)| % UINT
  {
    hide Geometry, Partition, Coupled;
  }

  // `tot += j * (1 << (i + 3))` in 32 bits.
  function AddTotal(tot: nat, j: nat, i: nat): nat {
    (tot + j * Size(i)) % UINT
  }

  // What is printed as free and as used for a bucket adds up to its blocks.
  lemma PrintedCounts(c: Machine, s: Ledger, frees: seq<nat>, useds: seq<nat>)
    requires Ok(c, s) && |s.free| == NBUCKETS && |frees| == |useds| == NBUCKETS
    requires forall b: nat :: b < NBUCKETS ==> frees[b] == |s.free[b]| % UINT && useds[b] == |LiveOf(s, b)| % UINT
    ensures forall b: nat :: b < NBUCKETS ==> (frees[b] + useds[b]) % UINT == Count(s.blocks, b) % UINT
  {
    forall b: nat | b < NBUCKETS ensures (frees[b] + useds[b]) % UINT == Count(s.blocks, b) % UINT {
      assert Balanced(s, b);
      hide *;
      TotalsMod(|s.free[b]|, |LiveOf(s, b)|, 0);
    }
  }

  lemma NoBytes(s: Ledger)
    ensures FreeBytes(s, 0) == 0 == LiveBytes(s, 0)
  {
  }

  lemma AddFree(s: Ledger, i: nat, tot: nat, j: nat)
    requires i < |s.free| && tot == FreeBytes(s, i) % UINT && j == |s.free[i]| % UINT
    ensures AddTotal(tot, j, i) == FreeBytes(s, i + 1) % UINT
  {
    hide Size;
    ModSums(FreeBytes(s, i), |s.free[i]|, Size(i), UINT);
  }

  lemma AddLive(s: Ledger, i: nat, tot: nat, j: nat)
    requires tot == LiveBytes(s, i) % UINT && j == |LiveOf(s, i)| % UINT
    ensures AddTotal(tot, j, i) == LiveBytes(s, i + 1) % UINT
  {
    hide Size;
    ModSums(LiveBytes(s, i), |LiveOf(s, i)|, Size(i), UINT);
  }

  lemma TotalsMod(used: nat, free: nat, spare: nat)
    ensures (used % UINT + free % UINT + spare) % UINT == (free + used + spare) % UINT
  {
    var p, q := used / UINT, free / UINT;
    assert used == p * UINT + used % UINT && free == q * UINT + free % UINT;
    ModShift(used % UINT + free % UINT + spare, p + q, UINT);
  }

  // The sizes in krealloc: what the block holds, and when it is kept.
  lemma ReallocSizes(c: Machine, b: nat, n: nat)
    requires b < 28 && n > 0
    ensures Size(b) >= 8
    ensures Cap(c, b) == if Size(b) < Page(c) then Size(b) - c.h else Size(b) + Page(c) - c.h
    ensures b > 0 ==> Size(b - 1) >= 8
    ensures Choose(c, n) == Some(b) <==>
              n <= (if Size(b) < Page(c) then Size(b) - c.h else Size(b) + Page(c) - c.h) &&
              n > (if b == 0 then 0
                   else if Size(b - 1) < Page(c) then Size(b - 1) - c.h
                   else Size(b - 1) + Page(c) - c.h)
  {
    KeepsBlockIffSameClass(c, b, n);
    SizeBelowPage(c, b);
  }

  // bcopy on ranges without a common byte, where memcpy may stand for it too.
  function Bcopy(mem: seq<byte>, src: nat, dst: nat, len: nat): seq<byte>
    requires src + len <= |mem| && dst + len <= |mem|
    requires src + len <= dst || dst + len <= src
  {
    Store(mem, dst, mem[src..src + len])
  }

  // The copy in krealloc reads and writes payloads that have no common byte,
  // and moves contents from block to block.
  lemma CopyImage(c: Machine, mem: seq<byte>, nextf: seq<nat>, nmalloc: seq<nat>,
                  pagesz: nat, pagebucket: nat, s: Ledger, x: Block, y: Block, k: nat)
    requires Image(c, mem, nextf, nmalloc, pagesz, pagebucket, s) && s.phase == Ready
    requires x in s.blocks && y in s.blocks && x != y
    requires k <= Cap(c, x.bucket) && k <= Cap(c, y.bucket)
    ensures var src, dst := x.addr + c.h, y.addr + c.h;
            && src + k <= |mem| && dst + k <= |mem| && (src + k <= dst || dst + k <= src)
            && x in s.data && y in s.data && k <= |s.data[x]| && k <= |s.data[y]|
            && Image(c, Bcopy(mem, src, dst, k), nextf, nmalloc, pagesz, pagebucket, Poke(s, y, 0, s.data[x][..k]))
  {
    hide Ok, Coupled, Cap, Store, Page;
    PayloadBytes(c, mem, nextf, s, x, k);
    PokeImage(c, mem, nextf, nmalloc, s, y, 0, s.data[x][..k]);
    CopyApart(c, s, x, y, k);
  }

  // From the ledger that Kmalloc leaves to the one that krealloc leaves.
  lemma MoveCases(c: Machine, s: Ledger, x: Block, n: nat, os: Os)
    requires Ok(c, s) && s.phase == Ready && x in s.blocks
    ensures var r := Malloc(c, s, n, os);
            && r.s.phase == Ready
            && (r.p == 0 || r.p == x.addr + c.h ==> r == Move(c, s, x, n, os.grow))
            && (r.p != 0 && r.p != x.addr + c.h ==>
                  && Known(c, r.s, r.p) && x in r.s.blocks
                  && var y := At(c, r.s, r.p);
                  && var k := Min(n, Cap(c, x.bucket));
                  && k <= Cap(c, y.bucket) && x in r.s.data && y in r.s.data
                  && k <= |r.s.data[x]| && k <= |r.s.data[y]|
                  && Move(c, s, x, n, os.grow) == Reply(Poke(r.s, y, 0, r.s.data[x][..k]), r.p))
  {
    PrimePhase(c, s, os.align);
    MallocReadyLaws(c, s, n, os.grow);
    hide MallocReady, Shape, Geometry, Partition, Counts, Cap, Choose, Prime, Word;
  }

  lemma AfterPush(c: Machine, s: Ledger, x: Block)
    requires Ok(c, s) && s.phase == Ready && x in s.live
    ensures x.bucket < |s.free| && Push(s, x).phase == Ready && x in Push(s, x).blocks
    ensures Known(c, Push(s, x), x.addr + c.h) && At(c, Push(s, x), x.addr + c.h) == x
  {
    PushOk(c, s, x);
    AtUnique(c, Push(s, x), x);
  }

  lemma InBucket(c: Machine, s: Ledger, x: Block)
    requires Ok(c, s) && x in s.blocks
    ensures x.bucket < 28 && |s.free| == NBUCKETS
  {
    assert Aligned(c, x);
  }

  // A search that finds a free block finds its bucket, since no other block has its address.
  lemma FoundBucket(c: Machine, s: Ledger, x: Block, r: int, limit: int)
    requires Ok(c, s) && x in s.blocks && -1 <= r < NBUCKETS == |s.free| && x.bucket < NBUCKETS
    requires r >= 0 ==> Within(s.free[r], x.addr, limit)
    requires forall b :: 0 <= b < (if r >= 0 then r else NBUCKETS) ==> !Within(s.free[b], x.addr, limit)
    ensures r == if Within(s.free[x.bucket], x.addr, limit) then x.bucket else -1
  {
    hide Shape, Contents, Counts;
    if r >= 0 {
      var k :| 0 <= k < |s.free[r]| && s.free[r][k].addr == x.addr;
      assert ListOk(s, r) && s.free[r][k] in s.free[r];
      SameAddress(c, s, x, s.free[r][k]);
    }
  }

  // The first list that has the address within the limit, told by rank.
  lemma FoundByRank(c: Machine, s: Ledger, r: int, a: nat, limit: int)
    requires Ok(c, s) && -1 <= r < |s.free|
    requires r >= 0 ==> Within(s.free[r], a, limit)
    requires forall b :: 0 <= b < (if r >= 0 then r else |s.free|) ==> !Within(s.free[b], a, limit)
    ensures forall b: nat, k: nat :: b < |s.free| && k < |s.free[b]| && s.free[b][k].addr == a ==>
              r == if limit < 0 || k < limit then b else -1
    ensures r >= 0 ==> exists k :: 0 <= k < |s.free[r]| && s.free[r][k].addr == a
  {
    hide Ok;
    forall b: nat, k: nat | b < |s.free| && k < |s.free[b]| && s.free[b][k].addr == a
      ensures r == if limit < 0 || k < limit then b else -1
    {
      WithinRank(c, s, b, k, limit);
    }
  }

  lemma ReachedByRank(c: Machine, s: Ledger, x: Block, limit: int)
    requires Ok(c, s) && x.bucket < |s.free|
    ensures forall b: nat, k: nat :: b < |s.free| && k < |s.free[b]| && s.free[b][k] == x ==>
              x.bucket == b && x !in s.live && (Findable(s, x, limit) <==> k == 0 || limit < 0 || k < limit)
  {
    hide Ok, Findable;
    forall b: nat, k: nat | b < |s.free| && k < |s.free[b]| && s.free[b][k] == x
      ensures x.bucket == b && x !in s.live && (Findable(s, x, limit) <==> k == 0 || limit < 0 || k < limit)
    {
      FindableRank(c, s, b, k, limit);
    }
  }

  lemma PayloadBytes(c: Machine, mem: seq<byte>, nextf: seq<nat>, s: Ledger, x: Block, k: nat)
    requires Ok(c, s) && Coupled(c, mem, nextf, s) && x in s.blocks && k <= Cap(c, x.bucket)
    ensures x.addr + c.h + k <= |mem| && x in s.data && |s.data[x]| == Cap(c, x.bucket)
    ensures mem[x.addr + c.h..x.addr + c.h + k] == s.data[x][..k]
  {
    assert Holds(c, mem, s, x);
    hide Phys, Geometry, Chains;
    var lo, hi := x.addr + c.h, x.addr + Phys(c, x.bucket);
    assert mem[lo..hi][..k] == mem[lo..lo + k];
  }

  // The payloads of two blocks have no common byte.
  lemma CopyApart(c: Machine, s: Ledger, x: Block, y: Block, k: nat)
    requires Ok(c, s) && x in s.blocks && y in s.blocks && x != y
    requires k <= Cap(c, x.bucket) && k <= Cap(c, y.bucket)
    ensures x.addr + k + c.h <= y.addr + c.h || y.addr + k + c.h <= x.addr + c.h
  {
    TilesApart(c, s.blocks, s.base, s.brk, x, y);
  }

  // A known block makes the allocator ready; the magic number tells its state.
  lemma KnownReady(c: Machine, mem: seq<byte>, nextf: seq<nat>, s: Ledger, x: Block)
    requires Ok(c, s) && s.phase != Dead && Coupled(c, mem, nextf, s) && x in s.blocks
    ensures s.phase == Ready && x.addr + c.h <= |mem|
    ensures mem[x.addr] == MAGIC <==> x in s.live
    ensures x in s.live ==> mem[x.addr + 1] == x.bucket
  {
    MagicDecisive(c, mem, nextf, s, x);
  }

  lemma DeadImage(c: Machine, mem: seq<byte>, nextf: seq<nat>, nmalloc: seq<nat>,
                  pagesz: nat, pagebucket: nat, s: Ledger)
    requires Image(c, mem, nextf, nmalloc, pagesz, pagebucket, s)
    ensures Image(c, mem, nextf, nmalloc, pagesz, pagebucket, s.(phase := Dead))
  {
    hide Geometry, Coupled;
    DeadOk(c, s);
  }

  // The list that serves nbytes is not empty.
  ghost predicate InStock(c: Machine, s: Ledger, nbytes: nat) {
    Choose(c, nbytes).Some? && Choose(c, nbytes).value < |s.free| && s.free[Choose(c, nbytes).value] != []
  }

  lemma StockedCases(c: Machine, s: Ledger, b: nat, grant: bool)
    requires b < |s.free|
    ensures s.free[b] != [] ==> Stocked(c, s, b, grant) == s
    ensures s.free[b] == [] ==> Stocked(c, s, b, grant) == Grow(c, s, b, grant)
    ensures Stocked(c, s, b, grant).phase == s.phase
  {
  }

  lemma GrowCases(c: Machine, mem: seq<byte>, nextf: seq<nat>, nmalloc: seq<nat>,
                  pagesz: nat, pagebucket: nat, s: Ledger, b: nat, grant: bool)
    requires Image(c, mem, nextf, nmalloc, pagesz, pagebucket, s) && s.phase == Ready
    requires b < |s.free| && s.free[b] == []
    ensures pagesz == Page(c) && pagebucket == c.pb && |mem| == s.brk && b < |nextf|
    ensures !CanGrow(c, s, b, grant) ==> Grow(c, s, b, grant) == s
    ensures Phys(c, b) >= c.h && PerGrow(c, b) * Phys(c, b) == Grab(c, b)
    ensures CanGrow(c, s, b, grant) ==>
              Image(c, LinkUp(c, mem + Zeros(Grab(c, b)), s.brk, Phys(c, b), PerGrow(c, b)), nextf[b := s.brk],
                    nmalloc, Page(c), c.pb, Grow(c, s, b, grant))
  {
    hide Ok, Page, Phys, Grab, PerGrow, LinkUp, CanGrow;
    SameLength(c, mem, nextf, s);
    AtLeastHeader(c, b);
    GrabIs(c, b);
    if CanGrow(c, s, b, grant) {
      GrowImage(c, mem, nextf, nmalloc, s, b, grant);
    }
  }

  // A block of a page or more is carved alone, so its spare page does not
  // matter to the loop.
  lemma LinkStride(c: Machine, mem: seq<byte>, op: nat, b: nat)
    ensures Phys(c, b) >= c.h && Size(b) >= c.h
    ensures LinkUp(c, mem, op, Size(b), PerGrow(c, b)) == LinkUp(c, mem, op, Phys(c, b), PerGrow(c, b))
    ensures EndOf(op, Size(b), PerGrow(c, b)) <= op + Grab(c, b)
  {
    GrabIs(c, b);
  }

  // The sizes in morecore, in the code's own arithmetic.
  lemma IntSize(c: Machine, b: nat)
    requires b <= LAST
    ensures 0 < Size(b) <= 0x8000_0000 && (b < LAST <==> Size(b) < 0x8000_0000)
    ensures Size(b) < Page(c) ==> Grab(c, b) == Page(c) && PerGrow(c, b) == Page(c) / Size(b)
    ensures Size(b) >= Page(c) ==> Grab(c, b) == Size(b) + Page(c) && PerGrow(c, b) == 1
  {
    SizeFits(c, b);
    SizeBelowPage(c, b);
    GrabIs(c, b);
  }
}
