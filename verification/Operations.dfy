// The five entry points on ledgers, with pointers as their callers hold them,
// and the laws of a single call.

module Operations {
  import opened Arithmetic
  import opened SizeClasses
  import opened Memory
  import opened Ledgers

  // p is the payload address of a carved block, live or free.
  ghost predicate Known(c: Machine, s: Ledger, p: nat) {
    exists x :: x in s.blocks && x.addr + c.h == p
  }

  ghost function At(c: Machine, s: Ledger, p: nat): (x: Block)
    requires Known(c, s, p)
    ensures x in s.blocks && x.addr + c.h == p
  {
    var x :| x in s.blocks && x.addr + c.h == p; x
  }

  // Two blocks never share an address.
  lemma AtUnique(c: Machine, s: Ledger, x: Block)
    requires Geometry(c, s) && x in s.blocks
    ensures Known(c, s, x.addr + c.h) && At(c, s, x.addr + c.h) == x
  {
    var y := At(c, s, x.addr + c.h);
    if x != y {
      TilesApart(c, s.blocks, s.base, s.brk, x, y);
    }
  }

  // ---------------------------------------------------------------- kmalloc

  // The ledger that kmalloc pops from.
  function Stocked(c: Machine, s: Ledger, b: nat, grant: bool): Ledger
    requires b < |s.free|
  {
    if s.free[b] == [] then Grow(c, s, b, grant) else s
  }

  function MallocReady(c: Machine, s: Ledger, n: nat, grant: bool): Reply
    requires Shape(s)
  {
    match Choose(c, n)
    case None => Reply(s, 0)
    case Some(b) =>
      var g := Stocked(c, s, b, grant);
      if g.free[b] == [] then Reply(g, 0) else Reply(Pop(g, b), g.free[b][0].addr + c.h)
  }

  function Malloc(c: Machine, s: Ledger, n: nat, os: Os): Reply
    requires Shape(s)
  {
    var t := Prime(c, s, os.align);
    if t.phase == Dead then Reply(t, 0) else MallocReady(c, t, n, os.grow)
  }

  // ---------------------------------------------------------------- kcalloc

  // The product wraps, and the wrapped product is what is allocated and cleared.
  ghost function Calloc(c: Machine, s: Ledger, nelem: nat, elsize: nat, os: Os): Reply
    requires Ok(c, s) && s.phase != Dead
  {
    Cleared(c, s, (nelem * elsize) % Word(c), os)
  }

  ghost function Cleared(c: Machine, s: Ledger, n: nat, os: Os): Reply
    requires Ok(c, s) && s.phase != Dead
  {
    var r := Malloc(c, s, n, os);
    MallocLaws(c, s, n, os);
    if r.p == 0 then Reply(r.s.(phase := Dead), 0)
    else Reply(Poke(r.s, At(c, r.s, r.p), 0, Zeros(n)), r.p)
  }

  // ---------------------------------------------------------------- kfree

  ghost function Free(c: Machine, s: Ledger, p: nat): Ledger
    requires Ok(c, s) && (p != 0 ==> Known(c, s, p))
  {
    if p == 0 then s
    else
      var x := At(c, s, p);
      if x in s.live then Push(s, x) else s
  }

  // ---------------------------------------------------------------- krealloc

  // The block at address a is among the first `limit` entries of list q; a
  // negative limit stands for the whole list.
  predicate Within(q: seq<Block>, a: nat, limit: int) {
    exists k :: 0 <= k < |q| && (limit < 0 || k < limit) && q[k].addr == a
  }

  // The two passes of krealloc over the free lists find the block.
  predicate Findable(s: Ledger, x: Block, limit: int)
    requires x.bucket < |s.free|
  {
    Within(s.free[x.bucket], x.addr, 1) || Within(s.free[x.bucket], x.addr, limit)
  }

  // The first n bytes of x, as far as x holds them, copied to the start of y.
  function CopyData(c: Machine, s: Ledger, x: Block, y: Block, n: nat): Ledger
    requires x in s.data && |s.data[x]| == Cap(c, x.bucket)
    requires y in s.data && n <= |s.data[y]|
  {
    Poke(s, y, 0, s.data[x][..Min(n, Cap(c, x.bucket))])
  }

  // Allocate, then copy from x unless x itself came back.
  ghost function Move(c: Machine, s: Ledger, x: Block, n: nat, grant: bool): Reply
    requires Ok(c, s) && s.phase == Ready && x in s.blocks
  {
    var r := MallocReady(c, s, n, grant);
    MallocReadyLaws(c, s, n, grant);
    if r.p == 0 || r.p == x.addr + c.h then r
    else Reply(CopyData(c, r.s, x, At(c, r.s, r.p), n), r.p)
  }

  // A freed block that neither pass finds leaves the code with a bucket number
  // that it cannot shift by.
  ghost function Realloc(c: Machine, s: Ledger, p: nat, n: nat, os: Os, limit: int): Reply
    requires Ok(c, s) && s.phase != Dead && (p != 0 ==> Known(c, s, p))
  {
    if p == 0 then Malloc(c, s, n, os)
    else if n == 0 then Reply(Free(c, s, p), 0)
    else
      var x := At(c, s, p);
      if x !in s.live then
        if Findable(s, x, limit) then Move(c, s, x, n, os.grow) else Reply(s.(phase := Dead), 0)
      else if Choose(c, n) == Some(x.bucket) then Reply(s, p)
      else
        PushOk(c, s, x);
        Move(c, Push(s, x), x, n, os.grow)
  }

  // ---------------------------------------------------------------- laws of kmalloc

  // What a successful allocation from a primed ledger does.
  ghost predicate Allocated(c: Machine, s: Ledger, n: nat, t: Ledger, x: Block) {
    && x in t.blocks && x !in s.live && x in t.live
    && Choose(c, n) == Some(x.bucket)
    && t.live == s.live + {x}
    && s.blocks <= t.blocks
    && (forall y :: y in s.blocks ==> y in s.data && y in t.data && t.data[y] == s.data[y])
  }

  lemma GrowLaws(c: Machine, s: Ledger, b: nat, grant: bool)
    requires Ok(c, s) && b < |s.free| && s.free[b] == []
    ensures var g := Grow(c, s, b, grant);
            && g.live == s.live && s.blocks <= g.blocks
            && (g.free[b] == [] <==> !CanGrow(c, s, b, grant)) && (g.free[b] == [] ==> g == s)
            && forall y :: y in s.blocks ==> y in g.data && g.data[y] == s.data[y]
  {
    hide Phys, Page, PerGrow, Carve, Tiles, Aligned, Count, Cap, Word, Grab;
    if CanGrow(c, s, b, grant) {
      var q := Carve(c, b, s.brk, PerGrow(c, b));
      CarveTiles(c, b, s.brk, PerGrow(c, b));
      NewBlocks(c, s, q);
    }
  }

  lemma StockedLaws(c: Machine, s: Ledger, b: nat, grant: bool)
    requires Ok(c, s) && s.phase == Ready && b < |s.free|
    ensures var g := Stocked(c, s, b, grant);
            && Ok(c, g) && g.live == s.live && s.blocks <= g.blocks && g.phase == Ready
            && (g.free[b] == [] <==> s.free[b] == [] && !CanGrow(c, s, b, grant))
            && (g.free[b] == [] ==> g == s)
            && forall y :: y in s.blocks ==> y in s.data && y in g.data && g.data[y] == s.data[y]
  {
    hide Geometry, Partition, Counts, Cap, Grow, CanGrow;
    if s.free[b] == [] {
      GrowOk(c, s, b, grant);
      GrowLaws(c, s, b, grant);
      GrowPhase(c, s, b, grant);
    }
  }

  lemma GrowPhase(c: Machine, s: Ledger, b: nat, grant: bool)
    requires b < |s.free|
    ensures Grow(c, s, b, grant).phase == s.phase
  {
  }

  lemma MallocReadyLaws(c: Machine, s: Ledger, n: nat, grant: bool)
    requires Ok(c, s) && s.phase == Ready
    ensures var r := MallocReady(c, s, n, grant);
            && Ok(c, r.s) && r.s.phase == Ready
            && (r.p == 0 ==> r.s == s)
            && (r.p != 0 ==> Known(c, r.s, r.p) && Allocated(c, s, n, r.s, At(c, r.s, r.p))
                             && n <= Cap(c, At(c, r.s, r.p).bucket))
  {
    hide Geometry, Partition, Contents, Counts, Choose, MallocReady, Stocked, Allocated, Pop, Known, Cap;
    MallocReadyCases(c, s, n, grant);
    if Choose(c, n).Some? {
      var b := Choose(c, n).value;
      StockedLaws(c, s, b, grant);
      ChooseLeast(c, n, b);
      var g := Stocked(c, s, b, grant);
      if g.free[b] != [] {
        PopLaws(c, g, b);
        AllocatedAfter(c, s, n, g, b);
      }
    }
  }

  lemma MallocReadyCases(c: Machine, s: Ledger, n: nat, grant: bool)
    requires Shape(s)
    ensures var r := MallocReady(c, s, n, grant);
            match Choose(c, n)
            case None => r == Reply(s, 0)
            case Some(b) =>
              b < |s.free| &&
              var g := Stocked(c, s, b, grant);
              b < |g.free| && if g.free[b] == [] then r == Reply(g, 0)
                              else r == Reply(Pop(g, b), g.free[b][0].addr + c.h)
  {
    hide Choose;
  }

  lemma PopLaws(c: Machine, g: Ledger, b: nat)
    requires Ok(c, g) && g.phase == Ready && b < |g.free| && g.free[b] != []
    ensures var x := g.free[b][0]; var t := Pop(g, b);
            && Ok(c, t) && t.phase == Ready
            && x in g.blocks && x !in g.live && x.bucket == b
            && Known(c, t, x.addr + c.h) && At(c, t, x.addr + c.h) == x
            && t.live == g.live + {x} && t.blocks == g.blocks && t.data == g.data
  {
    PopOk(c, g, b);
    hide Geometry, Counts, Contents, Cap;
    Listed(g, b);
    assert Pop(g, b).blocks == g.blocks;
    AtUnique(c, Pop(g, b), g.free[b][0]);
  }

  lemma AllocatedAfter(c: Machine, s: Ledger, n: nat, g: Ledger, b: nat)
    requires b < |g.free| && g.free[b] != []
    requires Choose(c, n) == Some(b) && g.live == s.live && s.blocks <= g.blocks
    requires forall y :: y in s.blocks ==> y in s.data && y in g.data && g.data[y] == s.data[y]
    requires var x := g.free[b][0]; x in g.blocks && x !in g.live && x.bucket == b
    ensures Allocated(c, s, n, Pop(g, b), g.free[b][0])
  {
    hide Choose;
  }

  lemma Listed(s: Ledger, b: nat)
    requires Partition(s) && b < |s.free| && s.free[b] != []
    ensures var x := s.free[b][0]; x in s.blocks && x !in s.live && x.bucket == b
  {
    assert ListOk(s, b);
  }

  lemma MallocLaws(c: Machine, s: Ledger, n: nat, os: Os)
    requires Ok(c, s) && s.phase != Dead
    ensures var r := Malloc(c, s, n, os);
            && Ok(c, r.s)
            && (r.p == 0 ==> r.s == Prime(c, s, os.align))
            && (r.p != 0 ==> r.s.phase == Ready && Known(c, r.s, r.p)
                             && Allocated(c, s, n, r.s, At(c, r.s, r.p))
                             && n <= Cap(c, At(c, r.s, r.p).bucket)
                             && At(c, r.s, r.p) in r.s.data
                             && |r.s.data[At(c, r.s, r.p)]| == Cap(c, At(c, r.s, r.p).bucket))
  {
    PrimeOk(c, s, os.align);
    var t := Prime(c, s, os.align);
    if t.phase == Ready {
      MallocReadyLaws(c, t, n, os.grow);
    }
    PrimePhase(c, s, os.align);
  }

  lemma PrimePhase(c: Machine, s: Ledger, grant: bool)
    requires s.phase != Dead
    ensures Prime(c, s, grant).phase != Fresh
    ensures s.phase == Ready ==> Prime(c, s, grant) == s
    ensures var t := Prime(c, s, grant);
            t.live == s.live && t.blocks == s.blocks && t.data == s.data && t.free == s.free
  {
  }

  // ---------------------------------------------------------------- laws of the other calls

  // kfree of a live block hands it to the head of its list; kfree of a free
  // block changes nothing.
  lemma FreeLaws(c: Machine, s: Ledger, p: nat)
    requires Ok(c, s) && p != 0 && Known(c, s, p)
    ensures var x := At(c, s, p); var t := Free(c, s, p);
            && Ok(c, t) && t.phase == s.phase && t.blocks == s.blocks && t.data == s.data
            && t.live == s.live - {x}
            && x.bucket < |t.free| && |t.free| == |s.free| && x in t.free[x.bucket]
            && (x in s.live ==> t.free == s.free[x.bucket := [x] + s.free[x.bucket]])
            && (x !in s.live ==> t == s)
  {
    var x := At(c, s, p);
    if x in s.live {
      PushOk(c, s, x);
    }
    hide Geometry, Contents, Counts;
  }

  lemma MoveLaws(c: Machine, s: Ledger, x: Block, n: nat, grant: bool)
    requires Ok(c, s) && s.phase == Ready && x in s.blocks
    ensures var r := Move(c, s, x, n, grant);
            && Ok(c, r.s) && r.s.phase == Ready
            && (r.p == 0 ==> r.s == s)
            && (r.p != 0 ==>
                  && Known(c, r.s, r.p)
                  && var y := At(c, r.s, r.p);
                  && y in r.s.blocks && y !in s.live && r.s.live == s.live + {y}
                  && s.blocks <= r.s.blocks
                  && Choose(c, n) == Some(y.bucket) && n <= Cap(c, y.bucket)
                  && MovedData(c, s, r.s, x, y, n))
  {
    hide Geometry, Partition, Counts, Choose, MallocReady, Cap;
    var r := MallocReady(c, s, n, grant);
    MallocReadyLaws(c, s, n, grant);
    if r.p != 0 && r.p != x.addr + c.h {
      var y := At(c, r.s, r.p);
      var t := CopyData(c, r.s, x, y, n);
      PokeOk(c, r.s, y, 0, r.s.data[x][..Min(n, Cap(c, x.bucket))]);
      assert t.blocks == r.s.blocks;
      AtUnique(c, t, y);
    } else if r.p != 0 {
      SameAddress(c, r.s, x, At(c, r.s, r.p));
    }
  }

  lemma SameAddress(c: Machine, s: Ledger, x: Block, y: Block)
    requires Geometry(c, s) && x in s.blocks && y in s.blocks && x.addr == y.addr
    ensures x == y
  {
    AtUnique(c, s, x);
    AtUnique(c, s, y);
  }

  // From s to t, y received the first min(n, capacity) bytes of x, and no other
  // block of s changed a byte, nor did y behind those bytes.
  ghost predicate MovedData(c: Machine, s: Ledger, t: Ledger, x: Block, y: Block, n: nat) {
    && (forall z :: z in s.blocks && z != y ==> z in s.data && z in t.data && t.data[z] == s.data[z])
    && x in s.data && y in t.data
    && var k := Min(n, Cap(c, x.bucket));
    && k <= |s.data[x]| && k <= |t.data[y]|
    && t.data[y][..k] == s.data[x][..k]
    && (y in s.blocks ==> y in s.data && |s.data[y]| == |t.data[y]| && t.data[y][k..] == s.data[y][k..])
  }

  // ---------------------------------------------------------------- ranks on a list

  // Entries of free lists with the same address are the same entry.
  lemma ListedApart(c: Machine, s: Ledger, b: nat, k: nat, b': nat, k': nat)
    requires Ok(c, s) && b < |s.free| && k < |s.free[b]| && b' < |s.free| && k' < |s.free[b']|
    requires s.free[b][k].addr == s.free[b'][k'].addr
    ensures b == b' && k == k'
  {
    var x, y := s.free[b][k], s.free[b'][k'];
    hide Contents, Counts, Shape;
    assert ListOk(s, b) && ListOk(s, b') && x in s.free[b] && y in s.free[b'];
    SameAddress(c, s, x, y);
  }

  // Looking at `limit` entries of a list finds exactly those of a rank below
  // `limit`, and a negative limit finds them all.
  lemma WithinRank(c: Machine, s: Ledger, b: nat, k: nat, limit: int)
    requires Ok(c, s) && b < |s.free| && k < |s.free[b]|
    ensures Within(s.free[b], s.free[b][k].addr, limit) <==> limit < 0 || k < limit
    ensures forall b': nat :: b' < |s.free| && b' != b ==> !Within(s.free[b'], s.free[b][k].addr, limit)
  {
    var a := s.free[b][k].addr;
    hide Ok;
    forall b': nat, k': nat | b' < |s.free| && k' < |s.free[b']| && s.free[b'][k'].addr == a
      ensures b' == b && k' == k
    {
      ListedApart(c, s, b, k, b', k');
    }
  }

  // krealloc's two searches reach the head of a list always, and the block of
  // rank k when the second search looks at more than k entries.
  lemma FindableRank(c: Machine, s: Ledger, b: nat, k: nat, limit: int)
    requires Ok(c, s) && b < |s.free| && k < |s.free[b]|
    ensures s.free[b][k].bucket == b && s.free[b][k] in s.blocks && s.free[b][k] !in s.live
    ensures Findable(s, s.free[b][k], limit) <==> k == 0 || limit < 0 || k < limit
  {
    WithinRank(c, s, b, k, 1);
    WithinRank(c, s, b, k, limit);
    hide Geometry, Contents, Counts, Shape, Within;
    assert ListOk(s, b) && s.free[b][k] in s.free[b];
  }
}
