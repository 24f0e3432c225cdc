// What one call promises its caller, whatever came before it.

module Laws {
  import opened Arithmetic
  import opened SizeClasses
  import opened Memory
  import opened Ledgers
  import opened Operations

  // ---------------------------------------------------------------- kmalloc

  // What one call of morecore asks the system for, in the code's own terms.
  function Lot(c: Machine, b: nat): nat {
    if Size(b) < Page(c) then Page(c) else Size(b) + Page(c)
  }

  // The size of a block of bucket b is positive as an int, and the system has
  // the bytes and gives them.
  predicate Obtainable(c: Machine, s: Ledger, b: nat, grant: bool) {
    b < 28 && grant && s.brk + Lot(c, b) <= Word(c)
  }

  // What leaves a request unserved: no bucket fits, or its list is empty and
  // the system gives nothing.
  predicate Unserved(c: Machine, s: Ledger, n: nat, grant: bool) {
    match Choose(c, n)
    case None => true
    case Some(b) => b < |s.free| && s.free[b] == [] && !Obtainable(c, s, b, grant)
  }

  lemma GrowsWhenObtainable(c: Machine, s: Ledger, b: nat, grant: bool)
    ensures CanGrow(c, s, b, grant) <==> Obtainable(c, s, b, grant)
    ensures Lot(c, b) == Grab(c, b)
  {
    SizeBelowPage(c, b);
  }

  // The first call of all needs the break moved, and the system refuses.
  predicate FirstRefused(c: Machine, s: Ledger, grant: bool) {
    s.phase == Fresh && Pad(c, s.brk) > 0 && (!grant || s.brk + Pad(c, s.brk) > Word(c))
  }

  // The first call moves the break to the next address that is a header short
  // of a page boundary, and nothing else; or it is refused, and moves nothing.
  lemma PrimeLaws(c: Machine, s: Ledger, grant: bool)
    requires s.phase == Fresh
    ensures var t := Prime(c, s, grant);
            if FirstRefused(c, s, grant) then t == s.(phase := Dead)
            else
              && t == s.(phase := Ready, base := t.brk, brk := t.brk)
              && s.brk <= t.brk < s.brk + Page(c) && (t.brk + c.h) % Page(c) == 0
  {
    PadAligns(c, s.brk);
    PageBits(c);
    hide ZeroBits, Page, Pow2, Pad, Word;
    ZeroBitsMod(s.brk + Pad(c, s.brk) + c.h, c.pb + 3);
  }

  // A primed kmalloc fails exactly when the request is unserved, and then
  // nothing has changed.
  lemma MallocReadyFails(c: Machine, s: Ledger, n: nat, grant: bool)
    requires Ok(c, s) && s.phase == Ready
    ensures MallocReady(c, s, n, grant).p == 0 <==> Unserved(c, s, n, grant)
    ensures MallocReady(c, s, n, grant).p == 0 ==> MallocReady(c, s, n, grant).s == s
  {
    ShapeOf(c, s);
    hide Ok, Shape, MallocReady, Stocked, Choose, CanGrow, Obtainable, Pop, Allocated;
    MallocReadyCases(c, s, n, grant);
    MallocReadyLaws(c, s, n, grant);
    if Choose(c, n).Some? {
      StockedLaws(c, s, Choose(c, n).value, grant);
      GrowsWhenObtainable(c, s, Choose(c, n).value, grant);
    }
  }

  // k blocks of bucket b side by side from address a on.
  predicate Row(q: seq<Block>, a: nat, b: nat, k: nat) {
    |q| == k && forall i :: 0 <= i < k ==> q[i] == Block(a + i * Size(b), b)
  }

  lemma {:induction false} CarveRow(c: Machine, b: nat, a: nat, k: nat)
    requires b < c.pb || k <= 1
    ensures Row(Carve(c, b, a, k), a, b, k)
    decreases k
  {
    if k > 0 {
      CarveRow(c, b, a + Phys(c, b), k - 1);
      hide Size;
      forall i | 0 <= i < k ensures Carve(c, b, a, k)[i] == Block(a + i * Size(b), b) {
        if i > 0 {
          Distribute(i - 1, 1, Size(b));
        }
      }
    }
  }

  // How many blocks a lot has.
  function Yield(c: Machine, b: nat): nat {
    if Size(b) < Page(c) then Page(c) / Size(b) else 1
  }

  // The head of list b is handed out, and all else is as it was.
  ghost predicate HeadTaken(c: Machine, s: Ledger, r: Reply, b: nat)
    requires b < |s.free| && s.free[b] != []
  {
    var x, t := s.free[b][0], r.s;
    && r.p == x.addr + c.h && t.live == s.live + {x} && t.free == s.free[b := s.free[b][1..]]
    && t.brk == s.brk && t.base == s.base && t.blocks == s.blocks && t.data == s.data && t.phase == s.phase
  }

  // From s to t, one lot of blocks of bucket b was carved at the break, in the
  // order of their addresses, and all are zero.
  ghost predicate LotCarved(c: Machine, s: Ledger, t: Ledger, b: nat) {
    && t.brk == s.brk + Lot(c, b) && t.base == s.base && t.phase == s.phase
    && s.blocks <= t.blocks && Row(t.blocks[|s.blocks|..], s.brk, b, Yield(c, b))
    && (forall x :: x in t.blocks[|s.blocks|..] ==> x in t.data && t.data[x] == Zeros(Cap(c, b)))
    && (forall x :: x in s.blocks ==> x in s.data && x in t.data && t.data[x] == s.data[x])
  }

  // The first block of a new lot is handed out, and the others are the list.
  ghost predicate LotServed(c: Machine, s: Ledger, r: Reply, b: nat)
    requires b < |s.free|
  {
    var t := r.s;
    && LotCarved(c, s, t, b) && |t.blocks| > |s.blocks|
    && r.p == s.brk + c.h && t.live == s.live + {t.blocks[|s.blocks|]}
    && t.free == s.free[b := t.blocks[|s.blocks| + 1..]]
  }

  // What a primed kmalloc does, in full. It takes the head of the list that
  // serves the request. If that list is empty, it asks the system for one lot: a
  // page of blocks below the page bucket, one block with a spare page otherwise.
  // If the system gives nothing, NULL is the answer and nothing has changed.
  lemma MallocServes(c: Machine, s: Ledger, n: nat, grant: bool, b: nat)
    requires Ok(c, s) && s.phase == Ready && Choose(c, n) == Some(b)
    ensures b < |s.free|
    ensures var r := MallocReady(c, s, n, grant);
            if s.free[b] != [] then HeadTaken(c, s, r, b)
            else if Obtainable(c, s, b, grant) then LotServed(c, s, r, b)
            else r == Reply(s, 0)
  {
    ShapeOf(c, s);
    MallocReadyCases(c, s, n, grant);
    if s.free[b] == [] {
      GrowsWhenObtainable(c, s, b, grant);
      StockedLaws(c, s, b, grant);
      if CanGrow(c, s, b, grant) {
        hide Ok, Choose, MallocReady, Lot, Zeros, Cap, Row, Obtainable, CanGrow, Grow, Yield, Size, Page;
        NewLot(c, s, b, grant);
        FirstOfLot(c, s, Grow(c, s, b, grant), b);
      }
    } else {
      hide Ok, Choose, MallocReady;
    }
  }

  lemma FirstOfLot(c: Machine, s: Ledger, g: Ledger, b: nat)
    requires b < |s.free| && LotCarved(c, s, g, b) && |g.blocks| > |s.blocks|
    requires g.live == s.live && g.free == s.free[b := g.blocks[|s.blocks|..]]
    ensures g.free[b] != [] && LotServed(c, s, Reply(Pop(g, b), g.free[b][0].addr + c.h), b)
  {
    hide Lot, Zeros, Cap, Yield, Size;
    assert Row(g.free[b], s.brk, b, Yield(c, b));
    assert g.free[b][0].addr == s.brk + 0 * Size(b);
    assert Pop(g, b).free == s.free[b := g.blocks[|s.blocks| + 1..]];
  }

  lemma NewLot(c: Machine, s: Ledger, b: nat, grant: bool)
    requires Ok(c, s) && s.phase == Ready && b < |s.free| && s.free[b] == [] && CanGrow(c, s, b, grant)
    ensures var g := Grow(c, s, b, grant);
            && LotCarved(c, s, g, b) && |g.blocks| > |s.blocks|
            && g.free == s.free[b := g.blocks[|s.blocks|..]] && g.live == s.live
  {
    hide *;
    LotIs(c, s, b, grant);
    GrowLaws(c, s, b, grant);
    DataOf(c, s);
    GrowFields(c, s, b, grant);
    var g := Grow(c, s, b, grant);
    assert g.blocks[|s.blocks|..] == Carve(c, b, s.brk, PerGrow(c, b));
    LotFrom(c, s, g, b);
  }

  lemma GrowFields(c: Machine, s: Ledger, b: nat, grant: bool)
    requires b < |s.free| && CanGrow(c, s, b, grant)
    ensures var g := Grow(c, s, b, grant); var q := Carve(c, b, s.brk, PerGrow(c, b));
            && g.brk == s.brk + Grab(c, b) && g.base == s.base && g.phase == s.phase && g.live == s.live
            && g.blocks == s.blocks + q && g.free == s.free[b := q]
            && forall x :: x in q ==> x in g.data && g.data[x] == Zeros(Cap(c, b))
  {
    hide CanGrow, Carve, PerGrow, Grab, Zeros, Cap;
  }

  lemma LotFrom(c: Machine, s: Ledger, t: Ledger, b: nat)
    requires t.brk == s.brk + Lot(c, b) && t.base == s.base && t.phase == s.phase
    requires s.blocks <= t.blocks && Row(t.blocks[|s.blocks|..], s.brk, b, Yield(c, b))
    requires forall x :: x in t.blocks[|s.blocks|..] ==> x in t.data && t.data[x] == Zeros(Cap(c, b))
    requires forall x :: x in s.blocks ==> x in s.data && x in t.data && t.data[x] == s.data[x]
    ensures LotCarved(c, s, t, b)
  {
  }

  lemma LotIs(c: Machine, s: Ledger, b: nat, grant: bool)
    ensures Lot(c, b) == Grab(c, b) && Yield(c, b) == PerGrow(c, b)
    ensures Row(Carve(c, b, s.brk, PerGrow(c, b)), s.brk, b, PerGrow(c, b))
  {
    GrabIs(c, b);
    SizeBelowPage(c, b);
    CarveRow(c, b, s.brk, PerGrow(c, b));
    GrowsWhenObtainable(c, s, b, grant);
    hide Row, Carve, Size, Page;
  }

  lemma DataOf(c: Machine, s: Ledger)
    requires Ok(c, s)
    ensures forall x :: x in s.blocks ==> x in s.data
  {
  }

  // When kmalloc returns NULL, first call or not, and what it leaves behind.
  lemma MallocFails(c: Machine, s: Ledger, n: nat, os: Os)
    requires Ok(c, s) && s.phase != Dead
    ensures var r := Malloc(c, s, n, os);
            && (r.p == 0 <==> FirstRefused(c, s, os.align) || Unserved(c, Prime(c, s, os.align), n, os.grow))
            && (r.p == 0 ==> r.s == Prime(c, s, os.align))
            && (r.s.phase == Dead <==> FirstRefused(c, s, os.align))
            && (!FirstRefused(c, s, os.align) ==>
                  Shape(Prime(c, s, os.align)) && r == MallocReady(c, Prime(c, s, os.align), n, os.grow))
  {
    PrimeOk(c, s, os.align);
    PrimePhase(c, s, os.align);
    ShapeOf(c, s);
    hide Ok, Shape, MallocReady, Unserved, Pad, Word, Choose, Allocated, Known, Cap;
    var t := Prime(c, s, os.align);
    ShapeOf(c, t);
    if t.phase == Ready {
      MallocReadyFails(c, t, n, os.grow);
      MallocReadyLaws(c, t, n, os.grow);
    }
  }

  // ---------------------------------------------------------------- kcalloc

  // kcalloc returns NULL, and clears through it, exactly when kmalloc fails on
  // the wrapped product.
  lemma CallocFails(c: Machine, s: Ledger, nelem: nat, elsize: nat, os: Os)
    requires Ok(c, s) && s.phase != Dead
    ensures var r := Calloc(c, s, nelem, elsize, os); var k := (nelem * elsize) % Word(c);
            && (r.p == 0 <==> FirstRefused(c, s, os.align) || Unserved(c, Prime(c, s, os.align), k, os.grow))
            && (r.p == 0 <==> r.s.phase == Dead)
  {
    var k := (nelem * elsize) % Word(c);
    ClearedFails(c, s, k, os);
  }

  lemma ClearedFails(c: Machine, s: Ledger, k: nat, os: Os)
    requires Ok(c, s) && s.phase != Dead
    ensures var r := Cleared(c, s, k, os);
            && (r.p == 0 <==> FirstRefused(c, s, os.align) || Unserved(c, Prime(c, s, os.align), k, os.grow))
            && (r.p == 0 <==> r.s.phase == Dead)
  {
    ShapeOf(c, s);
    MallocLaws(c, s, k, os);
    hide Ok, Shape, Malloc, Prime, Unserved, FirstRefused, Choose, Allocated, Known, Cap, Store;
    MallocFails(c, s, k, os);
  }

  // The square root of the number of addresses.
  function Root(c: Machine): nat { if c.h == 4 then 0x1_0000 else 0x1_0000_0000 }

  // A product that wraps does receive a block: with Root elements of Root bytes
  // the wrapped product is 0, so that the smallest block is handed out.
  lemma CallocWraps(c: Machine, s: Ledger, os: Os)
    requires Ok(c, s) && s.phase == Ready && s.free[0] != []
    ensures Root(c) < Word(c) && Root(c) * Root(c) == Word(c)
    ensures var r := Calloc(c, s, Root(c), Root(c), os);
            && r.p != 0 && Known(c, r.s, r.p) && At(c, r.s, r.p).bucket == 0
            && Cap(c, 0) < Root(c) * Root(c)
  {
    RootSquared(c);
    WrappedServed(c, s, os);
    hide *;
    CallocFails(c, s, Root(c), Root(c), os);
    CallocBucket(c, s, Root(c), Root(c), os);
    OfClassIs(c, Calloc(c, s, Root(c), Root(c), os), 0, 0);
  }

  lemma OfClassIs(c: Machine, r: Reply, k: nat, b: nat)
    requires OfClass(c, r, k) && Choose(c, k) == Some(b)
    ensures Known(c, r.s, r.p) && At(c, r.s, r.p).bucket == b
  {
  }

  lemma RootSquared(c: Machine)
    ensures Root(c) < Word(c) && Root(c) * Root(c) == Word(c)
    ensures (Root(c) * Root(c)) % Word(c) == 0 && Cap(c, 0) < Word(c)
  {
    SizeFits(c, 0);
  }

  lemma WrappedServed(c: Machine, s: Ledger, os: Os)
    requires Ok(c, s) && s.phase == Ready && s.free[0] != []
    ensures Choose(c, 0) == Some(0)
    ensures !FirstRefused(c, s, os.align) && !Unserved(c, Prime(c, s, os.align), 0, os.grow)
  {
    ChooseLeast(c, 0, 0);
    hide Ok, Choose;
  }

  // The reply hands out a block of the class of k bytes.
  ghost predicate OfClass(c: Machine, r: Reply, k: nat) {
    Known(c, r.s, r.p) && Choose(c, k) == Some(At(c, r.s, r.p).bucket)
  }

  lemma CallocBucket(c: Machine, s: Ledger, nelem: nat, elsize: nat, os: Os)
    requires Ok(c, s) && s.phase != Dead && Calloc(c, s, nelem, elsize, os).p != 0
    ensures OfClass(c, Calloc(c, s, nelem, elsize, os), (nelem * elsize) % Word(c))
  {
    ClearedBucket(c, s, (nelem * elsize) % Word(c), os);
  }

  lemma ClearedBucket(c: Machine, s: Ledger, k: nat, os: Os)
    requires Ok(c, s) && s.phase != Dead && Cleared(c, s, k, os).p != 0
    ensures OfClass(c, Cleared(c, s, k, os), k)
  {
    ShapeOf(c, s);
    hide *;
    ClearedCase(c, s, k, os);
    var m := Malloc(c, s, k, os);
    var y := At(c, m.s, m.p);
    AtPoked(c, m.s, y, k);
    OfBucket(c, Reply(Poke(m.s, y, 0, Zeros(k)), m.p), y, k);
  }

  lemma OfBucket(c: Machine, r: Reply, y: Block, k: nat)
    requires Known(c, r.s, r.p) && At(c, r.s, r.p) == y && Choose(c, k) == Some(y.bucket)
    ensures OfClass(c, r, k)
  {
  }

  lemma AtPoked(c: Machine, s: Ledger, x: Block, k: nat)
    requires Ok(c, s) && x in s.blocks && x in s.data && k <= |s.data[x]|
    ensures var t := Poke(s, x, 0, Zeros(k)); Known(c, t, x.addr + c.h) && At(c, t, x.addr + c.h) == x
  {
    AtUnique(c, s, x);
    var t := Poke(s, x, 0, Zeros(k));
    assert t.blocks == s.blocks;
    AtUnique(c, t, x);
  }

  lemma ClearedCase(c: Machine, s: Ledger, k: nat, os: Os)
    requires Ok(c, s) && Shape(s) && s.phase != Dead && Cleared(c, s, k, os).p != 0
    ensures var m := Malloc(c, s, k, os);
            && Ok(c, m.s) && Known(c, m.s, m.p)
            && var y := At(c, m.s, m.p);
            && y in m.s.blocks && y.addr + c.h == m.p && Choose(c, k) == Some(y.bucket)
            && k <= Cap(c, y.bucket) && y in m.s.data && k <= |m.s.data[y]|
            && Cleared(c, s, k, os) == Reply(Poke(m.s, y, 0, Zeros(k)), m.p)
  {
    hide Ok, Shape, Malloc, Choose, Known, Cap, Store;
    MallocLaws(c, s, k, os);
  }

  lemma ShapeOf(c: Machine, s: Ledger)
    requires Ok(c, s)
    ensures Shape(s) && |s.free| == NBUCKETS && s.free[28] == [] && s.free[29] == []
  {
  }

  // Nothing above the capacity of bucket 27 is ever served: lists 28 and 29
  // stay empty, and morecore refuses a size of 2^31.
  lemma HugeRequestsFail(c: Machine, s: Ledger, n: nat, grant: bool)
    requires Ok(c, s) && s.phase == Ready && Cap(c, 27) < n
    ensures MallocReady(c, s, n, grant) == Reply(s, 0)
  {
    TooBig(c, n);
    MallocReadyFails(c, s, n, grant);
    ShapeOf(c, s);
    hide Ok, Cap, MallocReady, Choose;
  }

  // A pointer to a block is a multiple of its block size, or of the page size
  // where that is less; the break stays a header short of a page boundary.
  lemma PointersAligned(c: Machine, s: Ledger, p: nat)
    requires Ok(c, s) && Known(c, s, p)
    ensures s.phase == Ready ==> (s.brk + c.h) % Page(c) == 0
    ensures p % Min(Size(At(c, s, p).bucket), Page(c)) == 0
  {
    hide ZeroBits, Pow2;
    var x := At(c, s, p);
    assert Aligned(c, x);
    BitsAreMin(c, x.bucket);
    ZeroBitsMod(p, Bits(c, x.bucket));
    PageBits(c);
    ZeroBitsMod(s.brk + c.h, c.pb + 3);
  }

  lemma BitsAreMin(c: Machine, b: nat)
    ensures Pow2(Bits(c, b)) == Min(Size(b), Page(c))
  {
    if b < c.pb { Pow2Mono(b, c.pb); } else { Pow2Mono(c.pb, b); }
    var k := if b < c.pb then b else c.pb;
    assert Pow2(k + 3) == 2 * Pow2(k + 2) && Pow2(k + 2) == 2 * Pow2(k + 1);
  }

  // ---------------------------------------------------------------- krealloc

  // A live block, resized. It stays where it is exactly when its size class is
  // kept. Otherwise it is freed first, and the contents come from the freed
  // block: they survive, because the new block is of another bucket.
  lemma ReallocLive(c: Machine, s: Ledger, p: nat, n: nat, os: Os, limit: int)
    requires Ok(c, s) && s.phase != Dead && p != 0 && n > 0
    requires Known(c, s, p) && At(c, s, p) in s.live
    ensures var r := Realloc(c, s, p, n, os, limit); var x := At(c, s, p);
            && Ok(c, r.s) && r.s.phase == Ready && s.blocks <= r.s.blocks
            && (x in r.s.live <==> Choose(c, n) == Some(x.bucket))
            && (x in r.s.live ==> r == Reply(s, p))
            && (x !in r.s.live ==> r.p != p && (r.p == 0 ==> r.s == Free(c, s, p)))
            && (r.p != 0 ==>
                  && Known(c, r.s, r.p)
                  && var y := At(c, r.s, r.p);
                  && r.s.live == s.live - {x} + {y} && n <= Cap(c, y.bucket)
                  && Choose(c, n) == Some(y.bucket)
                  && (y == x || (y !in s.live && y.bucket != x.bucket && Apart(c, x, y)))
                  && MovedData(c, s, r.s, x, y, n))
  {
    var x := At(c, s, p);
    ReadyOf(c, s, x);
    if Choose(c, n) == Some(x.bucket) {
      ChooseLeast(c, n, x.bucket);
      SameData(c, s, x, n);
    } else {
      PushOk(c, s, x);
      var u := Push(s, x);
      hide Ok, Push, Choose, Known, MovedData, Move, Cap;
      PushFields(s, x);
      MoveLaws(c, u, x, n, os.grow);
      var r := Move(c, u, x, n, os.grow);
      if r.p != 0 {
        var y := At(c, r.s, r.p);
        BlocksApart(c, r.s, x, y);
        MovedFrom(c, s, u, r.s, x, y, n);
      }
    }
  }

  // A live block that changes its class is replaced by what kmalloc hands out
  // once the block is free.
  lemma ReallocServes(c: Machine, s: Ledger, p: nat, n: nat, os: Os, limit: int)
    requires Ok(c, s) && s.phase != Dead && p != 0 && n > 0
    requires Known(c, s, p) && At(c, s, p) in s.live && Choose(c, n) != Some(At(c, s, p).bucket)
    ensures Ok(c, Free(c, s, p)) && Shape(Free(c, s, p))
    ensures var r := Realloc(c, s, p, n, os, limit); var m := MallocReady(c, Free(c, s, p), n, os.grow);
            r.p == m.p && r.s == m.s.(data := r.s.data)
  {
    var x := At(c, s, p);
    ReadyOf(c, s, x);
    PushOk(c, s, x);
    ShapeOf(c, Push(s, x));
    MoveServes(c, Push(s, x), x, n, os.grow);
    hide Ok, Shape, MallocReady, Choose, Known, Move;
  }

  lemma ReadyOf(c: Machine, s: Ledger, x: Block)
    requires Ok(c, s) && s.phase != Dead && x in s.blocks
    ensures s.phase == Ready
  {
  }

  lemma PushFields(s: Ledger, x: Block)
    requires x.bucket < |s.free|
    ensures var u := Push(s, x);
            u.blocks == s.blocks && u.data == s.data && u.live == s.live - {x} && u.phase == s.phase
  {
  }

  lemma SameData(c: Machine, s: Ledger, x: Block, n: nat)
    requires Ok(c, s) && x in s.blocks
    ensures MovedData(c, s, s, x, x, n)
  {
    hide Geometry, Partition, Counts;
  }

  lemma MovedFrom(c: Machine, s: Ledger, u: Ledger, t: Ledger, x: Block, y: Block, n: nat)
    requires u.blocks == s.blocks && u.data == s.data && MovedData(c, u, t, x, y, n)
    ensures MovedData(c, s, t, x, y, n)
  {
  }

  lemma BlocksApart(c: Machine, s: Ledger, x: Block, y: Block)
    requires Ok(c, s) && x in s.blocks && y in s.blocks
    ensures x == y || Apart(c, x, y)
  {
    if x != y {
      TilesApart(c, s.blocks, s.base, s.brk, x, y);
    }
  }

  // krealloc of a block that is already free, found by its search: the bytes
  // it still holds come along. The block itself comes back, with no copy,
  // exactly when it heads the list that the request is served from.
  lemma Compaction(c: Machine, s: Ledger, p: nat, n: nat, os: Os, limit: int)
    requires Ok(c, s) && s.phase != Dead && p != 0 && n > 0
    requires Known(c, s, p) && At(c, s, p) !in s.live
    requires At(c, s, p).bucket < |s.free| && Findable(s, At(c, s, p), limit)
    ensures var r := Realloc(c, s, p, n, os, limit); var x := At(c, s, p);
            && Ok(c, r.s) && r.s.phase == Ready && s.blocks <= r.s.blocks
            && (r.p == 0 ==> r.s == s)
            && x.bucket < |s.free| && s.free[x.bucket] != []
            && (r.p == p <==> Choose(c, n) == Some(x.bucket) && s.free[x.bucket][0] == x)
            && (r.p == p ==> r.s == Pop(s, x.bucket))
            && (r.p != 0 ==>
                  && Known(c, r.s, r.p)
                  && var y := At(c, r.s, r.p);
                  && y !in s.live && r.s.live == s.live + {y} && n <= Cap(c, y.bucket)
                  && Choose(c, n) == Some(y.bucket)
                  && (y == x <==> r.p == p) && (y == x || Apart(c, x, y))
                  && MovedData(c, s, r.s, x, y, n))
  {
    var x := At(c, s, p);
    ReadyOf(c, s, x);
    FreeListed(c, s, x);
    hide Ok, Push, Choose, Known, MovedData, Cap, MallocReady, CopyData, Allocated, Pop, Findable;
    MoveLaws(c, s, x, n, os.grow);
    SameBlockBack(c, s, x, n, os.grow);
    var r := Realloc(c, s, p, n, os, limit);
    if r.p != 0 {
      var y := At(c, r.s, r.p);
      BlocksApart(c, r.s, x, y);
      SamePointer(c, r.s, x, y);
    }
  }

  lemma SamePointer(c: Machine, s: Ledger, x: Block, y: Block)
    requires Ok(c, s) && x in s.blocks && y in s.blocks
    ensures x == y <==> x.addr + c.h == y.addr + c.h
  {
    if x.addr == y.addr { SameAddress(c, s, x, y); }
  }

  lemma FreeListed(c: Machine, s: Ledger, x: Block)
    requires Ok(c, s) && x in s.blocks && x !in s.live
    ensures x.bucket < |s.free| == NBUCKETS && x in s.free[x.bucket] && s.free[x.bucket] != []
  {
  }

  lemma SameBlockBack(c: Machine, s: Ledger, x: Block, n: nat, grant: bool)
    requires Ok(c, s) && s.phase == Ready && x in s.blocks && x !in s.live
    requires x.bucket < |s.free| == NBUCKETS && s.free[x.bucket] != []
    ensures var r := Move(c, s, x, n, grant);
            && (r.p == x.addr + c.h <==> Choose(c, n) == Some(x.bucket) && s.free[x.bucket][0] == x)
            && (r.p == x.addr + c.h ==> r.s == Pop(s, x.bucket))
  {
    ShapeOf(c, s);
    hide Ok, Shape, MallocReady, Choose, Known, Cap, CopyData, Allocated, Pop, Grow;
    MallocReadyCases(c, s, n, grant);
    MallocReadyLaws(c, s, n, grant);
    if Choose(c, n).Some? {
      var b := Choose(c, n).value;
      StockedLaws(c, s, b, grant);
      var g := Stocked(c, s, b, grant);
      if g.free[b] != [] {
        ListHead(c, g, b);
        SamePointer(c, g, x, g.free[b][0]);
      }
    }
  }

  lemma ListHead(c: Machine, s: Ledger, b: nat)
    requires Ok(c, s) && b < |s.free| && s.free[b] != []
    ensures s.free[b][0] in s.blocks && s.free[b][0].bucket == b
  {
    Listed(s, b);
  }

  lemma MoveFails(c: Machine, s: Ledger, x: Block, n: nat, grant: bool)
    requires Ok(c, s) && s.phase == Ready && x in s.blocks
    ensures Move(c, s, x, n, grant).p == 0 <==> Unserved(c, s, n, grant)
    ensures Move(c, s, x, n, grant).p == 0 ==> Move(c, s, x, n, grant).s == s
  {
    MallocReadyLaws(c, s, n, grant);
    hide Ok, MallocReady, Unserved, Choose, Known, Cap, Store, Allocated;
    MallocReadyFails(c, s, n, grant);
  }

  // When krealloc of a live block returns NULL. The C standard then promises
  // that the old object is not deallocated; the code has deallocated it each
  // time. The promise fails exactly when the request is of another class, and
  // either no bucket fits or its list is empty and the system gives nothing.
  lemma ReallocLoses(c: Machine, s: Ledger, p: nat, n: nat, os: Os, limit: int)
    requires Ok(c, s) && s.phase != Dead && p != 0 && n > 0
    requires Known(c, s, p) && At(c, s, p) in s.live
    ensures var r := Realloc(c, s, p, n, os, limit); var x := At(c, s, p);
            && |s.free| == NBUCKETS
            && (r.p == 0 <==>
                  match Choose(c, n)
                  case None => true
                  case Some(b) => b != x.bucket && s.free[b] == [] && !Obtainable(c, s, b, os.grow))
            && (r.p == 0 ==> r.s == Free(c, s, p) && x !in r.s.live)
  {
    var x := At(c, s, p);
    ReadyOf(c, s, x);
    ShapeOf(c, s);
    PushOk(c, s, x);
    ReallocLive(c, s, p, n, os, limit);
    if Choose(c, n) != Some(x.bucket) {
      MoveFails(c, Push(s, x), x, n, os.grow);
      hide Ok, Shape, Choose, Move, Known, MovedData, Cap;
    }
  }

  // It happens: a request above the capacity of bucket 27 costs the caller the
  // block, whatever the system would grant.
  lemma HugeReallocLoses(c: Machine, s: Ledger, p: nat, n: nat, os: Os, limit: int)
    requires Ok(c, s) && s.phase != Dead && p != 0 && Cap(c, 27) < n
    requires Known(c, s, p) && At(c, s, p) in s.live
    ensures Realloc(c, s, p, n, os, limit) == Reply(Free(c, s, p), 0)
    ensures At(c, s, p) !in Free(c, s, p).live
  {
    ShapeOf(c, s);
    hide *;
    TooBig(c, n);
    ReallocLoses(c, s, p, n, os, limit);
    TooHigh(c, s, n, os.grow);
    InClass(c, s, At(c, s, p));
    FreeLaws(c, s, p);
  }

  // Beyond bucket 27 there is neither a listed block nor room to carve one.
  lemma TooHigh(c: Machine, s: Ledger, n: nat, grant: bool)
    requires Shape(s) && Cap(c, 27) < n
    ensures n > 0
    ensures match Choose(c, n)
            case None => true
            case Some(b) => 28 <= b < |s.free| && s.free[b] == [] && !Obtainable(c, s, b, grant)
  {
    TooBig(c, n);
    hide Cap, Choose;
  }

  lemma InClass(c: Machine, s: Ledger, x: Block)
    requires Ok(c, s) && x in s.blocks
    ensures x.bucket < 28 && |s.free| == NBUCKETS
  {
    assert Aligned(c, x);
  }

  // krealloc of a freed block: the code goes wrong exactly when neither search
  // reaches the block; otherwise it returns NULL exactly when the request is
  // unserved, with nothing changed.
  lemma CompactionFails(c: Machine, s: Ledger, p: nat, n: nat, os: Os, limit: int)
    requires Ok(c, s) && s.phase != Dead && p != 0 && n > 0
    requires Known(c, s, p) && At(c, s, p) !in s.live
    ensures var r := Realloc(c, s, p, n, os, limit); var x := At(c, s, p);
            && x.bucket < |s.free|
            && (r.s.phase == Dead <==> !Findable(s, x, limit))
            && (r.p == 0 <==> !Findable(s, x, limit) || Unserved(c, s, n, os.grow))
            && (r.p == 0 && Findable(s, x, limit) ==> r.s == s)
  {
    var x := At(c, s, p);
    ReadyOf(c, s, x);
    FreeListed(c, s, x);
    MoveFails(c, s, x, n, os.grow);
    MoveLaws(c, s, x, n, os.grow);
    hide Ok, Choose, Known, MovedData, Cap, Findable, Move, Unserved;
  }

  // How far down its list a freed block may stand. krealloc finds the block of
  // rank k when it heads its list, when the search has no limit, or when the
  // limit is above k; then it is served like a kmalloc of the same size.
  // Otherwise the code goes wrong.
  lemma CompactionByRank(c: Machine, s: Ledger, p: nat, n: nat, os: Os, limit: int, b: nat, k: nat)
    requires Ok(c, s) && s.phase == Ready && p != 0 && n > 0 && Known(c, s, p)
    requires b < |s.free| && k < |s.free[b]| && s.free[b][k] == At(c, s, p)
    ensures var r := Realloc(c, s, p, n, os, limit);
            && (r.s.phase == Ready <==> k == 0 || limit < 0 || k < limit)
            && (r.s.phase != Ready ==> r == Reply(s.(phase := Dead), 0))
            && (r.s.phase == Ready ==>
                  && (r.p == 0 <==> Unserved(c, s, n, os.grow))
                  && r.p == MallocReady(c, s, n, os.grow).p
                  && r.s == MallocReady(c, s, n, os.grow).s.(data := r.s.data))
  {
    FindableRank(c, s, b, k, limit);
    ShapeOf(c, s);
    hide Ok, Findable, Unserved, MallocReady, Choose, Known, Cap, Store;
    MoveFails(c, s, At(c, s, p), n, os.grow);
    MoveServes(c, s, At(c, s, p), n, os.grow);
  }

  // Moving hands out what kmalloc would, and beyond that writes payloads only.
  lemma MoveServes(c: Machine, s: Ledger, x: Block, n: nat, grant: bool)
    requires Ok(c, s) && s.phase == Ready && x in s.blocks && Shape(s)
    ensures var r := Move(c, s, x, n, grant); var m := MallocReady(c, s, n, grant);
            r.p == m.p && r.s == m.s.(data := r.s.data) && r.s.phase == Ready
  {
    MallocReadyLaws(c, s, n, grant);
    hide Ok, Shape, MallocReady, Choose, Known, Cap, Store, Allocated;
  }

  // Storage compaction as the old manual had it: kfree, then at once krealloc.
  // The freed block is found, whatever the search limit, and its contents come
  // along. If its class is kept, the two calls together change nothing at all.
  lemma CompactionUndoesFree(c: Machine, s: Ledger, p: nat, n: nat, os: Os, limit: int)
    requires Ok(c, s) && s.phase != Dead && p != 0 && n > 0
    requires Known(c, s, p) && At(c, s, p) in s.live
    ensures var x := At(c, s, p); var t := Free(c, s, p);
            && Ok(c, t) && t.phase != Dead && Known(c, t, p) && At(c, t, p) == x && x !in t.live
            && x.bucket < |t.free| && Findable(t, x, limit)
            && var r := Realloc(c, t, p, n, os, limit);
            && (Choose(c, n) == Some(x.bucket) ==> r == Reply(s, p))
            && (r.p != 0 ==> Known(c, r.s, r.p) && MovedData(c, s, r.s, x, At(c, r.s, r.p), n))
  {
    var x, t := At(c, s, p), Free(c, s, p);
    hide Ok, Choose, Known, MovedData, Cap, Free, Realloc, Push, Pop;
    FreeLaws(c, s, p);
    FreedHead(c, s, p);
    SameBlocks(c, s, t, x);
    Compaction(c, t, p, n, os, limit);
    var r := Realloc(c, t, p, n, os, limit);
    if r.p != 0 {
      MovedFrom(c, s, t, r.s, x, At(c, r.s, r.p), n);
    }
    if Choose(c, n) == Some(x.bucket) {
      assert r.p == p;
    }
  }

  // The freed block heads its list, and taking it back undoes the call.
  lemma FreedHead(c: Machine, s: Ledger, p: nat)
    requires Ok(c, s) && p != 0 && Known(c, s, p) && At(c, s, p) in s.live
    ensures var x := At(c, s, p); var t := Free(c, s, p);
            x.bucket < |t.free| && t.free[x.bucket] != [] && t.free[x.bucket][0] == x && Pop(t, x.bucket) == s
  {
    var x, t := At(c, s, p), Free(c, s, p);
    FreeLaws(c, s, p);
    hide Ok;
    var u := Pop(t, x.bucket);
    assert u.free[x.bucket] == s.free[x.bucket];
    assert u.free == s.free;
    assert u.live == s.live;
  }

  lemma SameBlocks(c: Machine, s: Ledger, t: Ledger, x: Block)
    requires Ok(c, s) && Ok(c, t) && x in s.blocks && t.blocks == s.blocks
    ensures Known(c, t, x.addr + c.h) && At(c, t, x.addr + c.h) == x
  {
    AtUnique(c, t, x);
  }

  // A search of whole lists decides whether a block is free.
  lemma WholeSearchDecides(c: Machine, s: Ledger, x: Block, limit: int)
    requires Ok(c, s) && x in s.blocks && limit < 0
    ensures x.bucket < |s.free| && (Within(s.free[x.bucket], x.addr, limit) <==> x !in s.live)
  {
    hide Geometry, Contents, Counts;
    assert ListOk(s, x.bucket);
    var q := s.free[x.bucket];
    if x !in s.live {
      var k :| 0 <= k < |q| && q[k] == x;
    } else {
      forall k | 0 <= k < |q| ensures q[k].addr != x.addr {
        assert q[k] in q;
        AtUnique(c, s, x);
        AtUnique(c, s, q[k]);
      }
    }
  }
}
