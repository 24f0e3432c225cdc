// Whole runs: any sequence of calls and client writes, under any answers of
// the system, from a fresh process on.

module Runs {
  import opened SizeClasses
  import opened Memory
  import opened Ledgers
  import opened Operations
  import opened Laws

  datatype Op =
    | Kmalloc(n: nat)
    | Kcalloc(nelem: nat, elsize: nat)
    | Kfree(p: nat)
    | Krealloc(p: nat, n: nat, limit: int)      // limit is realloc_srchlen at the call
    | Write(p: nat, off: nat, bs: seq<byte>)    // by the client, into a block it owns

  datatype Event = Event(op: Op, os: Os)

  // What the code asks of its callers: pointers that it handed out.
  ghost predicate Allowed(c: Machine, s: Ledger, op: Op)
    requires Ok(c, s)
  {
    && s.phase != Dead
    && match op
       case Kmalloc(n) => n < Word(c)
       case Kcalloc(nelem, elsize) => nelem < Word(c) && elsize < Word(c)
       case Kfree(p) => p != 0 ==> Known(c, s, p)
       case Krealloc(p, n, limit) => n < Word(c) && (p != 0 ==> Known(c, s, p))
       case Write(p, off, bs) =>
         Known(c, s, p) && At(c, s, p) in s.live && off + |bs| <= Cap(c, At(c, s, p).bucket)
  }

  ghost function Step(c: Machine, s: Ledger, e: Event): (r: Reply)
    requires Ok(c, s) && Allowed(c, s, e.op)
  {
    match e.op
    case Kmalloc(n) => Malloc(c, s, n, e.os)
    case Kcalloc(nelem, elsize) => Calloc(c, s, nelem, elsize, e.os)
    case Kfree(p) => Reply(Free(c, s, p), 0)
    case Krealloc(p, n, limit) => Realloc(c, s, p, n, e.os, limit)
    case Write(p, off, bs) => PayloadSize(c, s, At(c, s, p)); Reply(Poke(s, At(c, s, p), off, bs), 0)
  }

  lemma PayloadSize(c: Machine, s: Ledger, x: Block)
    requires Ok(c, s) && x in s.blocks
    ensures x in s.data && |s.data[x]| == Cap(c, x.bucket)
  {
  }

  // ---------------------------------------------------------------- one step

  // What no call does to a block: a live block that the call does not name
  // stays live, and bytes change only by a client's write to that block or in a
  // block that the call hands out.
  ghost predicate Framed(c: Machine, s: Ledger, t: Ledger, op: Op, x: Block) {
    && x in t.blocks && x in s.data && x in t.data
    && (x in s.live && !Names(c, op, x) ==> x in t.live)
    && (t.data[x] != s.data[x] ==> (op.Write? && op.p == x.addr + c.h) || (x !in s.live && x in t.live))
  }

  predicate Names(c: Machine, op: Op, x: Block) {
    (op.Kfree? || op.Krealloc?) && op.p == x.addr + c.h
  }

  lemma MallocStep(c: Machine, s: Ledger, n: nat, os: Os)
    requires Ok(c, s) && s.phase != Dead
    ensures var r := Malloc(c, s, n, os);
            && Ok(c, r.s)
            && s.blocks <= r.s.blocks && s.live <= r.s.live
            && (forall x :: x in s.blocks ==> x in s.data && x in r.s.data && r.s.data[x] == s.data[x])
  {
    hide Geometry, Partition, Counts, Prime, MallocReady, Cap, Choose;
    MallocLaws(c, s, n, os);
    PrimePhase(c, s, os.align);
  }

  // kcalloc hands out a new block that reads as zero over the wrapped product,
  // and touches no other byte of a payload. The block has room for what was asked exactly
  // when the product did not wrap.
  ghost predicate ClearedBlock(c: Machine, s: Ledger, r: Reply, k: nat)
    requires Known(c, r.s, r.p)
  {
    var y := At(c, r.s, r.p);
    && y !in s.live && r.s.live == s.live + {y} && y in r.s.data
    && k <= |r.s.data[y]| == Cap(c, y.bucket) < Word(c)
    && (forall i :: 0 <= i < k ==> r.s.data[y][i] == 0)
    && (y in s.blocks ==> y in s.data && |s.data[y]| == |r.s.data[y]| && r.s.data[y][k..] == s.data[y][k..])
    && (forall x :: x in s.blocks && x != y ==> x in s.data && x in r.s.data && r.s.data[x] == s.data[x])
  }

  lemma CallocLaws(c: Machine, s: Ledger, nelem: nat, elsize: nat, os: Os)
    requires Ok(c, s) && s.phase != Dead
    ensures var r := Calloc(c, s, nelem, elsize, os);
            && Ok(c, r.s) && s.blocks <= r.s.blocks && s.live <= r.s.live
            && (r.p == 0 <==> r.s.phase == Dead)
            && (r.p != 0 ==>
                  && Known(c, r.s, r.p) && ClearedBlock(c, s, r, (nelem * elsize) % Word(c))
                  && (nelem * elsize <= Cap(c, At(c, r.s, r.p).bucket) <==> nelem * elsize < Word(c)))
            && (r.p == 0 ==> forall x :: x in s.blocks ==> x in s.data && x in r.s.data && r.s.data[x] == s.data[x])
  {
    hide Ok, Known, Cleared, Cap;
    ClearedLaws(c, s, (nelem * elsize) % Word(c), os);
    var r := Calloc(c, s, nelem, elsize, os);
    if r.p != 0 {
      WrapExact(nelem * elsize, Word(c), Cap(c, At(c, r.s, r.p).bucket));
    }
  }

  lemma ClearedLaws(c: Machine, s: Ledger, n: nat, os: Os)
    requires Ok(c, s) && s.phase != Dead
    ensures var r := Cleared(c, s, n, os);
            && Ok(c, r.s) && s.blocks <= r.s.blocks && s.live <= r.s.live
            && (r.p == 0 <==> r.s.phase == Dead)
            && (r.p != 0 ==> Known(c, r.s, r.p) && ClearedBlock(c, s, r, n))
            && (r.p == 0 ==> forall x :: x in s.blocks ==> x in s.data && x in r.s.data && r.s.data[x] == s.data[x])
  {
    ShapeOf(c, s);
    hide *;
    MallocStep(c, s, n, os);
    AllocatedIs(c, s, n, os);
    var m := Malloc(c, s, n, os);
    if m.p == 0 {
      DeadOk(c, m.s);
    } else {
      ClearedOk(c, m.s, At(c, m.s, m.p), n);
      ClearedFrom(c, s, m, n);
    }
  }

  lemma ClearedOk(c: Machine, s: Ledger, y: Block, n: nat)
    requires Ok(c, s) && y in s.blocks && y in s.data && n <= |s.data[y]| == Cap(c, y.bucket)
    ensures var t := Poke(s, y, 0, Zeros(n));
            && Ok(c, t) && t.blocks == s.blocks && t.live == s.live && t.phase == s.phase
            && Known(c, t, y.addr + c.h)
  {
    hide *;
    PokeOk(c, s, y, 0, Zeros(n));
    ZeroStart(c, s, y, n);
    AtPoked(c, s, y, n);
  }

  lemma ClearedFrom(c: Machine, s: Ledger, m: Reply, n: nat)
    requires Ok(c, m.s) && Known(c, m.s, m.p)
    requires var y := At(c, m.s, m.p);
             && y !in s.live && m.s.live == s.live + {y} && y in m.s.data
             && n <= |m.s.data[y]| == Cap(c, y.bucket) < Word(c)
    requires forall x :: x in s.blocks ==> x in s.data && x in m.s.data && m.s.data[x] == s.data[x]
    ensures var t := Poke(m.s, At(c, m.s, m.p), 0, Zeros(n));
            Known(c, t, m.p) && ClearedBlock(c, s, Reply(t, m.p), n)
  {
    var y := At(c, m.s, m.p);
    hide Ok, Known, Poke, Zeros, Cap, Word;
    ZeroStart(c, m.s, y, n);
    AtPoked(c, m.s, y, n);
  }

  // What kcalloc makes of the block that kmalloc gave it.
  lemma AllocatedIs(c: Machine, s: Ledger, n: nat, os: Os)
    requires Ok(c, s) && s.phase != Dead && Shape(s)
    ensures var m := Malloc(c, s, n, os); var r := Cleared(c, s, n, os);
            && (m.p == 0 ==> r == Reply(m.s.(phase := Dead), 0))
            && (m.p != 0 ==>
                  && Known(c, m.s, m.p) && m.s.phase == Ready
                  && var y := At(c, m.s, m.p);
                  && y in m.s.blocks && y !in s.live && m.s.live == s.live + {y}
                  && y in m.s.data && n <= |m.s.data[y]| == Cap(c, y.bucket) < Word(c)
                  && r == Reply(Poke(m.s, y, 0, Zeros(n)), m.p))
  {
    hide Ok, Shape, Known, Malloc, Cap, Choose, Poke, Zeros, Word;
    MallocLaws(c, s, n, os);
    PrimePhase(c, s, os.align);
    var m := Malloc(c, s, n, os);
    if m.p != 0 {
      CapBelowWord(c, m.s, At(c, m.s, m.p));
    }
  }

  // Wrapping at w leaves room for the product exactly when nothing wraps.
  lemma WrapExact(product: nat, w: nat, room: nat)
    requires w > 0 && product % w <= room < w
    ensures product <= room <==> product < w
  {
  }

  lemma CapBelowWord(c: Machine, s: Ledger, x: Block)
    requires Ok(c, s) && x in s.blocks
    ensures Cap(c, x.bucket) < Word(c)
  {
    TilesInside(c, s.blocks, s.base, s.brk);
  }

  lemma ZeroStart(c: Machine, s: Ledger, x: Block, k: nat)
    requires x in s.data && k <= |s.data[x]|
    ensures var t := Poke(s, x, 0, Zeros(k));
            && x in t.data && |t.data[x]| == |s.data[x]| && (forall i :: 0 <= i < k ==> t.data[x][i] == 0)
            && t.data[x][k..] == s.data[x][k..]
            && t.blocks == s.blocks && t.live == s.live && t.phase == s.phase
            && (forall y :: y in s.data && y != x ==> y in t.data && t.data[y] == s.data[y])
  {
    var d := Store(s.data[x], 0, Zeros(k));
    assert forall i :: 0 <= i < k ==> d[i] == d[0..0 + |Zeros(k)|][i];
  }

  // kcalloc is kmalloc of the wrapped product and a clear, which writes the
  // payload of the block and nothing else.
  lemma CallocServes(c: Machine, s: Ledger, nelem: nat, elsize: nat, os: Os)
    requires Ok(c, s) && s.phase != Dead && Shape(s)
    ensures var r := Calloc(c, s, nelem, elsize, os); var m := Malloc(c, s, (nelem * elsize) % Word(c), os);
            && r.p == m.p && (r.p == 0 ==> r.s == m.s.(phase := Dead))
            && (r.p != 0 ==> r.s == m.s.(data := r.s.data))
  {
    hide Ok, Shape, Known, Malloc, Cleared, Cap, Store, Zeros;
    AllocatedIs(c, s, (nelem * elsize) % Word(c), os);
  }

  lemma StepLaws(c: Machine, s: Ledger, e: Event)
    requires Ok(c, s) && Allowed(c, s, e.op)
    ensures Ok(c, Step(c, s, e).s)
    ensures forall x :: x in s.blocks ==> Framed(c, s, Step(c, s, e).s, e.op, x)
  {
    match e.op
    case Kmalloc(n) =>
      hide Ok, Malloc, Allowed;
      MallocStep(c, s, n, e.os);
    case Kcalloc(nelem, elsize) =>
      hide Ok, Calloc, Malloc, Known, Cap;
      CallocLaws(c, s, nelem, elsize, e.os);
    case Kfree(p) =>
      hide Geometry, Partition, Counts, Free, Known;
      if p != 0 {
        FreeLaws(c, s, p);
        OnlyOne(c, s, p);
      }
    case Krealloc(p, n, limit) =>
      ReallocStep(c, s, e);
    case Write(p, off, bs) =>
      hide Geometry, Partition, Counts, Known, Cap;
      PokeOk(c, s, At(c, s, p), off, bs);
  }

  lemma OnlyOne(c: Machine, s: Ledger, p: nat)
    requires Ok(c, s) && Known(c, s, p)
    ensures forall x :: x in s.blocks && x != At(c, s, p) ==> x.addr + c.h != p
  {
    forall x | x in s.blocks && x.addr + c.h == p ensures x == At(c, s, p) {
      AtUnique(c, s, x);
    }
  }

  lemma ReallocStep(c: Machine, s: Ledger, e: Event)
    requires Ok(c, s) && Allowed(c, s, e.op) && e.op.Krealloc?
    ensures Ok(c, Step(c, s, e).s)
    ensures forall x :: x in s.blocks ==> Framed(c, s, Step(c, s, e).s, e.op, x)
  {
    var p, n, limit := e.op.p, e.op.n, e.op.limit;
    hide *;
    ReallocAllowed(c, s, e);
    if p == 0 {
      MallocStep(c, s, n, e.os);
      FrameFromMalloc(c, s, Malloc(c, s, n, e.os).s, e.op);
      ReallocNull(c, s, n, e.os, limit);
    } else {
      OnlyOne(c, s, p);
      if n == 0 {
        FreeLaws(c, s, p);
        ReallocZero(c, s, p, e.os, limit);
        FrameFromFree(c, s, Free(c, s, p), e.op, At(c, s, p));
      } else if At(c, s, p) in s.live {
        ReallocLive(c, s, p, n, e.os, limit);
        var r := Realloc(c, s, p, n, e.os, limit);
        if r.p == 0 {
          FreeLaws(c, s, p);
          FrameFromFree(c, s, Free(c, s, p), e.op, At(c, s, p));
        } else {
          FrameFromMove(c, s, r.s, e.op, At(c, s, p), At(c, r.s, r.p), n);
        }
      } else if Lost(s, At(c, s, p), limit) {
        ReallocLost(c, s, p, n, e.os, limit);
        FrameFromFree(c, s, s.(phase := Dead), e.op, At(c, s, p));
      } else {
        NotLost(c, s, At(c, s, p), limit);
        Compaction(c, s, p, n, e.os, limit);
        var r := Realloc(c, s, p, n, e.os, limit);
        if r.p == 0 {
          FrameFromFree(c, s, s, e.op, At(c, s, p));
        } else {
          FrameFromMove(c, s, r.s, e.op, At(c, s, p), At(c, r.s, r.p), n);
        }
      }
    }
  }

  lemma FrameFromMove(c: Machine, s: Ledger, t: Ledger, op: Op, x: Block, y: Block, n: nat)
    requires op.Krealloc? && op.p == x.addr + c.h
    requires MovedData(c, s, t, x, y, n) && s.blocks <= t.blocks
    requires t.live == s.live - {x} + {y} && (y !in s.live || t == s)
    ensures forall z :: z in s.blocks ==> Framed(c, s, t, op, z)
  {
    hide Cap;
  }

  lemma ReallocAllowed(c: Machine, s: Ledger, e: Event)
    requires Ok(c, s) && Allowed(c, s, e.op) && e.op.Krealloc?
    ensures s.phase != Dead && Shape(s) && (e.op.p != 0 ==> Known(c, s, e.op.p))
    ensures Step(c, s, e) == Realloc(c, s, e.op.p, e.op.n, e.os, e.op.limit)
  {
  }

  lemma FrameFromMalloc(c: Machine, s: Ledger, t: Ledger, op: Op)
    requires s.blocks <= t.blocks && s.live <= t.live
    requires forall x :: x in s.blocks ==> x in s.data && x in t.data && t.data[x] == s.data[x]
    ensures forall z :: z in s.blocks ==> Framed(c, s, t, op, z)
  {
  }

  lemma FrameFromFree(c: Machine, s: Ledger, t: Ledger, op: Op, x: Block)
    requires Ok(c, s) && (op.Kfree? || op.Krealloc?) && op.p == x.addr + c.h
    requires t.blocks == s.blocks && t.data == s.data && s.live - {x} <= t.live
    ensures forall z :: z in s.blocks ==> Framed(c, s, t, op, z)
  {
    hide Geometry, Partition, Counts;
  }

  // A freed block out of reach of krealloc's two searches.
  predicate Lost(s: Ledger, x: Block, limit: int) {
    x.bucket < |s.free| && !Findable(s, x, limit)
  }

  lemma NotLost(c: Machine, s: Ledger, x: Block, limit: int)
    requires Ok(c, s) && x in s.blocks && !Lost(s, x, limit)
    ensures x.bucket < |s.free| && Findable(s, x, limit)
  {
  }

  lemma ReallocLost(c: Machine, s: Ledger, p: nat, n: nat, os: Os, limit: int)
    requires Ok(c, s) && s.phase != Dead && p != 0 && n > 0
    requires Known(c, s, p) && At(c, s, p) !in s.live && Lost(s, At(c, s, p), limit)
    ensures Realloc(c, s, p, n, os, limit) == Reply(s.(phase := Dead), 0) && Ok(c, s.(phase := Dead))
  {
    DeadOk(c, s);
  }

  lemma ReallocNull(c: Machine, s: Ledger, n: nat, os: Os, limit: int)
    requires Ok(c, s) && s.phase != Dead
    ensures Realloc(c, s, 0, n, os, limit) == Malloc(c, s, n, os)
  {
  }

  lemma ReallocZero(c: Machine, s: Ledger, p: nat, os: Os, limit: int)
    requires Ok(c, s) && s.phase != Dead && p != 0 && Known(c, s, p)
    ensures Realloc(c, s, p, 0, os, limit) == Reply(Free(c, s, p), 0)
  {
  }

  // ---------------------------------------------------------------- one step, call by call

  // A kmalloc in a run. NULL is the answer exactly when the first call is
  // refused or the request is not served. Otherwise the block is a new one of
  // the class of n, and no payload that was there has changed.
  lemma KmallocStep(c: Machine, s: Ledger, n: nat, os: Os)
    requires Ok(c, s) && Allowed(c, s, Kmalloc(n))
    ensures var r := Step(c, s, Event(Kmalloc(n), os));
            && (r.p == 0 <==> FirstRefused(c, s, os.align) || Unserved(c, Prime(c, s, os.align), n, os.grow))
            && (r.p == 0 ==> r.s == Prime(c, s, os.align))
            && (r.p != 0 ==> Known(c, r.s, r.p) && Allocated(c, s, n, r.s, At(c, r.s, r.p))
                             && n <= Cap(c, At(c, r.s, r.p).bucket))
  {
    MallocLaws(c, s, n, os);
    hide Ok, Shape, Malloc, Prime, FirstRefused, Unserved, Known, Allocated, Choose, Cap;
    MallocFails(c, s, n, os);
  }

  // A kcalloc in a run.
  lemma KcallocStep(c: Machine, s: Ledger, nelem: nat, elsize: nat, os: Os)
    requires Ok(c, s) && Allowed(c, s, Kcalloc(nelem, elsize))
    ensures var r := Step(c, s, Event(Kcalloc(nelem, elsize), os)); var k := (nelem * elsize) % Word(c);
            && (r.p == 0 <==> FirstRefused(c, s, os.align) || Unserved(c, Prime(c, s, os.align), k, os.grow))
            && (r.p == 0 <==> r.s.phase == Dead)
            && (r.p != 0 ==> Known(c, r.s, r.p) && ClearedBlock(c, s, r, k) && OfClass(c, r, k))
  {
    hide Ok, Shape, Calloc, Prime, FirstRefused, Unserved, Known, ClearedBlock, OfClass, Word;
    CallocLaws(c, s, nelem, elsize, os);
    CallocFails(c, s, nelem, elsize, os);
    if Calloc(c, s, nelem, elsize, os).p != 0 {
      CallocBucket(c, s, nelem, elsize, os);
    }
  }

  // A kfree in a run. A live block becomes the head of the list of its bucket;
  // NULL and a block that is already free change nothing.
  lemma KfreeStep(c: Machine, s: Ledger, p: nat, os: Os)
    requires Ok(c, s) && Allowed(c, s, Kfree(p))
    ensures var r := Step(c, s, Event(Kfree(p), os));
            && r.p == 0 && (p == 0 ==> r.s == s)
            && (p != 0 ==>
                  && Known(c, s, p)
                  && var x := At(c, s, p);
                  && (x !in s.live ==> r.s == s)
                  && (x in s.live ==>
                        && x.bucket < |s.free|
                        && r.s == s.(live := s.live - {x}, free := s.free[x.bucket := [x] + s.free[x.bucket]])))
  {
    if p != 0 {
      FreeLaws(c, s, p);
    }
    hide Ok, Known;
  }

  // A client's write in a run: its bytes at their places, and nothing else.
  lemma WriteStep(c: Machine, s: Ledger, p: nat, off: nat, bs: seq<byte>, os: Os)
    requires Ok(c, s) && Allowed(c, s, Write(p, off, bs))
    ensures var r := Step(c, s, Event(Write(p, off, bs), os)); var x := At(c, s, p);
            && r.p == 0 && r.s == s.(data := r.s.data) && r.s.data.Keys == s.data.Keys
            && x in s.data && |r.s.data[x]| == |s.data[x]|
            && (forall i :: 0 <= i < |s.data[x]| ==>
                  r.s.data[x][i] == if off <= i < off + |bs| then bs[i - off] else s.data[x][i])
            && (forall y :: y in s.data && y != x ==> r.s.data[y] == s.data[y])
  {
    var x := At(c, s, p);
    PayloadSize(c, s, x);
    hide Ok, Known, Cap;
    var d := Store(s.data[x], off, bs);
    assert forall i :: off <= i < off + |bs| ==> d[i] == d[off..off + |bs|][i - off];
  }

  // A krealloc in a run: of NULL it is kmalloc, to size 0 it is kfree, and else
  // it resizes.
  lemma KreallocStep(c: Machine, s: Ledger, p: nat, n: nat, limit: int, os: Os)
    requires Ok(c, s) && Allowed(c, s, Krealloc(p, n, limit))
    ensures s.phase != Dead && (p != 0 ==> Known(c, s, p))
    ensures var r := Step(c, s, Event(Krealloc(p, n, limit), os));
            && r == Realloc(c, s, p, n, os, limit)
            && (p == 0 ==> r == Step(c, s, Event(Kmalloc(n), os)))
            && (p != 0 && n == 0 ==> r == Step(c, s, Event(Kfree(p), os)))
  {
    hide Ok, Known, Malloc, Free;
  }

  // ---------------------------------------------------------------- runs

  ghost predicate Legal(c: Machine, s: Ledger, t: seq<Event>)
    requires Ok(c, s)
    decreases |t|
  {
    t == [] || (Allowed(c, s, t[0].op) && (StepLaws(c, s, t[0]); Legal(c, Step(c, s, t[0]).s, t[1..])))
  }

  ghost function Run(c: Machine, s: Ledger, t: seq<Event>): (r: Ledger)
    requires Ok(c, s) && Legal(c, s, t)
    ensures Ok(c, r)
    decreases |t|
  {
    if t == [] then s else StepLaws(c, s, t[0]); Run(c, Step(c, s, t[0]).s, t[1..])
  }

  lemma RunNone(c: Machine, s: Ledger)
    requires Ok(c, s)
    ensures Legal(c, s, []) && Run(c, s, []) == s
  {
  }

  // A run of one event more is the run and then that event.
  lemma {:induction false} RunSnoc(c: Machine, s: Ledger, t: seq<Event>, e: Event)
    requires Ok(c, s) && Legal(c, s, t)
    ensures Legal(c, s, t + [e]) <==> Allowed(c, Run(c, s, t), e.op)
    ensures Legal(c, s, t + [e]) ==> Run(c, s, t + [e]) == Step(c, Run(c, s, t), e).s
    decreases |t|
  {
    hide Ok, Allowed, Step;
    if t == [] {
      assert [] + [e] == [e] && [e][1..] == [];
      if Allowed(c, s, e.op) {
        StepLaws(c, s, e);
      }
    } else {
      StepLaws(c, s, t[0]);
      assert (t + [e])[0] == t[0] && (t + [e])[1..] == t[1..] + [e];
      RunSnoc(c, Step(c, s, t[0]).s, t[1..], e);
    }
  }

  // A pointer that was once handed out may be given to kfree and krealloc after
  // any run that has not come to its end, and names the same block. While the
  // block is live its owner may write to it.
  lemma {:induction false} PointersLast(c: Machine, s: Ledger, t: seq<Event>, p: nat)
    requires Ok(c, s) && Legal(c, s, t) && Known(c, s, p)
    ensures var u := Run(c, s, t);
            && Known(c, u, p) && At(c, u, p) == At(c, s, p)
            && (u.phase != Dead ==>
                  && Allowed(c, u, Kfree(p))
                  && (forall n: nat, limit :: n < Word(c) ==> Allowed(c, u, Krealloc(p, n, limit)))
                  && (At(c, u, p) in u.live ==>
                        forall off: nat, bs :: off + |bs| <= Cap(c, At(c, u, p).bucket) ==>
                          Allowed(c, u, Write(p, off, bs))))
    decreases |t|
  {
    hide Ok, Known, Step;
    if t != [] {
      StepLaws(c, s, t[0]);
      var x, u := At(c, s, p), Step(c, s, t[0]).s;
      assert Framed(c, s, u, t[0].op, x);
      StillAt(c, u, x);
      PointersLast(c, u, t[1..], p);
    }
  }

  // Until a run has come to its end, calls that name no block are possible with
  // any arguments of the width of a size_t.
  lemma CallsPossible(c: Machine, s: Ledger)
    requires Ok(c, s) && s.phase != Dead
    ensures forall n: nat :: n < Word(c) ==> Allowed(c, s, Kmalloc(n))
    ensures forall nelem: nat, elsize: nat :: nelem < Word(c) && elsize < Word(c) ==>
              Allowed(c, s, Kcalloc(nelem, elsize))
    ensures forall n: nat, limit :: n < Word(c) ==> Allowed(c, s, Krealloc(0, n, limit))
    ensures Allowed(c, s, Kfree(0))
  {
  }

  lemma StillAt(c: Machine, s: Ledger, x: Block)
    requires Ok(c, s) && x in s.blocks
    ensures Known(c, s, x.addr + c.h) && At(c, s, x.addr + c.h) == x
  {
    AtUnique(c, s, x);
  }
}
