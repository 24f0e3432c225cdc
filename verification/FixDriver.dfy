// Ties the fixed-size allocator to runs of pools: it carries out any legal
// sequence of allocations, frees and client writes.

module FixDriver {
  import opened FixPools
  import opened FixAlloc
  import opened Memory

  // A client gives the object a back, or writes into it.
  predicate Touches(op: Op, a: nat) {
    (op.Give? || op.Write?) && op.p == a
  }

  ghost predicate Untouched(t: seq<Op>, a: nat) {
    forall e :: e in t ==> !Touches(e, a)
  }

  // The object at a holds the same bytes in both memories.
  ghost predicate SameObject(mem: Image, mem': Image, a: nat, size: nat) {
    forall i :: a <= i < a + size ==> i in mem && i in mem' && mem'[i] == mem[i]
  }

  // Every live object that the operation does not touch stays live, with the same bytes.
  ghost predicate Others(s: Pool, mem: Image, t: Pool, mem': Image, op: Op) {
    forall a :: a in s.live && !Touches(op, a) ==> a in t.live && SameObject(mem, mem', a, s.size)
  }

  // The address of the k-th object of a list, or nil behind its end.
  function Entry(q: seq<nat>, k: nat): nat {
    if k < |q| then q[k] else 0
  }

  // Each freed object holds the address of the one freed before it.
  ghost predicate ListLaid(mem: Image, head: nat, q: seq<nat>) {
    && head == Entry(q, 0)
    && forall k: nat :: k < |q| ==> Mapped(mem, q[k], 8) && Next(mem, q[k]) == Entry(q, k + 1)
  }

  lemma {:induction false} ChainLaid(mem: Image, head: nat, q: seq<nat>)
    requires Chain(mem, head, q)
    ensures ListLaid(mem, head, q)
    decreases |q|
  {
    hide Next;
    if q != [] {
      var rest := Next(mem, head);
      ChainLaid(mem, rest, q[1..]);
      forall k: nat | k < |q| ensures Mapped(mem, q[k], 8) && Next(mem, q[k]) == Entry(q, k + 1) {
        if k > 0 {
          assert q[k] == q[1..][k - 1] && Entry(q, k + 1) == Entry(q[1..], k);
        }
      }
    }
  }

  // What the fields and the bytes of an allocator are: the bytes in use, the
  // rest of the latest chunk, which is zero, and the links. Together with the
  // listed objects these make up the chunks, of which each is the largest
  // multiple of the object size up to 16 KiB.
  ghost predicate Laid(f: Fixalloc)
    reads f
  {
    && f.size == f.pool.size && 8 <= f.size <= 16384
    && f.inuse == |f.pool.live| * f.size && f.nchunk == f.pool.left * f.size && f.chunk == f.pool.tail
    && AllZero(f.mem, f.chunk, f.nchunk) && ListLaid(f.mem, f.list, f.pool.list)
    && f.nalloc <= 16384 < f.nalloc + f.size
    && |f.pool.chunks| * f.nalloc == f.inuse + f.size * |f.pool.list| + f.nchunk
  }

  lemma LaidOut(f: Fixalloc)
    requires f.Valid() && f.size != 0
    ensures Laid(f)
  {
    SizedOk(f.pool);
    hide Ok, Per, Chain, ChunkBytes, ListLaid, AllZero, ChunksMapped;
    Conservation(f.pool);
    ChunkFits(f.pool);
    ChainLaid(f.mem, f.list, f.pool.list);
  }

  // From mem to mem', the bytes bs came to a, and nothing else changed.
  ghost predicate Stored(mem: Image, mem': Image, a: nat, bs: seq<byte>) {
    forall i :: i in mem ==> i in mem' && mem'[i] == if a <= i < a + |bs| then bs[i - a] else mem[i]
  }

  lemma StoredIs(mem: Image, mem': Image, a: nat, bs: seq<byte>)
    requires forall i :: i in mem ==> i in mem' && mem'[i] == if a <= i < a + |bs| then bs[i - a] else mem[i]
    ensures Stored(mem, mem', a, bs)
  {
  }

  // One operation is one step of the pool. It keeps the bytes of every live
  // object that it does not touch, and an object handed out reads as zero. The
  // result is the object handed out, or 0.
  method Perform(f: Fixalloc, op: Op) returns (p: nat)
    requires f.Valid() && f.size != 0 && Ok(f.pool) && Allowed(f.pool, op)
    modifies f
    ensures f.Valid() && f.size == old(f.size) && f.zero == old(f.zero)
    ensures Ok(old(f.pool)) && f.pool == Step(old(f.pool), op) && Ok(f.pool)
    ensures Others(old(f.pool), old(f.mem), f.pool, f.mem, op)
    ensures p == if op.Take? && !(Empty(old(f.pool)) && op.sys.Refused?) then Given(old(f.pool), Place(op.sys)) else 0
    ensures p != 0 ==> p in f.pool.live && (f.zero ==> AllZero(f.mem, p, f.size))
    ensures Laid(f)
    // A client's bytes arrive at their places, and no other byte changes.
    ensures op.Write? ==> Stored(old(f.mem), f.mem, op.p + op.off, op.bs)
  {
    hide *;
    ghost var s, mem0 := f.pool, f.mem;
    StepOk(s, op);
    StepCases(s, op);
    FieldsOf(f);
    ObjectsMapped(f.mem, f.size, f.list, f.chunk, f.nchunk, f.nalloc, f.inuse, s);
    p := 0;
    match op {
      case Take(sys) =>
        var r := f.Alloc(sys);
        if r.Object? {
          p := r.p;
          TakeKeeps(s, sys, mem0, f.mem, p);
        } else {
          AllKept(s, op, mem0);
        }
      case Give(q) =>
        f.Free(q);
        OthersKept(s, op, mem0, f.mem);
      case Write(q, off, bs) =>
        f.Write(q, off, bs);
        StoredIs(mem0, f.mem, q + off, bs);
        OthersKept(s, op, mem0, f.mem);
    }
    LaidOut(f);
  }

  lemma FieldsOf(f: Fixalloc)
    requires f.Valid() && f.size != 0
    ensures Fields(f.mem, f.size, f.list, f.chunk, f.nchunk, f.nalloc, f.inuse, f.pool)
  {
  }

  lemma ObjectsMapped(mem: Image, size: nat, list: nat, chunk: nat, nchunk: nat, nalloc: nat, inuse: nat, s: Pool)
    requires Fields(mem, size, list, chunk, nchunk, nalloc, inuse, s)
    ensures size == s.size && Sized(s) && forall a :: a in s.live ==> Mapped(mem, a, size)
  {
    SizedOk(s);
    hide Ok, Coupled, Mapped;
    forall a | a in s.live ensures Mapped(mem, a, size) {
      LiveObject(s, a);
      ObjectMapped(mem, list, s, a);
    }
  }

  lemma AllKept(s: Pool, op: Op, mem: Image)
    requires forall a :: a in s.live ==> Mapped(mem, a, s.size)
    ensures Others(s, mem, s, mem, op)
  {
  }

  lemma TakeKeeps(s: Pool, sys: Answer, mem: Image, mem': Image, p: nat)
    requires Ok(s) && Allowed(s, Take(sys)) && !(Empty(s) && sys.Refused?) && p == Given(s, Place(sys))
    requires forall a :: a in s.live ==> Mapped(mem, a, s.size)
    requires forall i :: i in mem && !(p <= i < p + s.size) ==> i in mem' && mem'[i] == mem[i]
    ensures p > 0 && p in Alloc(s, Place(sys)).live
    ensures Others(s, mem, Alloc(s, Place(sys)), mem', Take(sys))
  {
    StepCases(s, Take(sys));
    hide *;
    AllocOk(s, Place(sys));
    forall a | a in s.live ensures SameObject(mem, mem', a, s.size) {
      GivenIsApart(s, Place(sys), a);
      Spared(s, mem, mem', a, p);
    }
    OthersFrom(s, mem, Alloc(s, Place(sys)), mem', Take(sys));
  }

  lemma Spared(s: Pool, mem: Image, mem': Image, a: nat, p: nat)
    requires Apart(s, a, p) && Mapped(mem, a, s.size)
    requires forall i :: i in mem && !(p <= i < p + s.size) ==> i in mem' && mem'[i] == mem[i]
    ensures SameObject(mem, mem', a, s.size)
  {
  }

  lemma OthersFrom(s: Pool, mem: Image, t: Pool, mem': Image, op: Op)
    requires s.live <= t.live && forall a :: a in s.live ==> SameObject(mem, mem', a, s.size)
    ensures Others(s, mem, t, mem', op)
  {
  }

  lemma OthersKept(s: Pool, op: Op, mem: Image, mem': Image)
    requires Ok(s) && (op.Give? || op.Write?) && Allowed(s, op)
    requires forall a :: a in s.live ==> Mapped(mem, a, s.size)
    requires forall i :: i in mem && !(op.p <= i < op.p + s.size) ==> i in mem' && mem'[i] == mem[i]
    ensures Others(s, mem, Step(s, op), mem', op)
  {
    var p := op.p;
    LiveObject(s, p);
    OthersApart(s, p);
    forall a | a in s.live && a != p ensures SameObject(mem, mem', a, s.size) {
      LiveObject(s, a);
      hide Ok;
      assert Mapped(mem, a, s.size) && Apart(s, a, p);
    }
  }

  lemma SameTwice(mem: Image, mem1: Image, mem2: Image, a: nat, size: nat)
    requires SameObject(mem, mem1, a, size) && SameObject(mem1, mem2, a, size)
    ensures SameObject(mem, mem2, a, size)
  {
  }

  // Any run from any valid allocator: the pool is the run's pool, and a live
  // object that no one gives back or writes to keeps every byte.
  method Continue(f: Fixalloc, trace: seq<Op>)
    requires f.Valid() && f.size != 0 && Ok(f.pool) && Legal(f.pool, trace)
    modifies f
    ensures f.Valid() && f.size == old(f.size) && f.zero == old(f.zero)
    ensures Ok(f.pool) && f.pool == Run(old(f.pool), trace)
    ensures forall a :: a in old(f.pool).live && Untouched(trace, a) ==>
              a in f.pool.live && SameObject(old(f.mem), f.mem, a, f.size)
  {
    ghost var s, mem0 := f.pool, f.mem;
    var i := 0;
    ObjectsMapped(f.mem, f.size, f.list, f.chunk, f.nchunk, f.nalloc, f.inuse, f.pool);
    assert forall a :: a in s.live ==> SameObject(mem0, f.mem, a, f.size);
    hide Fields, Ok, Allowed, Step, Laid, Stored, SameObject;
    while i < |trace|
      invariant 0 <= i <= |trace|
      invariant f.Valid() && f.size == old(f.size) && f.size != 0 && f.zero == old(f.zero)
      invariant Ok(f.pool) && Sized(f.pool) && Legal(f.pool, trace[i..]) && Run(f.pool, trace[i..]) == Run(s, trace)
      invariant forall a :: a in s.live && Untouched(trace, a) ==>
                  a in f.pool.live && SameObject(mem0, f.mem, a, f.size)
    {
      assert trace[i..][0] == trace[i] && trace[i..][1..] == trace[i + 1..];
      assert trace[i] in trace;
      ghost var mem1 := f.mem;
      var p := Perform(f, trace[i]);
      forall a | a in s.live && Untouched(trace, a) ensures a in f.pool.live && SameObject(mem0, f.mem, a, f.size) {
        SameTwice(mem0, mem1, f.mem, a, f.size);
      }
      i := i + 1;
    }
  }

  // The allocator, initialised over any memory image, after any legal run.
  method Drive(image: Image, size: nat, trace: seq<Op>) returns (f: Fixalloc)
    requires size <= CHUNK && Legal(Start(if size < 8 then 8 else size, image.Keys), trace)
    ensures f.Valid() && f.zero && f.pool == Run(Start(if size < 8 then 8 else size, image.Keys), trace)
    ensures Laid(f)
  {
    f := new Fixalloc(image);
    StartOk(if size < 8 then 8 else size, image.Keys);
    hide Fields, Ok, Legal, Run;
    var ok := f.Init(size);
    Continue(f, trace);
    LaidOut(f);
  }
}
