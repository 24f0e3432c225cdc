// The fixed-size allocator as it runs: it threads freed objects through their
// own first eight bytes, and bumps a pointer through the latest chunk.

module FixAlloc {
  import opened Arithmetic
  import opened FixPools
  import opened Memory

  // A memory is what has been mapped so far.
  type Image = map<nat, byte>

  ghost predicate Mapped(mem: Image, lo: nat, len: nat) {
    forall i :: lo <= i < lo + len ==> i in mem
  }

  function BytesAt(mem: Image, a: nat, len: nat): (bs: seq<byte>)
    requires forall i :: a <= i < a + len ==> i in mem
    ensures |bs| == len && forall i :: 0 <= i < len ==> bs[i] == mem[a + i]
  {
    seq(len, i requires 0 <= i < len => mem[a + i])
  }

  // The pointer stored at a: `(*mlink)(a).next`.
  function Next(mem: Image, a: nat): nat
    requires forall i :: a <= i < a + 8 ==> i in mem
  {
    Decode(BytesAt(mem, a, 8))
  }

  function Put(mem: Image, a: nat, bs: seq<byte>): (r: Image)
    ensures r.Keys == mem.Keys
    ensures forall i :: i in mem ==> r[i] == if a <= i < a + |bs| then bs[i - a] else mem[i]
  {
    map i | i in mem :: if a <= i < a + |bs| then bs[i - a] else mem[i]
  }

  predicate Within(i: nat, at: nat, len: nat) { at <= i < at + len }

  function Map(mem: Image, at: nat, len: nat): (r: Image)
    ensures forall i :: i in r <==> i in mem || at <= i < at + len
    ensures forall i :: i in r ==> r[i] == if at <= i < at + len then 0 else mem[i]
  {
    mem + map i: nat | at <= i < at + len && Within(i, at, len) :: 0
  }

  // The list that starts at p, read off the links in memory, is q.
  ghost predicate Chain(mem: Image, p: nat, q: seq<nat>)
    decreases |q|
  {
    if q == [] then p == 0
    else q[0] == p && p > 0 && Mapped(mem, p, 8) && Chain(mem, Next(mem, p), q[1..])
  }

  ghost predicate AllZero(mem: Image, lo: nat, len: nat) {
    forall i :: lo <= i < lo + len ==> i in mem && mem[i] == 0
  }

  ghost predicate Coupled(mem: Image, list: nat, s: Pool)
    requires Sized(s)
  {
    && ChunksMapped(mem, s)
    && Chain(mem, list, s.list)
    && TailZero(mem, s)
  }

  // What has not been carved yet is zero.
  ghost predicate TailZero(mem: Image, s: Pool) {
    AllZero(mem, s.tail, s.left * s.size)
  }

  // The chunks are mapped, and nothing else but what was mapped at the start.
  ghost predicate ChunksMapped(mem: Image, s: Pool)
    requires Sized(s)
  {
    && (forall j :: 0 <= j < |s.chunks| ==> Mapped(mem, s.chunks[j], ChunkBytes(s)))
    && (forall i :: i in mem ==> i in s.foreign || InChunk(s, i))
  }

  ghost predicate InChunk(s: Pool, i: nat)
    requires Sized(s)
  {
    exists j :: 0 <= j < |s.chunks| && s.chunks[j] <= i < s.chunks[j] + ChunkBytes(s)
  }

  lemma {:induction false} ChainFrame(mem: Image, mem': Image, p: nat, q: seq<nat>)
    requires Chain(mem, p, q)
    requires forall a, i :: a in q && a <= i < a + 8 && i in mem ==> i in mem' && mem'[i] == mem[i]
    ensures Chain(mem', p, q)
    decreases |q|
  {
    if q != [] {
      assert BytesAt(mem', p, 8) == BytesAt(mem, p, 8) by {
        assert q[0] in q;
      }
      assert forall a :: a in q[1..] ==> a in q;
      ChainFrame(mem, mem', Next(mem, p), q[1..]);
    }
  }

  // Every object is mapped memory.
  lemma ObjectMapped(mem: Image, list: nat, s: Pool, a: nat)
    requires Ok(s) && Coupled(mem, list, s) && a in s.objs
    ensures Mapped(mem, a, s.size) && a > 0
  {
    hide Per, ChunkBytes;
    assert Inside(s, a, s.size);
    var j :| 0 <= j < |s.chunks| && s.chunks[j] <= a && a + s.size <= s.chunks[j] + ChunkBytes(s);
    assert Mapped(mem, s.chunks[j], ChunkBytes(s));
  }

  // A change inside one object leaves the other objects and the tail alone.
  lemma ObjectFrame(mem: Image, mem': Image, list: nat, s: Pool, p: nat, q: seq<nat>, head: nat)
    requires Ok(s) && Coupled(mem, list, s) && p in s.objs && mem'.Keys == mem.Keys
    requires forall i :: i in mem && !(p <= i < p + s.size) ==> mem'[i] == mem[i]
    requires Chain(mem, head, q) && forall a :: a in q ==> a in s.objs && a != p
    ensures Chain(mem', head, q)
    ensures TailZero(mem', s) && Sized(s) && ChunksMapped(mem', s)
  {
    hide *;
    Parts(mem, list, s);
    OthersApart(s, p);
    ListKept(mem, mem', s, p, q);
    ChainFrame(mem, mem', head, q);
    TailKept(mem, mem', s, p);
    ChunksKept(mem, mem', s);
  }

  lemma Parts(mem: Image, list: nat, s: Pool)
    requires Ok(s) && Coupled(mem, list, s)
    ensures Sized(s) && ChunksMapped(mem, s) && TailZero(mem, s)
  {
    hide Per, ChunksMapped, TailZero, Chain;
  }

  lemma ChunksKept(mem: Image, mem': Image, s: Pool)
    requires Sized(s) && ChunksMapped(mem, s) && mem'.Keys == mem.Keys
    ensures ChunksMapped(mem', s)
  {
    hide Per, ChunkBytes, InChunk;
    forall j | 0 <= j < |s.chunks| ensures Mapped(mem', s.chunks[j], ChunkBytes(s)) {
      assert Mapped(mem, s.chunks[j], ChunkBytes(s));
    }
    assert forall i :: i in mem' ==> i in mem;
  }

  // What the chunks say of a pool depends on size, chunks and foreign memory.
  lemma ChunksSame(mem: Image, s: Pool, t: Pool)
    requires Sized(s) && ChunksMapped(mem, s)
    requires t.size == s.size && t.chunks == s.chunks && t.foreign == s.foreign
    ensures Sized(t) && ChunksMapped(mem, t) && ChunkBytes(t) == ChunkBytes(s)
  {
    hide Per;
    assert ChunkBytes(t) == ChunkBytes(s);
    hide ChunkBytes;
    forall j | 0 <= j < |t.chunks| ensures Mapped(mem, t.chunks[j], ChunkBytes(t)) {
      assert Mapped(mem, s.chunks[j], ChunkBytes(s));
    }
    forall i | i in mem ensures i in t.foreign || InChunk(t, i) {
      assert i in s.foreign || InChunk(s, i);
    }
  }

  // The system's answer avoids all mapped memory.
  lemma RoomIsFresh(mem: Image, list: nat, s: Pool, at: nat)
    requires Ok(s) && Coupled(mem, list, s) && Room(s, at)
    ensures Fresh(mem, at, ChunkBytes(s))
  {
    hide Per, ChunkBytes, Layout, Homes, NoGaps, Partition, Totals, AllZero, Chain, Mapped;
    forall i | i in mem ensures !(at <= i < at + ChunkBytes(s)) {
      if i !in s.foreign {
        var j :| 0 <= j < |s.chunks| && s.chunks[j] <= i < s.chunks[j] + ChunkBytes(s);
        assert Fits(s.chunks[j], ChunkBytes(s), at, ChunkBytes(s));
      }
    }
  }

  ghost predicate TailApart(s: Pool, p: nat) {
    Fits(s.tail, s.left * s.size, p, s.size)
  }

  lemma OthersApart(s: Pool, p: nat)
    requires Ok(s) && p in s.objs
    ensures s.size >= 8 && TailApart(s, p)
    ensures forall a :: a in s.objs && a != p ==> Apart(s, a, p)
  {
    hide Per, Homes, NoGaps, Partition, Totals;
  }

  lemma ListKept(mem: Image, mem': Image, s: Pool, p: nat, q: seq<nat>)
    requires s.size >= 8 && mem'.Keys == mem.Keys
    requires forall i :: i in mem && !(p <= i < p + s.size) ==> mem'[i] == mem[i]
    requires forall a :: a in s.objs && a != p ==> Apart(s, a, p)
    requires forall a :: a in q ==> a in s.objs && a != p
    ensures forall a, i :: a in q && a <= i < a + 8 && i in mem ==> i in mem' && mem'[i] == mem[i]
  {
    forall a, i | a in q && a <= i < a + 8 && i in mem ensures i in mem' && mem'[i] == mem[i] {
      assert Apart(s, a, p);
    }
  }

  lemma TailKept(mem: Image, mem': Image, s: Pool, p: nat)
    requires TailZero(mem, s) && TailApart(s, p)
    requires mem'.Keys == mem.Keys && forall i :: i in mem && !(p <= i < p + s.size) ==> mem'[i] == mem[i]
    ensures TailZero(mem', s)
  {
  }

  ghost predicate Fresh(mem: Image, at: nat, len: nat) {
    forall i :: at <= i < at + len ==> i !in mem
  }

  // ---------------------------------------------------------------- alloc, from the list

  lemma PopImage(mem: Image, mem': Image, list: nat, s: Pool)
    requires Ok(s) && Coupled(mem, list, s) && s.list != [] && mem'.Keys == mem.Keys
    requires forall i :: i in mem && !(s.list[0] <= i < s.list[0] + s.size) ==> mem'[i] == mem[i]
    ensures list == s.list[0] && Mapped(mem, list, s.size) && Ok(Pop(s))
    ensures Coupled(mem', Next(mem, list), Pop(s))
  {
    var t := Pop(s);
    ListedObjects(s);
    ObjectMapped(mem, list, s, s.list[0]);
    PopOk(s);
    FrameOk(s, t);
    hide Per, Ok, ChunkBytes, AllZero, Mapped, Next, ChunksMapped;
    ChainHead(mem, list, s.list);
    assert s.list == [s.list[0]] + t.list;
    ObjectFrame(mem, mem', list, s, s.list[0], t.list, Next(mem, list));
    ChunksSame(mem', s, t);
  }

  lemma ChainHead(mem: Image, p: nat, q: seq<nat>)
    requires Chain(mem, p, q) && q != []
    ensures p == q[0] && Mapped(mem, p, 8) && Chain(mem, Next(mem, p), q[1..])
  {
  }

  lemma ListedObjects(s: Pool)
    requires Ok(s)
    ensures forall a :: a in s.list ==> a in s.objs && a !in s.live
    ensures forall i :: 0 < i < |s.list| ==> s.list[i] != s.list[0]
  {
  }

  // ---------------------------------------------------------------- alloc, a new chunk

  lemma RefillImage(mem: Image, list: nat, s: Pool, at: nat)
    requires Ok(s) && Coupled(mem, list, s) && s.left == 0 && Room(s, at)
    ensures Ok(Refill(s, at)) && ChunkBytes(Refill(s, at)) == ChunkBytes(s)
    ensures Fresh(mem, at, ChunkBytes(s))
    ensures Coupled(Map(mem, at, ChunkBytes(s)), list, Refill(s, at))
  {
    RefillOk(s, at);
    RoomIsFresh(mem, list, s, at);
    var mem' := Map(mem, at, ChunkBytes(s));
    var t := Refill(s, at);
    assert t.left * t.size == ChunkBytes(s) == ChunkBytes(t);
    hide Per, Ok, ChunkBytes, InChunk, Map;
    MapKeeps(mem, at, ChunkBytes(s));
    ChainFrame(mem, mem', list, s.list);
    RefillMapped(mem, s, at);
  }

  lemma RefillMapped(mem: Image, s: Pool, at: nat)
    requires Sized(s) && ChunksMapped(mem, s) && s.left == 0
    ensures ChunksMapped(Map(mem, at, ChunkBytes(s)), Refill(s, at))
  {
    hide Per;
    var t := Refill(s, at);
    var mem' := Map(mem, at, ChunkBytes(s));
    assert ChunkBytes(t) == ChunkBytes(s);
    hide ChunkBytes, Map;
    forall j | 0 <= j < |t.chunks| ensures Mapped(mem', t.chunks[j], ChunkBytes(t)) {
      if j < |s.chunks| { assert Mapped(mem, s.chunks[j], ChunkBytes(s)); }
    }
    forall i | i in mem' ensures i in t.foreign || InChunk(t, i) {
      if i in mem {
        assert i in s.foreign || InChunk(s, i);
        if i !in s.foreign {
          var j :| 0 <= j < |s.chunks| && s.chunks[j] <= i < s.chunks[j] + ChunkBytes(s);
          assert t.chunks[j] == s.chunks[j];
        }
      } else {
        assert t.chunks[|s.chunks|] == at;
      }
    }
  }

  // ---------------------------------------------------------------- alloc, the next object

  lemma CarveImage(mem: Image, list: nat, s: Pool)
    requires Ok(s) && Coupled(mem, list, s) && s.left > 0
    ensures Ok(Carve(s)) && ChunkBytes(Carve(s)) == ChunkBytes(s) && Coupled(mem, list, Carve(s))
    ensures s.left * s.size == s.size + (s.left - 1) * s.size
    ensures AllZero(mem, s.tail, s.size) && s.tail > 0 && s.tail + s.size < UINTPTR
  {
    hide *;
    CarveOk(s);
    CarveSized(s);
    TailFits(s);
    TailSplits(mem, list, s);
    CarvedKept(mem, list, s);
  }

  lemma CarveSized(s: Pool)
    requires Ok(s) && s.left > 0
    ensures Sized(s) && ChunkBytes(Carve(s)) == ChunkBytes(s)
  {
    hide Per;
  }

  lemma TailSplits(mem: Image, list: nat, s: Pool)
    requires Sized(s) && Coupled(mem, list, s) && s.left > 0
    ensures s.left * s.size == s.size + (s.left - 1) * s.size && (s.left - 1) * s.size >= 0
    ensures AllZero(mem, s.tail, s.size) && AllZero(mem, s.tail + s.size, (s.left - 1) * s.size)
  {
    hide Chain, ChunksMapped, AllZero, Per;
    OneMore(s.left - 1, s.size);
    ZeroSplit(mem, s.tail, s.size, (s.left - 1) * s.size);
  }

  lemma ZeroSplit(mem: Image, lo: nat, a: nat, b: nat)
    requires AllZero(mem, lo, a + b)
    ensures AllZero(mem, lo, a) && AllZero(mem, lo + a, b)
  {
  }

  lemma CarvedKept(mem: Image, list: nat, s: Pool)
    requires Sized(s) && s.left > 0 && Coupled(mem, list, s) && (s.left - 1) * s.size >= 0
    requires AllZero(mem, s.tail + s.size, (s.left - 1) * s.size)
    ensures Coupled(mem, list, Carve(s))
  {
    hide Per, Chain, Mapped, AllZero, ChunksMapped;
    ChunksSame(mem, s, Carve(s));
  }

  lemma OneMore(a: nat, z: nat)
    ensures (a + 1) * z == z + a * z && a * z >= 0
  {
  }

  lemma TailFits(s: Pool)
    requires Ok(s) && s.left > 0
    ensures s.tail > 0 && s.tail + s.size < UINTPTR
  {
    hide Per, Layout, NoGaps, Partition;
    OneMore(s.left - 1, s.size);
    assert Inside(s, s.tail, s.left * s.size);
  }

  // ---------------------------------------------------------------- free

  lemma PushImage(mem: Image, list: nat, s: Pool, p: nat)
    requires Ok(s) && Coupled(mem, list, s) && p in s.live && list < UINTPTR
    ensures p > 0 && Mapped(mem, p, s.size) && Ok(Free(s, p)) && ChunkBytes(Free(s, p)) == ChunkBytes(s)
    ensures Coupled(Put(mem, p, Encode(list, 8)), p, Free(s, p))
  {
    var t := Free(s, p);
    var mem' := Put(mem, p, Encode(list, 8));
    LiveObject(s, p);
    ObjectMapped(mem, list, s, p);
    FreeOk(s, p);
    FrameOk(s, t);
    ListedObjects(s);
    hide Per, Ok, ChunkBytes, ChunksMapped;
    ObjectFrame(mem, mem', list, s, p, s.list, list);
    ChunksSame(mem', s, t);
    LinkStored(mem, p, list);
    assert t.list[1..] == s.list;
  }

  lemma LiveObject(s: Pool, p: nat)
    requires Ok(s) && p in s.live
    ensures p in s.objs
  {
  }

  lemma LinkStored(mem: Image, p: nat, x: nat)
    requires Mapped(mem, p, 8) && x < UINTPTR
    ensures Mapped(Put(mem, p, Encode(x, 8)), p, 8) && Next(Put(mem, p, Encode(x, 8)), p) == x
  {
    assert BytesAt(Put(mem, p, Encode(x, 8)), p, 8) == Encode(x, 8);
    EightBytes();
    DecodeEncode(x, 8);
  }

  lemma EightBytes()
    ensures Values(8) == UINTPTR
  {
    assert Values(4) == 0x1_0000_0000;
  }

  // ---------------------------------------------------------------- the allocator

  // A panic of the allocator, memory that persistentAlloc cannot get (it
  // throws), or an object.
  datatype Outcome = Panic | OutOfMemory | Object(p: nat)

  // What an allocator's fields say of its pool and of memory.
  ghost predicate Fields(mem: Image, size: nat, list: nat, chunk: nat, nchunk: nat, nalloc: nat, inuse: nat, s: Pool) {
    && s.size == size && Ok(s) && Coupled(mem, list, s)
    && nalloc == ChunkBytes(s) && nchunk == s.left * s.size && chunk == s.tail
    && inuse == |s.live| * s.size
  }

  // No count in a uintptr wraps.
  lemma InUse(s: Pool)
    requires Ok(s)
    ensures Sized(s) && (|s.live| + 1) * s.size == |s.live| * s.size + s.size
    ensures |s.live| * s.size < UINTPTR
    ensures |s.live| > 0 ==> (|s.live| - 1) * s.size == |s.live| * s.size - s.size >= 0
  {
    hide Layout, Homes, NoGaps, Partition, Per;
    Conservation(s);
    var n, z := |s.live|, s.size;
    OneMore(n, z);
    if n > 0 { OneMore(n - 1, z); }
    if s.chunks == [] {
      NoChunks(s);
    }
    assert s.size * |s.list| >= 0 && s.left * s.size >= 0;
  }

  lemma NoChunks(s: Pool)
    requires Ok(s) && s.chunks == []
    ensures |s.live| * s.size == 0
  {
    hide Layout, Homes, NoGaps, Partition;
    assert |s.chunks| * Per(s.size) == 0;
    assert |s.live| == 0;
  }

  lemma PopFields(mem: Image, size: nat, list: nat, chunk: nat, nchunk: nat, nalloc: nat, inuse: nat,
                  s: Pool, mem': Image)
    requires Fields(mem, size, list, chunk, nchunk, nalloc, inuse, s) && list != 0 && mem'.Keys == mem.Keys
    requires forall i :: i in mem && !(list <= i < list + size) ==> mem'[i] == mem[i]
    ensures s.list != [] && list == s.list[0] && Mapped(mem, list, size) && size >= 8
    ensures inuse + size < UINTPTR
    ensures Fields(mem', size, Next(mem, list), chunk, nchunk, nalloc, inuse + size, Pop(s))
  {
    hide Ok, Per, ChunkBytes, Next, AllZero;
    SizedOk(s);
    PopImage(mem, mem', list, s);
    SameChunks(s, Pop(s));
    PopLive(s);
    InUse(s);
    InUse(Pop(s));
  }

  lemma SizedOk(s: Pool)
    requires Ok(s)
    ensures Sized(s)
  {
  }

  lemma SameChunks(s: Pool, t: Pool)
    requires Sized(s) && t.size == s.size
    ensures ChunkBytes(t) == ChunkBytes(s)
  {
  }

  lemma PopLive(s: Pool)
    requires Ok(s) && s.list != []
    ensures |Pop(s).live| == |s.live| + 1
  {
    ListedObjects(s);
  }

  lemma RefillFields(mem: Image, size: nat, list: nat, chunk: nat, nchunk: nat, nalloc: nat, inuse: nat,
                     s: Pool, at: nat)
    requires Fields(mem, size, list, chunk, nchunk, nalloc, inuse, s) && nchunk < size
    requires Room(s, at)
    ensures s.left == 0 && Fresh(mem, at, nalloc)
    ensures Fields(Map(mem, at, nalloc), size, list, at, nalloc, nalloc, inuse, Refill(s, at))
    ensures Refill(s, at).left > 0
  {
    SizedOk(s);
    Conservation(s);
    RefillOk(s, at);
    RefillImage(mem, list, s, at);
  }

  lemma NoRefill(mem: Image, size: nat, list: nat, chunk: nat, nchunk: nat, nalloc: nat, inuse: nat, s: Pool)
    requires Fields(mem, size, list, chunk, nchunk, nalloc, inuse, s)
    ensures nchunk < size <==> s.left == 0
    ensures list == 0 <==> s.list == []
  {
    Conservation(s);
  }

  lemma CarveFields(mem: Image, size: nat, list: nat, chunk: nat, nchunk: nat, nalloc: nat, inuse: nat, s: Pool)
    requires Fields(mem, size, list, chunk, nchunk, nalloc, inuse, s) && s.left > 0
    ensures chunk + size < UINTPTR && nchunk >= size && inuse + size < UINTPTR && chunk > 0
    ensures AllZero(mem, chunk, size)
    ensures Fields(mem, size, list, chunk + size, nchunk - size, nalloc, inuse + size, Carve(s))
  {
    hide Ok, Per, ChunkBytes, AllZero, Chain;
    SizedOk(s);
    CarveImage(mem, list, s);
    CarveLive(s);
    InUse(s);
    InUse(Carve(s));
    OneMore(s.left - 1, s.size);
  }

  lemma CarveLive(s: Pool)
    requires Ok(s) && s.left > 0
    ensures |Carve(s).live| == |s.live| + 1
  {
    CarveOk(s);
    hide Layout, Homes, NoGaps, Totals, Per;
    assert s.tail !in s.live;
  }

  lemma PushFields(mem: Image, size: nat, list: nat, chunk: nat, nchunk: nat, nalloc: nat, inuse: nat, s: Pool, p: nat)
    requires Fields(mem, size, list, chunk, nchunk, nalloc, inuse, s) && p in s.live
    ensures size <= inuse < UINTPTR && list < UINTPTR && p > 0
    ensures Mapped(mem, p, size) && size >= 8
    ensures Fields(Put(mem, p, Encode(list, 8)), size, p, chunk, nchunk, nalloc, inuse - size, Free(s, p))
  {
    hide Ok, Per, ChunkBytes, AllZero, Put, Encode;
    SizedOk(s);
    ListBelow(mem, list, s);
    PushImage(mem, list, s, p);
    SameChunks(s, Free(s, p));
    assert s.live == Free(s, p).live + {p};
    InUse(s);
  }

  lemma ListBelow(mem: Image, list: nat, s: Pool)
    requires Ok(s) && Coupled(mem, list, s)
    ensures list < UINTPTR
  {
    if s.list != [] {
      ListedObjects(s);
      assert s.list[0] in s.list;
      assert Inside(s, s.list[0], s.size);
    }
  }

  lemma ChunkIs(size: nat, nalloc: nat)
    requires 8 <= size <= CHUNK && nalloc == CHUNK / size * size
    ensures nalloc <= 16384 < nalloc + size && nalloc % size == 0
  {
    Quotient(16384, size);
    MultipleMod(CHUNK / size, size);
  }

  class Fixalloc {
    var size: nat
    var list: nat
    var chunk: nat
    var nchunk: nat
    var nalloc: nat
    var inuse: nat
    var zero: bool
    var mem: Image
    ghost var pool: Pool

    // A struct that was never initialised, or one that tells of its pool.
    ghost predicate Valid()
      reads this
    {
      size != 0 ==> Fields(mem, size, list, chunk, nchunk, nalloc, inuse, pool)
    }

    constructor (mem: Image)
      ensures Valid() && size == 0 && this.mem == mem
    {
      size, list, chunk, nchunk, nalloc, inuse, zero := 0, 0, 0, 0, 0, 0, false;
      this.mem := mem;
      pool := Start(8, mem.Keys);
    }

    // init. The size is checked before it is raised to that of a link.
    method Init(size: nat) returns (ok: bool)
      requires Valid()
      modifies this
      ensures Valid() && mem == old(mem)
      ensures ok <==> size <= CHUNK
      ensures ok ==> pool == Start(if size < 8 then 8 else size, mem.Keys) && this.size == pool.size && zero
      // Chunks are asked for by the largest multiple of the object size up to 16 KiB.
      ensures ok ==> nalloc <= 16384 < nalloc + this.size && nalloc % this.size == 0
      ensures ok ==> list == chunk == nchunk == inuse == 0
      ensures !ok ==> this.size == old(this.size) && pool == old(pool) && zero == old(zero)
    {
      if size > CHUNK {
        return false;
      }
      this.size := if size < 8 then 8 else size;
      list, chunk, nchunk := 0, 0, 0;
      nalloc := CHUNK / this.size * this.size;
      inuse, zero := 0, true;
      pool := Start(this.size, mem.Keys);
      ok := true;
      StartOk(this.size, mem.Keys);
      ChunkIs(this.size, nalloc);
      hide Ok, Per;
    }

    // alloc; `sys` is what persistentAlloc answers if it is called.
    method Alloc(sys: Answer) returns (r: Outcome)
      requires Valid()
      requires size != 0 && Empty(pool) && sys.Granted? ==> Sized(pool) && Room(pool, sys.at)
      modifies this`list, this`chunk, this`nchunk, this`inuse, this`mem, this`pool
      ensures Valid()
      ensures r.Panic? <==> size == 0
      ensures size != 0 ==> (r.OutOfMemory? <==> Empty(old(pool)) && sys.Refused?)
      ensures !r.Object? ==> pool == old(pool) && mem == old(mem)
      ensures inuse == old(inuse) + if r.Object? then size else 0
      ensures r.Object? ==>
                Sized(old(pool)) && pool == FixPools.Alloc(old(pool), Place(sys)) && r.p == Given(old(pool), Place(sys))
      // Memory is mapped for a new chunk only.
      ensures r.Object? ==>
                forall i :: i in mem <==>
                              i in old(mem) || (Empty(old(pool)) && Place(sys) <= i < Place(sys) + nalloc)
      // The object reads as zero, unless clearing is switched off and it was used
      // before; nothing else that was mapped has changed.
      ensures r.Object? ==> Mapped(mem, r.p, size) && (zero || old(pool.list) == [] ==> AllZero(mem, r.p, size))
      ensures r.Object? && !zero && old(pool.list) != [] ==> mem == old(mem)
      ensures r.Object? ==> forall i :: i in old(mem) && !(r.p <= i < r.p + size) ==> i in mem && mem[i] == old(mem)[i]
    {
      hide Fields, Pop, Carve, Refill, Put, Map, Zeros, Per, ChunkBytes, AllZero, Mapped, Room, Fresh;
      if size == 0 {
        return Panic;
      }
      PoolSized(mem, size, list, chunk, nchunk, nalloc, inuse, pool);
      NoRefill(mem, size, list, chunk, nchunk, nalloc, inuse, pool);
      if list != 0 {
        ghost var mem0 := mem;
        var v := Reuse();
        if zero {
          ZeroedObject(mem0, v, size);
        }
        r := Object(v);
      } else {
        ghost var mem0 := mem;
        r := Bump(sys);
        if r.Object? && mem != mem0 {
          MapKeeps(mem0, sys.at, nalloc);
        }
        if r.Object? {
          ZeroIsMapped(mem, r.p, size);
        }
      }
    }

    // alloc, from the list of freed objects.
    method Reuse() returns (v: nat)
      requires Valid() && size != 0 && list != 0
      modifies this`list, this`inuse, this`mem, this`pool
      ensures Valid() && old(pool).list != [] && v == old(pool).list[0] && pool == Pop(old(pool))
      ensures inuse == old(inuse) + size
      ensures Mapped(old(mem), v, size) && mem == if zero then Put(old(mem), v, Zeros(size)) else old(mem)
    {
      hide Fields, Pop, Put, Next, Zeros;
      v := list;
      PopFields(mem, size, list, chunk, nchunk, nalloc, inuse, pool, if zero then Put(mem, v, Zeros(size)) else mem);
      list := Next(mem, v);
      inuse := (inuse + size) % UINTPTR;
      if zero {
        mem := Put(mem, v, Zeros(size));
      }
      pool := Pop(pool);
    }

    // alloc, from the latest chunk or a new one.
    method Bump(sys: Answer) returns (r: Outcome)
      requires Valid() && size != 0 && list == 0
      requires pool.left == 0 && sys.Granted? ==> Sized(pool) && Room(pool, sys.at)
      modifies this`chunk, this`nchunk, this`inuse, this`mem, this`pool
      ensures Valid() && !r.Panic? && (r.OutOfMemory? <==> old(pool).left == 0 && sys.Refused?)
      ensures r.OutOfMemory? ==> pool == old(pool) && mem == old(mem)
      ensures inuse == old(inuse) + if r.Object? then size else 0
      ensures r.Object? ==>
                Sized(old(pool)) &&
                var t := Refill(old(pool), Place(sys));
                t.left > 0 && pool == Carve(t) && r.p == t.tail && AllZero(mem, r.p, size)
      ensures r.Object? && old(pool).left > 0 ==> mem == old(mem)
      ensures r.Object? && old(pool).left == 0 ==>
                Fresh(old(mem), Place(sys), nalloc) && mem == Map(old(mem), Place(sys), nalloc)
    {
      hide Fields, Carve, Refill, Map, Per, ChunkBytes, AllZero, Room, Fresh, Sized;
      PoolSized(mem, size, list, chunk, nchunk, nalloc, inuse, pool);
      NoRefill(mem, size, list, chunk, nchunk, nalloc, inuse, pool);
      if nchunk < size {
        if sys.Refused? {
          return OutOfMemory;
        }
        RefillFields(mem, size, list, chunk, nchunk, nalloc, inuse, pool, sys.at);
        chunk := sys.at;
        mem := Map(mem, sys.at, nalloc);
        nchunk := nalloc;
        pool := Refill(pool, sys.at);
      } else {
        FullPool(pool, Place(sys));
      }
      PoolSized(mem, size, list, chunk, nchunk, nalloc, inuse, pool);
      CarveFields(mem, size, list, chunk, nchunk, nalloc, inuse, pool);
      NoWrap(chunk + size);
      NoWrap(inuse + size);
      r := Object(chunk);
      chunk := (chunk + size) % UINTPTR;
      nchunk := nchunk - size;
      inuse := (inuse + size) % UINTPTR;
      pool := Carve(pool);
    }

    method Free(p: nat)
      requires Valid() && size != 0 && p in pool.live
      modifies this`list, this`inuse, this`mem, this`pool
      ensures Valid() && pool == FixPools.Free(old(pool), p) && mem.Keys == old(mem).Keys
      ensures inuse + size == old(inuse) && list == p
      ensures Mapped(mem, p, 8) && Next(mem, p) == old(list)
      ensures forall i :: i in old(mem) && !(p <= i < p + 8) ==> i in mem && mem[i] == old(mem)[i]
    {
      hide Fields, Put, Encode, Next;
      PushFields(mem, size, list, chunk, nchunk, nalloc, inuse, pool, p);
      LinkStored(mem, p, list);
      inuse := (inuse + UINTPTR - size) % UINTPTR;
      mem := Put(mem, p, Encode(list, 8));
      list := p;
      pool := FixPools.Free(pool, p);
    }

    // What a client does between calls: it writes inside an object it owns.
    method Write(p: nat, off: nat, bs: seq<byte>)
      requires Valid() && size != 0 && p in pool.live && off + |bs| <= size
      modifies this`mem
      ensures Valid() && mem.Keys == old(mem).Keys
      ensures forall i :: i in old(mem) ==>
                i in mem && mem[i] == if p + off <= i < p + off + |bs| then bs[i - (p + off)] else old(mem)[i]
    {
      hide Fields;
      WriteFields(mem, size, list, chunk, nchunk, nalloc, inuse, pool, p, Put(mem, p + off, bs));
      mem := Put(mem, p + off, bs);
    }
  }

  lemma ZeroedObject(mem: Image, v: nat, size: nat)
    requires Mapped(mem, v, size)
    ensures Mapped(Put(mem, v, Zeros(size)), v, size) && AllZero(Put(mem, v, Zeros(size)), v, size)
  {
  }

  lemma MapKeeps(mem: Image, at: nat, len: nat)
    requires Fresh(mem, at, len)
    ensures forall i :: i in mem ==> i in Map(mem, at, len) && Map(mem, at, len)[i] == mem[i]
  {
  }

  lemma ZeroIsMapped(mem: Image, v: nat, size: nat)
    requires AllZero(mem, v, size)
    ensures Mapped(mem, v, size)
  {
  }

  lemma NoWrap(x: nat)
    requires x < UINTPTR
    ensures x % UINTPTR == x
  {
  }

  lemma PoolSized(mem: Image, size: nat, list: nat, chunk: nat, nchunk: nat, nalloc: nat, inuse: nat, s: Pool)
    requires Fields(mem, size, list, chunk, nchunk, nalloc, inuse, s)
    ensures Sized(s) && nalloc == ChunkBytes(s) && size == s.size && chunk == s.tail
  {
  }

  lemma FullPool(s: Pool, at: nat)
    requires Sized(s) && s.left > 0
    ensures Refill(s, at) == s
  {
  }

  lemma WriteFields(mem: Image, size: nat, list: nat, chunk: nat, nchunk: nat, nalloc: nat, inuse: nat,
                    s: Pool, p: nat, mem': Image)
    requires Fields(mem, size, list, chunk, nchunk, nalloc, inuse, s) && p in s.live && mem'.Keys == mem.Keys
    requires forall i :: i in mem && !(p <= i < p + size) ==> mem'[i] == mem[i]
    ensures Fields(mem', size, list, chunk, nchunk, nalloc, inuse, s)
  {
    SizedOk(s);
    LiveObject(s, p);
    ListedObjects(s);
    hide Per, Ok, ChunkBytes, ChunksMapped, AllZero;
    ObjectFrame(mem, mem', list, s, p, s.list, list);
  }
}
