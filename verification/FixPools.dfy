// The fixed-size allocator without its bytes: the objects ever carved from its
// chunks, which of them are live, which are listed, and the unused tail.

module FixPools {
  import opened Arithmetic
  import Memory

  const CHUNK: nat := 16384                          // _FixAllocChunk
  const UINTPTR: nat := 0x1_0000_0000_0000_0000

  datatype Pool = Pool(
    size: nat,             // bytes of an object
    chunks: seq<nat>,      // the chunks, latest last
    objs: seq<nat>,        // every object ever carved, in order
    tail: nat,             // where the next object would be carved
    left: nat,             // objects that still fit behind it
    list: seq<nat>,        // freed objects, latest first
    live: set<nat>,        // what the clients own
    foreign: set<nat>)     // addresses that others had mapped at the start

  // What the system answers when it is asked for a chunk.
  datatype Answer = Refused | Granted(at: nat)

  // Objects in a chunk.
  function Per(size: nat): (n: nat)
    requires 0 < size <= CHUNK
    ensures n >= 1
  {
    CHUNK / size
  }

  predicate Sized(s: Pool) { 8 <= s.size <= CHUNK }

  // Bytes asked for at a time.
  function ChunkBytes(s: Pool): nat
    requires Sized(s)
  {
    Per(s.size) * s.size
  }

  // ---------------------------------------------------------------- operations

  function Start(size: nat, foreign: set<nat>): Pool { Pool(size, [], [], 0, 0, [], {}, foreign) }

  // The next allocation has to ask for a chunk.
  predicate Empty(s: Pool) { s.list == [] && s.left == 0 }

  function Place(sys: Answer): nat { if sys.Granted? then sys.at else 0 }

  predicate Fits(lo: nat, len: nat, at: nat, len': nat) { lo + len <= at || at + len' <= lo }

  // Where the system can put a new chunk: on unused addresses, NULL excluded.
  predicate Room(s: Pool, at: nat)
    requires Sized(s)
  {
    && at > 0 && at + ChunkBytes(s) < UINTPTR
    && (|s.chunks| + 1) * ChunkBytes(s) < UINTPTR
    && (forall j :: 0 <= j < |s.chunks| ==> Fits(s.chunks[j], ChunkBytes(s), at, ChunkBytes(s)))
    && (forall i :: i in s.foreign ==> !(at <= i < at + ChunkBytes(s)))
  }

  function Refill(s: Pool, at: nat): Pool
    requires Sized(s)
  {
    if s.left > 0 then s else s.(chunks := s.chunks + [at], tail := at, left := Per(s.size))
  }

  function Carve(s: Pool): Pool
    requires s.left > 0
  {
    s.(objs := s.objs + [s.tail], tail := s.tail + s.size, left := s.left - 1, live := s.live + {s.tail})
  }

  function Pop(s: Pool): Pool
    requires s.list != []
  {
    s.(list := s.list[1..], live := s.live + {s.list[0]})
  }

  // The object handed out is the one that the result has live and s has not.
  function Alloc(s: Pool, at: nat): Pool
    requires Sized(s)
  {
    if s.list != [] then Pop(s) else Carve(Refill(s, at))
  }

  function Given(s: Pool, at: nat): nat
    requires Sized(s)
  {
    if s.list != [] then s.list[0] else Refill(s, at).tail
  }

  function Free(s: Pool, p: nat): Pool {
    s.(list := [p] + s.list, live := s.live - {p})
  }

  // ---------------------------------------------------------------- invariant

  ghost predicate Apart(s: Pool, a: nat, b: nat) { a + s.size <= b || b + s.size <= a }

  // Carved objects overlap neither each other nor the tail.
  ghost predicate Layout(s: Pool) {
    && (forall a, b :: a in s.objs && b in s.objs && a != b ==> Apart(s, a, b))
    && (forall a :: a in s.objs ==> a > 0 && Fits(s.tail, s.left * s.size, a, s.size))
    && Distinct(s.objs)
  }

  // Objects and tail lie in the chunks.
  ghost predicate Inside(s: Pool, lo: nat, len: nat)
    requires Sized(s)
  {
    exists j :: 0 <= j < |s.chunks| && s.chunks[j] <= lo && lo + len <= s.chunks[j] + ChunkBytes(s)
  }

  ghost predicate Homes(s: Pool)
    requires Sized(s)
  {
    && (forall a :: a in s.objs ==> Inside(s, a, s.size))
    && (s.left > 0 ==> s.tail > 0 && Inside(s, s.tail, s.left * s.size))
    && (forall j :: 0 <= j < |s.chunks| ==> s.chunks[j] + ChunkBytes(s) < UINTPTR)
  }

  ghost predicate Covered(s: Pool, i: nat) {
    (exists a :: a in s.objs && a <= i < a + s.size) || s.tail <= i < s.tail + s.left * s.size
  }

  // Nothing of a chunk is lost.
  ghost predicate NoGaps(s: Pool)
    requires Sized(s)
  {
    forall j, i :: 0 <= j < |s.chunks| && s.chunks[j] <= i < s.chunks[j] + ChunkBytes(s) ==> Covered(s, i)
  }

  ghost predicate Partition(s: Pool) {
    && Distinct(s.list)
    && (forall a :: a in s.list ==> a in s.objs && a !in s.live)
    && (forall a :: a in s.live ==> a in s.objs)
    && (forall a :: a in s.objs ==> a in s.live || a in s.list)
  }

  ghost predicate Totals(s: Pool)
    requires Sized(s)
  {
    && |s.live| + |s.list| == |s.objs|
    && |s.objs| + s.left == |s.chunks| * Per(s.size)
    && s.left <= Per(s.size)
    && (s.chunks == [] || |s.chunks| * ChunkBytes(s) < UINTPTR)
  }

  ghost predicate Ok(s: Pool) {
    Sized(s) && Layout(s) && Homes(s) && NoGaps(s) && Partition(s) && Totals(s)
  }

  // ---------------------------------------------------------------- preservation

  lemma StartOk(size: nat, foreign: set<nat>)
    requires 8 <= size <= CHUNK
    ensures Ok(Start(size, foreign))
  {
    hide Per;
  }

  lemma FreeOk(s: Pool, p: nat)
    requires Ok(s) && p in s.live
    ensures Ok(Free(s, p))
  {
    hide Per, Layout, Homes, NoGaps, ChunkBytes;
    var t := Free(s, p);
    assert s.live == t.live + {p};
    FrameOk(s, t);
  }

  // The layout depends on chunks, objects and tail only.
  lemma FrameOk(s: Pool, t: Pool)
    requires Ok(s)
    requires t.size == s.size && t.chunks == s.chunks && t.objs == s.objs && t.tail == s.tail && t.left == s.left
    ensures Sized(t) && Layout(t) && Homes(t) && NoGaps(t) && ChunkBytes(t) == ChunkBytes(s)
  {
    hide Per, Inside, Covered;
    assert ChunkBytes(t) == ChunkBytes(s);
    hide ChunkBytes;
    SameInside(s, t);
    SameCovered(s, t);
  }

  lemma SameInside(s: Pool, t: Pool)
    requires Sized(s) && t.size == s.size && t.chunks == s.chunks
    ensures forall lo, len :: Inside(t, lo, len) <==> Inside(s, lo, len)
  {
    hide Per;
  }

  lemma SameCovered(s: Pool, t: Pool)
    requires t.size == s.size && t.objs == s.objs && t.tail == s.tail && t.left == s.left
    ensures forall i :: Covered(t, i) <==> Covered(s, i)
  {
  }

  lemma PopOk(s: Pool)
    requires Ok(s) && s.list != []
    ensures Ok(Pop(s))
  {
    hide Per, Layout, Homes, NoGaps, ChunkBytes;
    var t := Pop(s);
    assert s.list == [s.list[0]] + t.list;
    assert s.list[0] in s.list;
    FrameOk(s, t);
  }

  lemma RefillOk(s: Pool, at: nat)
    requires Ok(s) && (s.left == 0 ==> Room(s, at))
    ensures Ok(Refill(s, at)) && Refill(s, at).left > 0
  {
    if s.left == 0 {
      hide Per;
      var t := Refill(s, at);
      var n := ChunkBytes(s);
      assert t.left * t.size == n;
      assert t.chunks[|s.chunks|] == at;
      forall a | a in t.objs ensures Fits(t.tail, n, a, t.size) && Inside(t, a, t.size) {
        assert Inside(s, a, s.size);
        var j :| 0 <= j < |s.chunks| && s.chunks[j] <= a && a + s.size <= s.chunks[j] + n;
        assert Fits(s.chunks[j], n, at, n) && t.chunks[j] == s.chunks[j];
      }
      RefillNoGaps(s, at);
      RefillTotals(s, at);
      assert Inside(t, t.tail, n);
    }
  }

  lemma RefillNoGaps(s: Pool, at: nat)
    requires Sized(s) && NoGaps(s) && s.left == 0
    ensures NoGaps(Refill(s, at))
  {
    hide Per;
    var t := Refill(s, at);
    assert t.left * t.size == ChunkBytes(s) && 0 * s.size == 0;
    forall j, i | 0 <= j < |t.chunks| && t.chunks[j] <= i < t.chunks[j] + ChunkBytes(t) ensures Covered(t, i) {
      if j < |s.chunks| {
        assert s.chunks[j] == t.chunks[j];
        assert Covered(s, i);
      }
    }
  }

  lemma RefillTotals(s: Pool, at: nat)
    requires Sized(s) && Totals(s) && s.left == 0 && Room(s, at)
    ensures Totals(Refill(s, at))
  {
    var n, k := Per(s.size), |s.chunks|;
    assert (k + 1) * n == k * n + n;
    hide Per;
    assert |Refill(s, at).chunks| == k + 1;
  }

  lemma CarveOk(s: Pool)
    requires Ok(s) && s.left > 0
    ensures Ok(Carve(s)) && s.tail !in s.objs
  {
    hide Per, Layout, Homes, NoGaps, ChunkBytes;
    CarveLayout(s);
    CarveHomes(s);
    CarveNoGaps(s);
    var t := Carve(s);
    assert forall a :: a in t.objs ==> a in s.objs || a == s.tail;
    assert s.tail in t.objs;
    assert s.tail !in s.live;
  }

  lemma CarveLayout(s: Pool)
    requires Sized(s) && Layout(s) && Homes(s) && s.left > 0
    ensures Layout(Carve(s)) && s.tail !in s.objs
  {
    hide Inside, Fits, Per;
    var t := Carve(s);
    var rest := t.left * s.size;
    Distribute(t.left, 1, s.size);
    forall a | a in s.objs ensures a != s.tail && Apart(s, a, s.tail) && Fits(t.tail, rest, a, s.size) {
      TailCleared(s.tail, s.size, rest, a);
    }
    assert Fits(t.tail, rest, s.tail, s.size) by { TailNext(s.tail, s.size, rest); }
    assert forall a :: a in t.objs ==> a in s.objs || a == s.tail;
    assert s.tail !in s.objs;
    assert Distinct(t.objs);
    forall a, b | a in t.objs && b in t.objs && a != b ensures Apart(t, a, b) {
      if a in s.objs && b in s.objs { assert Apart(s, a, b); }
    }
  }

  lemma TailCleared(tail: nat, size: nat, rest: nat, a: nat)
    requires size > 0 && Fits(tail, size + rest, a, size)
    ensures a != tail && (a + size <= tail || tail + size <= a) && Fits(tail + size, rest, a, size)
  {
  }

  lemma TailNext(tail: nat, size: nat, rest: nat)
    ensures Fits(tail + size, rest, tail, size)
  {
  }

  lemma CarveHomes(s: Pool)
    requires Sized(s) && Homes(s) && s.left > 0
    ensures Homes(Carve(s)) && ChunkBytes(Carve(s)) == ChunkBytes(s)
  {
    hide Per;
    var t := Carve(s);
    assert s.left * s.size == s.size + t.left * s.size && t.left * s.size >= 0;
    var j :| 0 <= j < |s.chunks| && s.chunks[j] <= s.tail && s.tail + s.left * s.size <= s.chunks[j] + ChunkBytes(s);
    assert t.chunks[j] == s.chunks[j];
    forall a | a in t.objs ensures Inside(t, a, t.size) {
      if a in s.objs { assert Inside(s, a, s.size); }
    }
  }

  lemma CarveNoGaps(s: Pool)
    requires Sized(s) && NoGaps(s) && s.left > 0
    ensures NoGaps(Carve(s))
  {
    hide Per;
    var t := Carve(s);
    assert s.left * s.size == s.size + t.left * s.size;
    forall j, i | 0 <= j < |t.chunks| && t.chunks[j] <= i < t.chunks[j] + ChunkBytes(t) ensures Covered(t, i) {
      assert Covered(s, i);
      if exists a :: a in s.objs && a <= i < a + s.size {
        var a :| a in s.objs && a <= i < a + s.size;
        assert a in t.objs;
      } else if i < s.tail + s.size {
        assert s.tail in t.objs;
      }
    }
  }

  lemma AllocOk(s: Pool, at: nat)
    requires Ok(s) && (Empty(s) ==> Room(s, at))
    ensures Ok(Alloc(s, at))
    ensures var p := Given(s, at); var t := Alloc(s, at);
            && p > 0 && p !in s.live && p in t.live && t.live == s.live + {p} && t.size == s.size
  {
    hide Per, Layout, NoGaps, Totals, ChunkBytes, Inside, Room;
    if s.list != [] {
      PopOk(s);
      assert s.list[0] in s.list;
      ObjectsPositive(s);
    } else {
      RefillOk(s, at);
      CarveOk(Refill(s, at));
    }
  }

  lemma ObjectsPositive(s: Pool)
    requires Ok(s)
    ensures forall a :: a in s.objs ==> a > 0
  {
  }

  // ---------------------------------------------------------------- conservation

  // Chunk bytes are in use, listed, or unused; the unused ones are a whole
  // number of objects, so that refilling throws nothing away.
  lemma Conservation(s: Pool)
    requires Ok(s)
    ensures |s.chunks| * ChunkBytes(s) == |s.live| * s.size + s.size * |s.list| + s.left * s.size
    ensures s.left * s.size < s.size <==> s.left == 0
  {
    hide Layout, Homes, NoGaps, Per;
    Shares(|s.live|, |s.list|, s.left, |s.chunks|, Per(s.size), s.size);
  }

  lemma Shares(l: nat, q: nat, r: nat, k: nat, n: nat, z: nat)
    requires l + q + r == k * n && z > 0
    ensures k * (n * z) == l * z + z * q + r * z
    ensures r * z < z <==> r == 0
  {
    assert k * (n * z) == (k * n) * z;
    assert (l + q + r) * z == l * z + q * z + r * z;
    if r > 0 { assert r * z >= z; }
  }

  // ---------------------------------------------------------------- single calls

  // A chunk has as many objects as fit 16 KiB: with one more it would not.
  lemma ChunkFits(s: Pool)
    requires Sized(s)
    ensures ChunkBytes(s) <= 16384 < ChunkBytes(s) + s.size
  {
    Quotient(16384, s.size);
    hide Per;
    assert Per(s.size) == 16384 / s.size by { PerIs(s.size); }
  }

  lemma PerIs(size: nat)
    requires 0 < size <= CHUNK
    ensures Per(size) == 16384 / size
  {
  }

  lemma Quotient(x: nat, m: nat)
    requires m > 0
    ensures (x / m) * m <= x < (x / m) * m + m
  {
  }

  // What alloc does. The object freed last comes first; without freed objects
  // the objects of the latest chunk come one behind the other; and when that is
  // used up, the first object of a new chunk, which 16384 / size fit.
  lemma AllocCases(s: Pool, at: nat)
    requires Ok(s)
    ensures var t := Alloc(s, at); var p := Given(s, at);
            && t.live == s.live + {p} && t.size == s.size && t.foreign == s.foreign
            && (s.list != [] ==>
                  && [p] + t.list == s.list && t.objs == s.objs && t.chunks == s.chunks
                  && t.tail == s.tail && t.left == s.left)
            && (s.list == [] ==> t.list == [] && t.objs == s.objs + [p] && t.tail == p + s.size)
            && (s.list == [] && s.left > 0 ==> p == s.tail && t.chunks == s.chunks && t.left == s.left - 1)
            && (Empty(s) ==> p == at && t.chunks == s.chunks + [at] && t.left + 1 == 16384 / s.size)
  {
    hide Ok;
    SizedFrom(s);
    PerIs(s.size);
    hide Per;
  }

  lemma SizedFrom(s: Pool)
    requires Ok(s)
    ensures Sized(s)
  {
  }

  // An object that is given back is the next one handed out, and then the pool
  // is as it was.
  lemma GiveThenTake(s: Pool, p: nat, at: nat)
    requires Ok(s) && p in s.live
    ensures Sized(Free(s, p)) && !Empty(Free(s, p))
    ensures Given(Free(s, p), at) == p && Alloc(Free(s, p), at) == s
  {
    SizedFrom(s);
    hide Ok;
    var t := Free(s, p);
    assert t.list[1..] == s.list;
    assert t.live + {p} == s.live;
  }

  // ---------------------------------------------------------------- runs

  datatype Op =
    | Take(sys: Answer)
    | Give(p: nat)
    | Write(p: nat, off: nat, bs: seq<Memory.byte>)   // by the client, into an object it owns

  predicate Allowed(s: Pool, op: Op)
    requires Sized(s)
  {
    match op
    case Take(sys) => Empty(s) && sys.Granted? ==> Room(s, sys.at)
    case Give(p) => p in s.live
    case Write(p, off, bs) => p in s.live && off + |bs| <= s.size
  }

  function Step(s: Pool, op: Op): (t: Pool)
    requires Sized(s)
    ensures t.size == s.size
  {
    match op
    case Take(sys) => if Empty(s) && sys.Refused? then s else Alloc(s, Place(sys))
    case Give(p) => Free(s, p)
    case Write(p, off, bs) => s
  }

  // What a step is, case by case: a refused chunk and a client's write change
  // nothing, a free puts the object at the head of the list, and an allocation
  // is as told above.
  lemma StepCases(s: Pool, op: Op)
    requires Ok(s) && Allowed(s, op)
    ensures Sized(s) && s.size >= 8
    ensures match op
            case Take(sys) =>
              && (Empty(s) && sys.Granted? ==> Room(s, sys.at))
              && if Empty(s) && sys.Refused? then Step(s, op) == s else Step(s, op) == Alloc(s, Place(sys))
            case Give(p) =>
              && p in s.live && Step(s, op) == Free(s, p)
              && Step(s, op) == s.(list := [p] + s.list, live := s.live - {p})
            case Write(p, off, bs) => p in s.live && off + |bs| <= s.size && Step(s, op) == s
  {
    SizedFrom(s);
    hide Ok, Per;
  }

  // The owner of an object may always write to it and give it back, and alloc
  // may always be called: the system can refuse a chunk.
  lemma CallsPossible(s: Pool, p: nat)
    requires Sized(s) && p in s.live
    ensures Allowed(s, Give(p)) && Allowed(s, Take(Refused))
    ensures forall off: nat, bs :: off + |bs| <= s.size ==> Allowed(s, Write(p, off, bs))
    ensures !Empty(s) ==> forall sys :: Allowed(s, Take(sys))
  {
  }

  predicate Legal(s: Pool, t: seq<Op>)
    requires Sized(s)
    decreases |t|
  {
    t == [] || (Allowed(s, t[0]) && Legal(Step(s, t[0]), t[1..]))
  }

  function Run(s: Pool, t: seq<Op>): (u: Pool)
    requires Sized(s) && Legal(s, t)
    ensures u.size == s.size
    decreases |t|
  {
    if t == [] then s else Run(Step(s, t[0]), t[1..])
  }

  lemma RunNone(s: Pool)
    requires Sized(s)
    ensures Legal(s, []) && Run(s, []) == s
  {
  }

  // A run of one operation more is the run and then that operation.
  lemma {:induction false} RunSnoc(s: Pool, t: seq<Op>, op: Op)
    requires Sized(s) && Legal(s, t)
    ensures Sized(Run(s, t)) && (Legal(s, t + [op]) <==> Allowed(Run(s, t), op))
    ensures Legal(s, t + [op]) ==> Run(s, t + [op]) == Step(Run(s, t), op)
    decreases |t|
  {
    hide Allowed, Step;
    if t == [] {
      assert [] + [op] == [op] && [op][1..] == [];
    } else {
      assert (t + [op])[0] == t[0] && (t + [op])[1..] == t[1..] + [op];
      RunSnoc(Step(s, t[0]), t[1..], op);
    }
  }

  function Peak(s: Pool, t: seq<Op>): nat
    requires Sized(s) && Legal(s, t)
    decreases |t|
  {
    if t == [] then |s.live|
    else
      var later := Peak(Step(s, t[0]), t[1..]);
      if later < |s.live| then |s.live| else later
  }

  lemma StepOk(s: Pool, op: Op)
    requires Ok(s) && Allowed(s, op)
    ensures Ok(Step(s, op))
    ensures |Step(s, op).objs| == Max(|s.objs|, |Step(s, op).live|)
    ensures s.left < Per(s.size) ==> Step(s, op).left < Per(s.size)
  {
    hide Per, Layout, Homes, NoGaps, ChunkBytes, Room;
    match op
    case Take(sys) => if !(Empty(s) && sys.Refused?) { AllocOk(s, Place(sys)); }
    case Give(p) => FreeOk(s, p);
    case Write(p, off, bs) => LiveBelow(s);
  }

  // Every object ever carved was once needed at the same time as all the others.
  lemma {:induction false} RunPeak(s: Pool, t: seq<Op>, peak: nat)
    requires Ok(s) && Legal(s, t) && |s.objs| == peak && |s.live| <= peak && s.left < Per(s.size)
    ensures var u := Run(s, t);
            Ok(u) && |u.objs| == Max(peak, Peak(s, t)) && u.left < Per(u.size)
    decreases |t|
  {
    hide Layout, Homes, NoGaps, Partition, Per;
    if t != [] {
      StepOk(s, t[0]);
      var u := Step(s, t[0]);
      hide Ok, Step, Allowed;
      LiveBelow(u);
      RunPeak(u, t[1..], |u.objs|);
    }
  }

  lemma LiveBelow(s: Pool)
    requires Ok(s)
    ensures |s.live| <= |s.objs|
  {
    hide Layout, Homes, NoGaps, Partition, Per;
  }

  // High water. The chunks ever asked for are just those that the largest
  // number of objects live at once needs.
  lemma {:induction false} HighWater(size: nat, foreign: set<nat>, t: seq<Op>)
    requires 8 <= size <= CHUNK && Legal(Start(size, foreign), t)
    ensures Ok(Run(Start(size, foreign), t))
    ensures |Run(Start(size, foreign), t).chunks| == CeilDiv(Peak(Start(size, foreign), t), Per(size))
  {
    StartOk(size, foreign);
    RunPeak(Start(size, foreign), t, 0);
    hide *;
    Lots(Run(Start(size, foreign), t));
  }

  // Chunks are as many as the objects carved from them need.
  lemma Lots(s: Pool)
    requires Ok(s) && s.left < Per(s.size)
    ensures |s.chunks| == CeilDiv(|s.objs|, Per(s.size))
  {
    hide Layout, Homes, NoGaps, Partition, Per, CeilDiv;
    var n, k := Per(s.size), |s.chunks|;
    if k == 0 {
      CeilDivZero(n);
    } else {
      Fewer(k, n);
      CeilDivExact(k - 1, |s.objs|, n);
    }
  }

  lemma Fewer(k: nat, n: nat)
    requires k > 0
    ensures k * n == n * (k - 1) + n
  {
  }

  // After every run each byte of a chunk belongs to the tail or to exactly one
  // object, never to both, and that object is either live or listed once.
  lemma ChunksPartitioned(size: nat, foreign: set<nat>, t: seq<Op>, j: nat, i: nat)
    requires 8 <= size <= CHUNK && Legal(Start(size, foreign), t)
    requires var u := Run(Start(size, foreign), t);
             j < |u.chunks| && u.chunks[j] <= i < u.chunks[j] + ChunkBytes(u)
    ensures var u := Run(Start(size, foreign), t);
            if u.tail <= i < u.tail + u.left * size then forall a :: a in u.objs ==> !(a <= i < a + size)
            else exists a :: a in u.objs && a <= i < a + size
                   && (forall b :: b in u.objs && b <= i < b + size ==> b == a)
                   && (a in u.live <==> a !in u.list) && Distinct(u.list)
  {
    HighWater(size, foreign, t);
    var u := Run(Start(size, foreign), t);
    hide Per, Homes, Totals, ChunkBytes, Legal, Run;
    assert Covered(u, i);
    if u.tail <= i < u.tail + u.left * size {
      forall a | a in u.objs ensures !(a <= i < a + size) {
        assert Fits(u.tail, u.left * u.size, a, u.size);
      }
    } else {
      var a :| a in u.objs && a <= i < a + u.size;
      forall b | b in u.objs && b <= i < b + size ensures b == a {
        assert b != a ==> Apart(u, a, b);
      }
    }
  }

  // The object that alloc hands out has no byte in common with a live one.
  lemma GivenIsApart(s: Pool, at: nat, a: nat)
    requires Ok(s) && (Empty(s) ==> Room(s, at)) && a in s.live
    ensures Apart(s, a, Given(s, at))
  {
    AllocOk(s, at);
    var t := Alloc(s, at);
    hide Per, Homes, NoGaps, Totals, ChunkBytes, Room, Alloc, Given;
    assert a in t.live && Given(s, at) in t.live;
    assert Apart(t, a, Given(s, at));
  }

  // A live object that no one gives back stays live, through any run.
  lemma {:induction false} StaysLive(s: Pool, t: seq<Op>, a: nat)
    requires Ok(s) && Legal(s, t) && a in s.live && Give(a) !in t
    ensures a in Run(s, t).live
    decreases |t|
  {
    hide Layout, Homes, NoGaps, Partition, Per, ChunkBytes, Room;
    if t != [] {
      StepOk(s, t[0]);
      hide Ok, Allowed;
      assert t[0] in t && forall e :: e in t[1..] ==> e in t;
      StaysLive(Step(s, t[0]), t[1..], a);
    }
  }

  lemma CeilDivZero(k: nat)
    requires k > 0
    ensures CeilDiv(0, k) == 0
  {
  }
}
