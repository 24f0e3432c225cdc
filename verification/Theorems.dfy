// What holds after every run of a process, whatever its clients ask for and
// whatever the system answers.

module Theorems {
  import opened Arithmetic
  import opened SizeClasses
  import opened Memory
  import opened Ledgers
  import opened Operations
  import opened Laws
  import opened Runs
  import opened Accounts

  // A run that a process may make whose break starts at `brk`.
  ghost predicate Runnable(c: Machine, brk: nat, t: seq<Event>) {
    brk <= Word(c) && (OpeningOk(c, brk); Legal(c, Opening(brk), t))
  }

  // The ledger after such a run.
  ghost predicate Reached(c: Machine, brk: nat, t: seq<Event>, s: Ledger) {
    Runnable(c, brk, t) && (OpeningOk(c, brk); s == Run(c, Opening(brk), t))
  }

  // ---------------------------------------------------------------- partition

  predicate Covers(c: Machine, x: Block, i: nat) {
    x.addr <= i < x.addr + Phys(c, x.bucket)
  }

  // x stands once in list b, and in no other list.
  ghost predicate ListedOnceIn(s: Ledger, x: Block, b: nat) {
    && b < |s.free|
    && (exists k :: 0 <= k < |s.free[b]| && s.free[b][k] == x
                    && forall j :: 0 <= j < |s.free[b]| && s.free[b][j] == x ==> j == k)
    && forall b' :: 0 <= b' < |s.free| && b' != b ==> x !in s.free[b']
  }

  ghost predicate Unlisted(s: Ledger, x: Block) {
    forall b :: 0 <= b < |s.free| ==> x !in s.free[b]
  }

  // After every run, each byte between the base and the break belongs to
  // exactly one block, and that block is either live and on no list, or stands
  // once on the list of its own bucket and on no other.
  lemma HeapPartitioned(c: Machine, brk: nat, t: seq<Event>, s: Ledger, i: nat)
    requires Reached(c, brk, t, s) && s.base <= i < s.brk
    ensures exists x :: x in s.blocks && Covers(c, x, i)
              && (forall y :: y in s.blocks && Covers(c, y, i) ==> y == x)
              && (if x in s.live then Unlisted(s, x) else ListedOnceIn(s, x, x.bucket))
  {
    assert Ok(c, s);
    var x := TilesCover(c, s.blocks, s.base, s.brk, i);
    forall y | y in s.blocks && Covers(c, y, i) ensures y == x {
      if y != x { TilesApart(c, s.blocks, s.base, s.brk, x, y); }
    }
    LiveOrListed(c, s, x);
  }

  lemma LiveOrListed(c: Machine, s: Ledger, x: Block)
    requires Ok(c, s) && x in s.blocks
    ensures if x in s.live then Unlisted(s, x) else ListedOnceIn(s, x, x.bucket)
  {
    hide Geometry, Contents, Counts;
    forall b: nat | b < |s.free| && x in s.free[b] ensures x !in s.live && b == x.bucket {
      assert ListOk(s, b);
    }
    if x !in s.live {
      assert ListOk(s, x.bucket) && x in s.free[x.bucket];
      var k :| 0 <= k < |s.free[x.bucket]| && s.free[x.bucket][k] == x;
    }
  }

  // ---------------------------------------------------------------- isolation

  predicate Touches(c: Machine, op: Op, x: Block) {
    Names(c, op, x) || (op.Write? && op.p == x.addr + c.h)
  }

  // A live block that no call names and no client writes to stays live and
  // keeps every byte, through any run.
  lemma {:induction false} Isolation(c: Machine, s: Ledger, t: seq<Event>, x: Block)
    requires Ok(c, s) && Legal(c, s, t) && x in s.live
    requires forall e :: e in t ==> !Touches(c, e.op, x)
    ensures var u := Run(c, s, t);
            x in u.blocks && x in u.live && x in s.data && x in u.data && u.data[x] == s.data[x]
    decreases |t|
  {
    LiveCarved(c, s, x);
    if t != [] {
      StepLaws(c, s, t[0]);
      assert Framed(c, s, Step(c, s, t[0]).s, t[0].op, x);
      assert forall e :: e in t[1..] ==> e in t;
      hide Ok, Allowed, Step;
      Isolation(c, Step(c, s, t[0]).s, t[1..], x);
    }
  }

  lemma LiveCarved(c: Machine, s: Ledger, x: Block)
    requires Ok(c, s) && x in s.live
    ensures x in s.blocks && x in s.data
  {
  }

  // ---------------------------------------------------------------- high water

  // The largest number of blocks of bucket b that were live at once.
  ghost function Peak(c: Machine, s: Ledger, t: seq<Event>, b: nat): (r: nat)
    requires Ok(c, s) && Legal(c, s, t)
    ensures r >= |LiveOf(s, b)|
    decreases |t|
  {
    if t == [] then |LiveOf(s, b)|
    else
      StepLaws(c, s, t[0]);
      Max(|LiveOf(s, b)|, Peak(c, Step(c, s, t[0]).s, t[1..], b))
  }

  // From s to t, either no block of bucket b was carved, or one lot of them
  // was, and then every block carved before was live and so is one more.
  ghost predicate Carved(c: Machine, s: Ledger, t: Ledger, b: nat) {
    || Count(t.blocks, b) == Count(s.blocks, b)
    || (Count(t.blocks, b) == Count(s.blocks, b) + PerGrow(c, b) && |LiveOf(t, b)| == Count(s.blocks, b) + 1)
  }

  lemma GrowCarves(c: Machine, s: Ledger, b: nat, grant: bool, b': nat)
    requires b < |s.free|
    ensures var g := Grow(c, s, b, grant);
            || g == s
            || (g.live == s.live && |g.free[b]| == PerGrow(c, b)
                && Count(g.blocks, b') == Count(s.blocks, b') + if b' == b then PerGrow(c, b) else 0)
  {
    hide Phys, Page, PerGrow, Grab;
    var q := Carve(c, b, s.brk, PerGrow(c, b));
    CarveTiles(c, b, s.brk, PerGrow(c, b));
    CountAppend(s.blocks, q, b');
    CountUniform(q, b, b');
  }

  lemma MallocReadyCarves(c: Machine, s: Ledger, n: nat, grant: bool, b': nat)
    requires Ok(c, s) && s.phase == Ready && b' < |s.free|
    ensures Carved(c, s, MallocReady(c, s, n, grant).s, b')
  {
    ShapeOf(c, s);
    hide Ok, Shape, MallocReady, Choose, Grow, PerGrow, Count, Stocked, Pop, Known, Carved;
    MallocReadyCases(c, s, n, grant);
    NothingCarved(c, s, s, b');
    if Choose(c, n).Some? {
      var b := Choose(c, n).value;
      StockedLaws(c, s, b, grant);
      var g := Stocked(c, s, b, grant);
      if g.free[b] != [] {
        PopLaws(c, g, b);
        StockedCarves(c, s, b, grant, b');
      }
    }
  }

  lemma StockedCarves(c: Machine, s: Ledger, b: nat, grant: bool, b': nat)
    requires Ok(c, s) && b < |s.free| && b' < |s.free|
    requires var g := Stocked(c, s, b, grant); b < |g.free| && g.free[b] != [] && Ok(c, Pop(g, b))
    ensures Carved(c, s, Pop(Stocked(c, s, b, grant), b), b')
  {
    hide Ok, Grow, PerGrow, Count, Stocked;
    StockedIs(c, s, b, grant);
    GrowCarves(c, s, b, grant, b');
    BalancedAt(c, Pop(Stocked(c, s, b, grant), b), b');
  }

  lemma StockedIs(c: Machine, s: Ledger, b: nat, grant: bool)
    requires b < |s.free|
    ensures Stocked(c, s, b, grant) == if s.free[b] == [] then Grow(c, s, b, grant) else s
  {
  }

  lemma BalancedAt(c: Machine, s: Ledger, b: nat)
    requires Ok(c, s)
    ensures |s.free| == NBUCKETS
    ensures b < |s.free| ==> |LiveOf(s, b)| + |s.free[b]| == Count(s.blocks, b)
  {
    assert b < |s.free| ==> Balanced(s, b);
  }

  lemma SameCarves(c: Machine, s: Ledger, u: Ledger, t: Ledger, b: nat)
    requires u.blocks == s.blocks && Carved(c, u, t, b)
    ensures Carved(c, s, t, b)
  {
  }

  // Poking a payload, or stopping, carves nothing.
  lemma PokeCarves(c: Machine, s: Ledger, t: Ledger, u: Ledger, b: nat)
    requires u.blocks == t.blocks && u.live == t.live && Carved(c, s, t, b)
    ensures Carved(c, s, u, b)
  {
    assert LiveOf(u, b) == LiveOf(t, b);
  }

  lemma MallocCarves(c: Machine, s: Ledger, n: nat, os: Os, b: nat)
    requires Ok(c, s) && s.phase != Dead && b < |s.free|
    ensures Carved(c, s, Malloc(c, s, n, os).s, b)
  {
    PrimeOk(c, s, os.align);
    PrimePhase(c, s, os.align);
    hide Ok, MallocReady, Prime, Count, Carved;
    var u := Prime(c, s, os.align);
    if u.phase == Ready {
      MallocReadyCarves(c, u, n, os.grow, b);
      SameCarves(c, s, u, Malloc(c, s, n, os).s, b);
    } else {
      NothingCarved(c, s, u, b);
    }
  }

  lemma NothingCarved(c: Machine, s: Ledger, t: Ledger, b: nat)
    requires t.blocks == s.blocks
    ensures Carved(c, s, t, b)
  {
  }

  lemma MoveCarves(c: Machine, s: Ledger, x: Block, n: nat, grant: bool, b: nat)
    requires Ok(c, s) && s.phase == Ready && x in s.blocks && b < |s.free|
    ensures Carved(c, s, Move(c, s, x, n, grant).s, b)
  {
    MallocReadyCarves(c, s, n, grant, b);
    MallocReadyLaws(c, s, n, grant);
    hide Ok, MallocReady, Count, Carved, Known, Allocated, Cap, Store;
    PokeCarves(c, s, MallocReady(c, s, n, grant).s, Move(c, s, x, n, grant).s, b);
  }

  lemma CallocCarves(c: Machine, s: Ledger, n: nat, os: Os, b: nat)
    requires Ok(c, s) && s.phase != Dead && b < |s.free|
    ensures Carved(c, s, Cleared(c, s, n, os).s, b)
  {
    MallocCarves(c, s, n, os, b);
    MallocLaws(c, s, n, os);
    hide Ok, Malloc, Count, Carved, Known, Allocated, Cap, Store;
    PokeCarves(c, s, Malloc(c, s, n, os).s, Cleared(c, s, n, os).s, b);
  }

  lemma StepCarves(c: Machine, s: Ledger, e: Event, b: nat)
    requires Ok(c, s) && Allowed(c, s, e.op) && b < |s.free|
    ensures Carved(c, s, Step(c, s, e).s, b)
  {
    match e.op
    case Kmalloc(n) =>
      MallocCarves(c, s, n, e.os, b);
    case Kcalloc(nelem, elsize) =>
      CallocCarves(c, s, (nelem * elsize) % Word(c), e.os, b);
    case Kfree(p) =>
      NothingCarved(c, s, Step(c, s, e).s, b);
    case Krealloc(p, n, limit) =>
      ReallocCarves(c, s, e, b);
    case Write(p, off, bs) =>
      NothingCarved(c, s, Step(c, s, e).s, b);
  }

  lemma ReallocCarves(c: Machine, s: Ledger, e: Event, b: nat)
    requires Ok(c, s) && Allowed(c, s, e.op) && e.op.Krealloc? && b < |s.free|
    ensures Carved(c, s, Step(c, s, e).s, b)
  {
    var p, n := e.op.p, e.op.n;
    if p == 0 {
      MallocCarves(c, s, n, e.os, b);
    } else if n == 0 {
      NothingCarved(c, s, Step(c, s, e).s, b);
    } else {
      var x := At(c, s, p);
      ReadyOf(c, s, x);
      if x !in s.live {
        NothingCarved(c, s, s.(phase := Dead), b);
        MoveCarves(c, s, x, n, e.os.grow, b);
      } else if Choose(c, n) == Some(x.bucket) {
        NothingCarved(c, s, s, b);
      } else {
        PushOk(c, s, x);
        MoveCarves(c, Push(s, x), x, n, e.os.grow, b);
        SameCarves(c, s, Push(s, x), Step(c, s, e).s, b);
      }
    }
  }

  // What the blocks carved for bucket b tell about the most that were live.
  ghost predicate Mark(c: Machine, s: Ledger, b: nat, peak: nat) {
    && Count(s.blocks, b) == PerGrow(c, b) * CeilDiv(peak, PerGrow(c, b))
    && |LiveOf(s, b)| <= peak
  }

  // The arithmetic of one step: k blocks a lot, `count` carved, at most `peak` were live.
  lemma MarkStep(k: nat, count: nat, peak: nat, count': nat, live': nat)
    requires k > 0 && count == k * CeilDiv(peak, k)
    requires (count' == count && live' <= count) || (count' == count + k && live' == count + 1)
    ensures count' == k * CeilDiv(Max(peak, live'), k)
  {
    var m := CeilDiv(peak, k);
    CeilDivBounds(peak, k);
    if count' == count {
      if peak > 0 {
        assert k * m == k * (m - 1) + k;
        CeilDivExact(m - 1, Max(peak, live'), k);
      }
    } else {
      assert k * (m + 1) == k * m + k;
      CeilDivExact(m, live', k);
    }
  }

  lemma CeilDivBounds(x: nat, k: nat)
    requires k > 0
    ensures k * CeilDiv(x, k) >= x
    ensures x > 0 ==> CeilDiv(x, k) > 0 && k * (CeilDiv(x, k) - 1) < x
    ensures x == 0 ==> CeilDiv(x, k) == 0
  {
    var y := x + k - 1;
    assert y == k * (y / k) + y % k;
    if x > 0 {
      assert y / k > 0;
      assert k * (y / k - 1) == k * (y / k) - k;
    } else {
      SmallQuotient(y, k);
    }
  }

  lemma SmallQuotient(y: nat, k: nat)
    requires y < k
    ensures y / k == 0
  {
  }

  lemma {:induction false} MarkRun(c: Machine, s: Ledger, t: seq<Event>, b: nat, peak: nat)
    requires Ok(c, s) && Legal(c, s, t) && b < |s.free| && Mark(c, s, b, peak)
    ensures Mark(c, Run(c, s, t), b, Max(peak, Peak(c, s, t, b)))
    decreases |t|
  {
    hide Ok, Allowed, Step, CeilDiv, PerGrow, Count;
    if t != [] {
      StepLaws(c, s, t[0]);
      StepCarves(c, s, t[0], b);
      var u := Step(c, s, t[0]).s;
      BalancedAt(c, s, b);
      BalancedAt(c, u, b);
      MarkStep(PerGrow(c, b), Count(s.blocks, b), peak, Count(u.blocks, b), |LiveOf(u, b)|);
      MarkRun(c, u, t[1..], b, Max(peak, |LiveOf(u, b)|));
    }
  }

  // High water. After every run, the blocks ever carved for a bucket are those
  // of just as many calls of morecore as its peak demand needs.
  lemma HighWater(c: Machine, brk: nat, t: seq<Event>, s: Ledger, b: nat)
    requires Reached(c, brk, t, s) && b < NBUCKETS
    ensures Count(s.blocks, b) == PerGrow(c, b) * CeilDiv(PeakOf(c, brk, t, b), PerGrow(c, b))
  {
    OpeningOk(c, brk);
    var s0 := Opening(brk);
    assert LiveOf(s0, b) == {};
    CeilDivBounds(0, PerGrow(c, b));
    hide Ok, Legal, Run, PerGrow, CeilDiv;
    MarkRun(c, s0, t, b, 0);
  }

  ghost function PeakOf(c: Machine, brk: nat, t: seq<Event>, b: nat): nat
    requires Runnable(c, brk, t)
  {
    OpeningOk(c, brk);
    Peak(c, Opening(brk), t, b)
  }

  // The bytes of heap that `peak` blocks of bucket b need, in whole calls of morecore.
  function Lots(c: Machine, peak: nat, b: nat): nat {
    CeilDiv(peak, PerGrow(c, b)) * Grab(c, b)
  }

  // The same for the peak demands of the first m buckets.
  ghost function PeakBytes(c: Machine, brk: nat, t: seq<Event>, m: nat): nat
    requires Runnable(c, brk, t)
    decreases m
  {
    if m == 0 then 0 else PeakBytes(c, brk, t, m - 1) + Lots(c, PeakOf(c, brk, t, m - 1), m - 1)
  }

  lemma LotsHeld(c: Machine, q: seq<Block>, peak: nat, b: nat)
    requires Count(q, b) == PerGrow(c, b) * CeilDiv(peak, PerGrow(c, b))
    ensures Count(q, b) * Phys(c, b) == Lots(c, peak, b)
  {
    hide PerGrow, CeilDiv, Phys, Grab, Count;
    GrabIs(c, b);
    Regroup(PerGrow(c, b), CeilDiv(peak, PerGrow(c, b)), Phys(c, b));
  }

  lemma Regroup(x: nat, y: nat, z: nat)
    ensures (x * y) * z == y * (x * z)
  {
  }

  lemma {:induction false} HeldAtPeak(c: Machine, brk: nat, t: seq<Event>, s: Ledger, m: nat)
    requires Reached(c, brk, t, s) && m <= NBUCKETS
    ensures Runnable(c, brk, t) && HeldBytes(c, s.blocks, m) == PeakBytes(c, brk, t, m)
  {
    hide Reached, Runnable, PeakOf, CeilDiv, PerGrow, Phys, Grab, Count, Lots;
    ReachedByRun(c, brk, t, s);
    if m > 0 {
      HeldAtPeak(c, brk, t, s, m - 1);
      HighWater(c, brk, t, s, m - 1);
      LotsHeld(c, s.blocks, PeakOf(c, brk, t, m - 1), m - 1);
    }
  }

  lemma ReachedByRun(c: Machine, brk: nat, t: seq<Event>, s: Ledger)
    requires Reached(c, brk, t, s)
    ensures Runnable(c, brk, t) && Ok(c, s)
  {
    hide Ok, Legal;
  }

  // After every run the heap is exactly as large as the peak demands of the
  // buckets need: freed blocks are always reused before the break moves.
  lemma HeapSize(c: Machine, brk: nat, t: seq<Event>, s: Ledger)
    requires Reached(c, brk, t, s)
    ensures s.brk == s.base + PeakBytes(c, brk, t, NBUCKETS)
  {
    InBuckets(c, s);
    HeldAtPeak(c, brk, t, s, NBUCKETS);
    hide Ok, Reached, PeakBytes, HeldBytes;
    TilesTotal(c, s.blocks, s.base, s.brk, NBUCKETS);
  }

  lemma InBuckets(c: Machine, s: Ledger)
    requires Ok(c, s)
    ensures Tiles(c, s.blocks, s.base, s.brk) && forall x :: x in s.blocks ==> x.bucket < NBUCKETS
  {
    hide Tiles;
    forall x | x in s.blocks ensures x.bucket < NBUCKETS {
      assert Aligned(c, x);
    }
  }
}
