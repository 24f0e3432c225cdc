// Ties the allocator to the runs: it carries out any legal trace, and its
// ledger is then the run's ledger, laid out in the memory that the calls left.

module Driver {
  import opened SizeClasses
  import opened Memory
  import opened Ledgers
  import opened Operations
  import opened Coupling
  import opened Runs
  import opened Theorems
  import Allocator

  // The address of the k-th block of a list, or NULL behind its end.
  function Entry(q: seq<Block>, k: nat): nat {
    if k < |q| then q[k].addr else 0
  }

  // A payload stands behind its header, and the header tells whether the block is live.
  ghost predicate BlockLaid(c: Machine, mem: seq<byte>, s: Ledger, x: Block) {
    && x in s.data && x.addr + c.h + |s.data[x]| <= |mem| && x.addr + 1 < |mem|
    && mem[x.addr + c.h..x.addr + c.h + |s.data[x]|] == s.data[x]
    && (mem[x.addr] == 0xef <==> x in s.live)
    && (x in s.live ==> mem[x.addr + 1] == x.bucket)
  }

  // A list head points to the first block, and each header to the next block.
  ghost predicate ListLaid(c: Machine, mem: seq<byte>, head: nat, q: seq<Block>) {
    && head == Entry(q, 0)
    && forall k: nat :: k < |q| ==> q[k].addr + c.h <= |mem| && Load(c, mem, q[k].addr) == Entry(q, k + 1)
  }

  // What the bytes, the list heads and the counters of a process are, place by place.
  ghost predicate Laid(c: Machine, mem: seq<byte>, nextf: seq<nat>, nmalloc: seq<nat>, s: Ledger) {
    && |mem| == s.brk && |nextf| == |nmalloc| == |s.free| == NBUCKETS
    && (forall x :: x in s.blocks ==> BlockLaid(c, mem, s, x))
    && (forall b: nat :: b < NBUCKETS ==>
          ListLaid(c, mem, nextf[b], s.free[b]) && nmalloc[b] == |LiveOf(s, b)| % 0x1_0000_0000)
  }

  lemma {:induction false} ChainLaid(c: Machine, mem: seq<byte>, head: nat, q: seq<Block>)
    requires Chain(c, mem, head, q)
    ensures ListLaid(c, mem, head, q)
    decreases |q|
  {
    hide Load;
    if q != [] {
      var rest := Load(c, mem, head);
      ChainLaid(c, mem, rest, q[1..]);
      forall k: nat | k < |q| ensures q[k].addr + c.h <= |mem| && Load(c, mem, q[k].addr) == Entry(q, k + 1) {
        if k > 0 {
          assert q[k] == q[1..][k - 1] && Entry(q, k + 1) == Entry(q[1..], k);
        }
      }
    }
  }

  lemma LaidOut(k: Allocator.Kmalloc)
    requires k.Valid() && k.led.phase != Dead
    ensures Laid(k.c, k.mem, k.nextf[..], k.nmalloc[..], k.led)
  {
    ghost var c, mem, nextf, nmalloc, s := k.c, k.mem, k.nextf[..], k.nmalloc[..], k.led;
    hide Ok, Coupled, ListLaid, BlockLaid, Chain;
    Allocator.ImageFacts(c, mem, nextf, nmalloc, k.pagesz, k.pagebucket, s);
    Allocator.ImageCounters(c, mem, nextf, nmalloc, k.pagesz, k.pagebucket, s);
    forall x | x in s.blocks ensures BlockLaid(c, mem, s, x) {
      PayloadLaid(c, mem, nextf, s, x);
    }
    forall b: nat | b < NBUCKETS ensures ListLaid(c, mem, nextf[b], s.free[b]) {
      ChainLaid(c, mem, nextf[b], s.free[b]);
    }
  }

  lemma PayloadLaid(c: Machine, mem: seq<byte>, nextf: seq<nat>, s: Ledger, x: Block)
    requires Ok(c, s) && s.phase != Dead && Coupled(c, mem, nextf, s) && x in s.blocks
    ensures BlockLaid(c, mem, s, x)
  {
    Allocator.KnownReady(c, mem, nextf, s, x);
    Allocator.PayloadBytes(c, mem, nextf, s, x, Cap(c, x.bucket));
    AtLeastHeader(c, x.bucket);
    hide Ok, Coupled, Phys;
  }

  method Perform(k: Allocator.Kmalloc, e: Event) returns (p: nat)
    requires k.Valid() && Ok(k.c, k.led) && Allowed(k.c, k.led, e.op)
    modifies k, k.nextf, k.nmalloc
    ensures k.Valid() && Ok(k.c, old(k.led)) && Reply(k.led, p) == Step(k.c, old(k.led), e)
    ensures k.led.phase != Dead ==> Laid(k.c, k.mem, k.nextf[..], k.nmalloc[..], k.led)
  {
    hide Laid;
    match e.op {
      case Kmalloc(n) => p := k.Kmalloc(n, e.os);
      case Kcalloc(nelem, elsize) => p := k.Kcalloc(nelem, elsize, e.os);
      case Kfree(q) => k.Kfree(q); p := 0;
      case Krealloc(q, n, limit) =>
        k.srchlen := limit;
        p := k.Krealloc(q, n, e.os);
      case Write(q, off, bs) => k.Write(q, off, bs); p := 0;
    }
    if k.led.phase != Dead {
      LaidOut(k);
    }
  }

  // The allocator, started on any process image, after any legal trace.
  method Drive(c: Machine, image: seq<byte>, trace: seq<Event>) returns (k: Allocator.Kmalloc)
    requires Runnable(c, |image|, trace)
    ensures k.Valid() && k.c == c && Reached(c, |image|, trace, k.led)
    ensures k.led.phase != Dead ==> Laid(c, k.mem, k.nextf[..], k.nmalloc[..], k.led)
  {
    hide Laid;
    OpeningOk(c, |image|);
    k := new Allocator.Kmalloc(c, image);
    var i := 0;
    while i < |trace|
      invariant 0 <= i <= |trace| && k.c == c && fresh(k) && fresh(k.nextf) && fresh(k.nmalloc)
      invariant k.Valid() && Ok(c, k.led) && Legal(c, k.led, trace[i..])
      invariant Run(c, k.led, trace[i..]) == Run(c, Opening(|image|), trace)
    {
      ghost var s := k.led;
      assert trace[i..][0] == trace[i] && trace[i..][1..] == trace[i + 1..];
      StepLaws(c, s, trace[i]);
      var p := Perform(k, trace[i]);
      i := i + 1;
    }
    if k.led.phase != Dead {
      LaidOut(k);
    }
  }
}
