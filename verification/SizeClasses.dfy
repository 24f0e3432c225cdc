// The size classes of the Kingsley allocator: how a byte count is turned into
// a bucket, and what a block of a bucket can hold.

module SizeClasses {
  import opened Arithmetic

  datatype Option<T> = None | Some(value: T)

  // What the code asks its platform: `h` is sizeof (union overhead), which is
  // also the width of a pointer and of a long, and 8 * 2^pb is getpagesize ().
  // Beyond the upper bound on pb the code's own `sz + pagesz` overflows a long.
  datatype Platform = Platform(h: nat, pb: nat)
  {
    predicate Sound() {
      && (h == 4 || h == 8)
      && 1 <= pb <= (if h == 4 then 26 else 27)
    }
  }

  type Machine = c: Platform | c.Sound() witness Platform(4, 9)

  const NBUCKETS: nat := 30
  const LAST: nat := 28      // 1 << 31 is the last size that the search can name

  function Page(c: Machine): nat { 8 * Pow2(c.pb) }

  // Number of addresses, and of values of a size_t.
  function Word(c: Machine): nat { if c.h == 4 then 0x1_0000_0000 else 0x1_0000_0000_0000_0000 }

  // 1 << (bucket + 3)
  function Size(b: nat): nat { 8 * Pow2(b) }

  // Bytes a block of bucket b takes up in the heap, header and spare page included.
  function Phys(c: Machine, b: nat): nat {
    if b < c.pb then Size(b) else Size(b) + Page(c)
  }

  // Bytes a block of bucket b offers its owner.
  function Cap(c: Machine, b: nat): nat { Phys(c, b) - c.h }

  lemma {:induction false} CapMono(c: Machine, a: nat, b: nat)
    requires a < b
    ensures Cap(c, a) < Cap(c, b)
  {
    Pow2Mono(a, b);
  }

  lemma {:induction false} Pow2At(k: nat)
    requires k == LAST
    ensures Pow2(k) == 0x1000_0000
  {
    assert Pow2(4) == 16;
    Pow2Sum(4, 4); Pow2Sum(8, 8); Pow2Sum(16, 8); Pow2Sum(24, 4);
    assert Pow2(8) == 256 && Pow2(16) == 65536 && Pow2(24) == 16777216;
  }

  // Bucket pb - 1 holds at most half a page, bucket pb nearly two.
  lemma PageCaps(c: Machine)
    ensures Cap(c, c.pb - 1) < Page(c) - c.h < Cap(c, c.pb)
    ensures Page(c) >= 16
  {
  }

  // The reference definition: the least bucket that is large enough, among
  // those whose block size still fits 32 bits.
  function Choose(c: Machine, n: nat): (r: Option<nat>)
    ensures r.Some? ==> r.value <= LAST
  {
    ChooseFrom(c, n, 0)
  }

  function ChooseFrom(c: Machine, n: nat, b: nat): (r: Option<nat>)
    requires b <= 29
    ensures r.Some? ==> b <= r.value <= LAST
    decreases 29 - b
  {
    if b == 29 then None else if n <= Cap(c, b) then Some(b) else ChooseFrom(c, n, b + 1)
  }

  lemma {:induction false} ChooseFromLeast(c: Machine, n: nat, from: nat, b: nat)
    requires from <= 29
    requires from > 0 ==> Cap(c, from - 1) < n
    ensures ChooseFrom(c, n, from) == Some(b) <==>
              from <= b <= LAST && n <= Cap(c, b) && (b > 0 ==> Cap(c, b - 1) < n)
    ensures ChooseFrom(c, n, from) == None <==> Cap(c, LAST) < n
    decreases 29 - from
  {
    hide Cap;
    if from < 29 {
      if from < LAST { CapMono(c, from, LAST); }
      if n <= Cap(c, from) {
        if from < b - 1 { CapMono(c, from, b - 1); }
      } else {
        ChooseFromLeast(c, n, from + 1, b);
      }
    }
  }

  // The chosen bucket is large enough and the one below it is not; no bucket
  // is chosen when even the last is too small.
  lemma ChooseLeast(c: Machine, n: nat, b: nat)
    ensures Choose(c, n) == Some(b) <==>
              b <= LAST && n <= Cap(c, b) && (b > 0 ==> Cap(c, b - 1) < n)
    ensures Choose(c, n) == None <==> Cap(c, LAST) < n
  {
    ChooseFromLeast(c, n, 0, b);
  }

  // Where the search ends up when the static `pagebucket` holds v: requests
  // that start at the page bucket are off by pb - v.
  function Routed(c: Machine, v: nat, n: nat): Option<nat>
    requires v <= c.pb
  {
    match Choose(c, n)
    case None => None
    case Some(b) =>
      if n <= Page(c) - c.h || b < c.pb then Some(b) else Some(b - (c.pb - v))
  }

  // `amt + n` as the code adds them: an unsigned int and a long, compared with a size_t.
  function AddLong(c: Machine, amt: nat, n: int): nat {
    (amt + n) % Word(c)
  }

  lemma AddLongFits(c: Machine, amt: nat, n: int)
    requires amt <= 0x8000_0000 && 0 <= amt + n && n <= 0x4000_0000
    ensures AddLong(c, amt, n) == amt + n
  {
  }

  lemma SizeFits(c: Machine, b: nat)
    requires b <= LAST
    ensures Size(b) <= 0x8000_0000
    ensures b < LAST ==> Size(b) <= 0x4000_0000
    ensures b == LAST ==> Size(b) == 0x8000_0000
    ensures Page(c) <= 0x4000_0000
  {
    Pow2At(LAST);
    Pow2Mono(b, LAST);
    Pow2Mono(c.pb, LAST);
  }

  // The loop below stops at true bucket b: the last one looked at is too small.
  lemma SearchStops(c: Machine, n: nat, b: nat, n': int)
    requires b <= LAST
    requires b > 0 ==> Cap(c, b - 1) < n
    requires if n <= Page(c) - c.h then n' + c.h == 0 && b <= c.pb
             else n' == Page(c) - c.h && c.pb <= b
    ensures n <= Size(b) + n' ==> Choose(c, n) == Some(b)
    ensures n > Size(b) + n' && b == LAST ==> Choose(c, n) == None
    ensures n > Size(b) + n' ==> Cap(c, b) < n && (n <= Page(c) - c.h ==> b < c.pb)
  {
    ChooseLeast(c, n, b);
  }

  method Search(c: Machine, pagesz: nat, pagebucket: nat, nbytes: nat) returns (r: Option<nat>)
    requires pagesz == Page(c) && pagebucket <= c.pb
    requires nbytes < Word(c)
    ensures r == Routed(c, pagebucket, nbytes)
  {
    hide Choose, Cap;
    PageCaps(c);
    var n: int := pagesz - c.h;
    var amt: nat, bucket: nat;
    ghost var shift := 0;
    SizeFits(c, c.pb);
    if nbytes <= n {
      amt, bucket := 8, 0;
      n := 0 - c.h;
    } else {
      amt, bucket := pagesz, pagebucket;
      shift := c.pb - pagebucket;
    }
    AddLongFits(c, amt, n);
    while nbytes > AddLong(c, amt, n)
      invariant bucket + shift <= LAST
      invariant amt == Size(bucket + shift)
      invariant AddLong(c, amt, n) == amt + n
      invariant if nbytes <= pagesz - c.h then n + c.h == 0 && shift == 0 && bucket <= c.pb
                else n == pagesz - c.h && shift == c.pb - pagebucket && c.pb <= bucket + shift
      invariant bucket + shift > 0 ==> Cap(c, bucket + shift - 1) < nbytes
      decreases LAST - bucket
    {
      SearchStops(c, nbytes, bucket + shift, n);
      SizeFits(c, bucket + shift);
      amt := (2 * amt) % 0x1_0000_0000;
      if amt == 0 {
        return None;
      }
      AddLongFits(c, amt, n);
      bucket := bucket + 1;
    }
    SearchStops(c, nbytes, bucket + shift, n);
    return Some(bucket);
  }

  lemma LongRequest(c: Machine, v: nat, n: nat, b: nat)
    requires v < c.pb && Choose(c, n) == Some(b) && n > Page(c) - c.h
    ensures c.pb <= b && Cap(c, b - (c.pb - v)) < n
  {
    hide *;
    PageCaps(c);
    ChooseLeast(c, n, b);
    if b < c.pb - 1 { CapMono(c, b, c.pb - 1); }
    if v + 1 < c.pb { CapMono(c, b - (c.pb - v), b - 1); }
  }

  // The search is right exactly when `pagebucket` is right or the request is
  // below a page. The code returns to its callers with `pagebucket` still zero
  // when the first sbrk fails, and then a request of a page or more is sent to
  // a bucket whose blocks cannot hold it.
  lemma RoutedExactly(c: Machine, v: nat, n: nat)
    requires v <= c.pb
    ensures Routed(c, v, n).None? <==> Cap(c, LAST) < n
    ensures Cap(c, LAST) >= n ==>
              var b, r := Choose(c, n).value, Routed(c, v, n).value;
              && Choose(c, n).Some?
              && (n <= Cap(c, r) <==> v == c.pb || n <= Page(c) - c.h)
              && (r == b <==> v == c.pb || n <= Page(c) - c.h)
              && (n > Page(c) - c.h ==> r + c.pb == b + v)
  {
    hide Choose, Cap, Page;
    ChooseLeast(c, n, 0);
    if Cap(c, LAST) >= n {
      var b := Choose(c, n).value;
      ChooseLeast(c, n, b);
      if n > Page(c) - c.h && v < c.pb {
        LongRequest(c, v, n, b);
      }
    }
  }

  // krealloc's test for keeping a live block of bucket b, as the code computes
  // it: from the block's own size and from half of it.
  predicate KeepsBlock(c: Machine, b: nat, n: nat) {
    var onb := if Size(b) < Page(c) then Size(b) - c.h else Size(b) + Page(c) - c.h;
    var low := if b == 0 then 0
               else if Size(b - 1) < Page(c) then Size(b - 1) - c.h
               else Size(b - 1) + Page(c) - c.h;
    n <= onb && low < n
  }

  // Comparing block sizes with the page size is comparing buckets.
  lemma SizeBelowPage(c: Machine, b: nat)
    ensures Size(b) < Page(c) <==> b < c.pb
  {
    if b < c.pb { Pow2Mono(b, c.pb); } else { Pow2Mono(c.pb, b); }
  }

  // krealloc keeps a block in place exactly when the search would choose the
  // block's own bucket again.
  lemma KeepsBlockIffSameClass(c: Machine, b: nat, n: nat)
    requires b <= LAST && n > 0
    ensures KeepsBlock(c, b, n) <==> Choose(c, n) == Some(b)
  {
    SizeBelowPage(c, b);
    if b > 0 { SizeBelowPage(c, b - 1); }
    assert KeepsBlock(c, b, n) <==> n <= Cap(c, b) && (b > 0 ==> Cap(c, b - 1) < n);
    hide *;
    ChooseLeast(c, n, b);
  }

  // What a request wastes: the physical block is at most twice the request and
  // its header, except in the page bucket, where it stays below four times.
  lemma Fragmentation(c: Machine, n: nat, b: nat)
    requires Choose(c, n) == Some(b)
    ensures b != c.pb ==> Phys(c, b) <= 2 * (n + c.h)
    ensures b == c.pb ==> Phys(c, b) < 4 * (n + c.h)
  {
    ChooseLeast(c, n, b);
  }

  // Requests above the largest block that sbrk can be asked for.
  lemma TooBig(c: Machine, n: nat)
    ensures Cap(c, 27) < n <==> (Choose(c, n).None? || Choose(c, n).value >= LAST)
  {
    hide Cap;
    if Choose(c, n).Some? {
      var b := Choose(c, n).value;
      ChooseLeast(c, n, b);
      if b < 27 { CapMono(c, b, 27); }
    } else {
      ChooseLeast(c, n, LAST);
      CapMono(c, 27, LAST);
    }
  }
}
