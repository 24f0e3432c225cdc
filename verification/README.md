# Two allocators, proved

A Dafny model of two memory allocators and proofs about it:

- the Kingsley power-of-two allocator of `kmalloc/original/kmalloc.c`: thirty free
  lists threaded through the headers of blocks in an `sbrk` heap, with `kmalloc`,
  `kcalloc`, `kfree`, `krealloc`, `findbucket` and the `MSTATS` counters;
- the fixed-size chunk allocator of `rgoffi/go/fixalloc.go`.

Each allocator is modelled twice. An abstract one is a value: which blocks have been
carved, which are live, the order of every free list, the contents of every payload
(`Ledger`; `Pool` for the Go code). Its operations are functions. The concrete one is
a class with the fields of the source over byte-addressed memory; it follows the
source statement by statement, and each method is proved to do to the abstract value
exactly what the function of that operation does, with the bytes in step with it. What
the source promises is then proved about the functions: for one call, and for all runs.

## Files

| file | content |
|---|---|
| `Arithmetic.dfy` | powers of two, divisibility, ceilings, sums modulo a word |
| `SizeClasses.dfy` | sizes and capacities of buckets, the search for a bucket |
| `Memory.dfy` | little-endian words and stores in byte-addressed memory |
| `Ledgers.dfy` | the abstract allocator and its invariant |
| `Operations.dfy` | `kmalloc`, `kcalloc`, `kfree`, `krealloc` on ledgers |
| `Laws.dfy` | what one call promises |
| `Runs.dfy` | sequences of calls and client writes; what each step does, and what none does |
| `Accounts.dfy` | heap bytes summed by address and by bucket |
| `Theorems.dfy` | what holds after every run |
| `Coupling.dfy` | ledgers in bytes: links, magic numbers, payloads |
| `Allocator.dfy` | the class `Kmalloc` |
| `Driver.dfy` | the class carries out any run, and how memory is laid out then |
| `FixPools.dfy`, `FixAlloc.dfy`, `FixDriver.dfy` | the Go allocator: pools and their runs, the class `Fixalloc`, and the class carrying out any run |

## The platform and the system

`Machine` fixes `sizeof (union overhead)` (4 or 8, also the width of `long` and of
pointers) and the page size, any power of two from 16 bytes up to the largest for
which the code's own `sz + pagesz` fits a `long`. Integers are unbounded in Dafny, so
widths are written out where the code depends on them: `amt` wraps at 32 bits,
`amt + n` at the width of a `long`, `1 << (bucket + 3)` is an `int` and negative for
bucket 28, the product in `kcalloc` wraps at a `size_t`, counters and totals at 32
bits, a pointer has to fit its header. `(long) op & (n - 1)` is written as a remainder; alignment is stated in trailing
zero bits, and `PointersAligned` turns it into multiples.

The system answers every `sbrk` as it likes: it fails without effect, or gives zero
bytes at the old break. Nobody else moves the break. Clients write only inside
payloads they own, and these writes are part of every run. Memory starts with any
contents. For the Go code, `persistentAlloc` throws or gives zeroed memory at any
address that is not in use.

A run stops at three failures that the code does not survive: the first `sbrk` is
refused, `kcalloc` clears through a NULL result (exactly when: `CallocFails`), or
`krealloc` is given a freed block that neither of its searches reaches and shifts an
`int` by 33 (exactly when: `CompactionFails`, and told by the rank of the block on its
list: `CompactionByRank`). The first is worth knowing about. `pagesz` has then been set
and `pagebucket` has not, no later call repeats the initialisation, and `RoutedExactly` proves what follows: from then on a request is
sent to a large enough bucket exactly if it is below a page.

Other places where the code and what is said of it differ, with the exact condition:

- `krealloc` that returns NULL has already freed the old block; section 7.22.3.5 of
  ISO/IEC 9899:2011 says that the block is then kept. For a live block and a size above
  zero this happens exactly when the request is of another class than the block, and
  no bucket fits or the bucket's list is empty and the system gives nothing
  (`ReallocLoses`). It does happen: every request above the capacity of bucket 27
  costs the caller the block (`HugeReallocLoses`).
- `kcalloc` hands out room for `nelem * elsize` bytes exactly when the product does
  not wrap (`CallocLaws`), and a product that wraps to 0 is served with the smallest
  block if there is one (`CallocWraps`).
- The header comment gives block sizes of 2^n - 4 or 2^n - 10 bytes. With an 8-byte
  header they are 2^n - 8, so that bucket 0 holds nothing, and a block of a page or
  more has a whole page on top (`Cap`).

## Model

| member | source | states |
|---|---|---|
| SizeClasses.ChooseLeast | kmalloc/original/kmalloc.c:191-210 | the reference: the chosen bucket is the least that is large enough, among those whose size fits 32 bits, and no bucket is chosen exactly when the last one is too small |
| SizeClasses.Search | kmalloc/original/kmalloc.c:191-210 | the two-branch loop with wrapping `amt` ends, and ends in the reference bucket, shifted by the error of `pagebucket` if there is one |
| SizeClasses.RoutedExactly | kmalloc/original/kmalloc.c:167-204 | for any value of `pagebucket`, the search finds a bucket if and only if one fits; that bucket is large enough, and is the right one, if and only if `pagebucket` is right or the request is below a page; else it is off by just the error of `pagebucket` |
| SizeClasses.KeepsBlockIffSameClass | kmalloc/original/kmalloc.c:400-419 | the in-place test of `krealloc` holds if and only if the search would choose the block's bucket again, bucket 0 and the page bucket included |
| SizeClasses.Fragmentation | kmalloc/original/kmalloc.c:191-275 | a block takes at most twice the request with its header, in the page bucket less than four times |
| SizeClasses.TooBig | kmalloc/original/kmalloc.c:204-210 | requests above the capacity of bucket 27 are exactly those sent to bucket 28 or nowhere |
| Memory.DecodeEncode | kmalloc/original/kmalloc.c:82-91 | a pointer stored in a header is read back |
| Memory.EncodeDecode | kmalloc/original/kmalloc.c:82-91 | storing what a header holds changes no byte of it |
| Ledgers.PadAligns | kmalloc/original/kmalloc.c:168-173 | the first `sbrk` leaves the break a header short of a page boundary and asks for less than a page |
| Ledgers.GrabIs | kmalloc/original/kmalloc.c:269-275 | what `morecore` asks for is exactly filled by its blocks, spare page included, and is a whole number of pages |
| Ledgers.OpeningOk | kmalloc/original/kmalloc.c:121-134 | the invariant holds of a fresh process |
| Ledgers.PrimeOk | kmalloc/original/kmalloc.c:167-185 | initialisation keeps the invariant |
| Ledgers.GrowOk | kmalloc/original/kmalloc.c:251-289 | carving keeps the tiling, the alignment, the lists, the contents and the counts |
| Ledgers.PopOk | kmalloc/original/kmalloc.c:222-227 | taking the head of a list keeps the invariant |
| Ledgers.PushOk | kmalloc/original/kmalloc.c:312-318 | freeing a live block keeps the invariant |
| Ledgers.PokeOk | kmalloc/original/kmalloc.c:425-426 | writing inside a payload keeps the invariant |
| Ledgers.TilesApart | kmalloc/original/kmalloc.c:262-288 | different blocks of a tiling have no common byte |
| Ledgers.TilesCover | kmalloc/original/kmalloc.c:262-288 | every byte of a tiled range lies in a block |
| Operations.AtUnique | kmalloc/original/kmalloc.c:237-301 | a pointer names one block |
| Operations.MallocLaws | kmalloc/original/kmalloc.c:156-238 | a non-NULL result is a block that was not live, of the chosen class and large enough; the others stay live and no payload changes; NULL changes nothing but the initialisation |
| Operations.FreeLaws | kmalloc/original/kmalloc.c:294-319 | a live block goes to the head of its own list with its contents; freeing a free block changes nothing |
| Operations.MoveLaws | kmalloc/original/kmalloc.c:423-427 | the new block receives the first min(request, old capacity) bytes; no other payload changes |
| Operations.WithinRank | kmalloc/original/kmalloc.c:435-449 | looking at `limit` entries of a list finds exactly those of rank below `limit`, a negative limit finds all, and no other list has the address |
| Operations.FindableRank | kmalloc/original/kmalloc.c:396-398 | the two searches of `krealloc` reach the block of rank k exactly when k is 0, or the limit is negative or above k |
| Laws.PrimeLaws | kmalloc/original/kmalloc.c:167-185 | the first call moves the break to the next address a header short of a page boundary and changes nothing else, or is refused and moves nothing |
| Laws.MallocServes | kmalloc/original/kmalloc.c:211-288 | what a call does to the whole ledger: the head of the right list is taken; or the list is empty, the size is an `int` and the system gives a page (a page beyond the size from the page bucket on), and then the first of the new blocks, which lie side by side in address order and are zero, is handed out and the rest is the list; or the answer is NULL and nothing has changed |
| Laws.MallocFails | kmalloc/original/kmalloc.c:167-289 | NULL exactly when the first call's `sbrk` is refused, or no bucket fits, or the list is empty and the bucket is 28 or the system does not give the bytes, which are counted here in the code's own terms; then nothing but the initialisation has changed |
| Laws.CallocFails | kmalloc/original/kmalloc.c:240-245 | NULL, and a clear through it, exactly when allocating the wrapped product fails for one of these reasons |
| Laws.CallocWraps | kmalloc/original/kmalloc.c:240-245 | a product equal to the number of addresses is served with a block of bucket 0 if one is listed |
| Laws.HugeRequestsFail | kmalloc/original/kmalloc.c:204-268 | requests above the capacity of bucket 27 return NULL and leave the heap as it is, whatever the system would grant |
| Laws.PointersAligned | kmalloc/original/kmalloc.c:167-237 | pointers are multiples of min(2^(b+3), page size) and the break stays a header short of a page boundary |
| Laws.ReallocLive | kmalloc/original/kmalloc.c:400-427 | a live block stays exactly when its class is kept; otherwise it is gone, the result is of the class of the request and has no byte in common with it, and holds its first min(request, old capacity) bytes although these are read after the free |
| Laws.ReallocServes | kmalloc/original/kmalloc.c:419-427 | a live block of another class is replaced by what `kmalloc` hands out after the free, and besides that only payload bytes change |
| Laws.ReallocLoses | kmalloc/original/kmalloc.c:414-424 | for a live block, NULL exactly when the request is of another class and no bucket fits or its list is empty and the system gives nothing; the block is then free |
| Laws.HugeReallocLoses | kmalloc/original/kmalloc.c:414-424 | a request above the capacity of bucket 27 always ends so, whatever the system would grant |
| Laws.CompactionFails | kmalloc/original/kmalloc.c:381-424 | for a freed block, the code goes wrong exactly when neither search reaches it, and otherwise returns NULL exactly when the request is not served, with nothing changed |
| Laws.CompactionByRank | kmalloc/original/kmalloc.c:381-427 | the block of rank k on its list is resized exactly when k is 0, or the limit is negative or above k, and then lists, blocks and pointer are those of a `kmalloc`; otherwise the code goes wrong |
| Laws.Compaction | kmalloc/original/kmalloc.c:381-427 | a freed block that is found gives the contents it still holds; the same pointer comes back exactly when the block heads the list of the request's class, and then nothing is copied |
| Laws.CompactionUndoesFree | kmalloc/original/kmalloc.c:347-427 | a block freed and at once reallocated is found for any search limit and keeps its contents; if its class is kept the two calls together change nothing |
| Laws.WholeSearchDecides | kmalloc/original/kmalloc.c:430-449 | with a negative limit the search finds a block exactly when it is free |
| Runs.CallocLaws | kmalloc/original/kmalloc.c:240-245 | a new block that reads as zero over the wrapped product, with no other payload byte changed; room for the true product exactly when it does not wrap |
| Runs.CallocServes | kmalloc/original/kmalloc.c:240-245 | the pointer, the lists and the blocks are those of a `kmalloc` of the wrapped product |
| Runs.StepLaws | kmalloc/original/kmalloc.c:156-428 | every call keeps the invariant; a live block that the call does not name stays live; bytes change only by a client's own write or in a block being handed out |
| Runs.KmallocStep | kmalloc/original/kmalloc.c:156-238 | in a run, `kmalloc (n)` hands out a new block of the class of n, with room for n, and NULL exactly when it is not served |
| Runs.KcallocStep | kmalloc/original/kmalloc.c:240-245 | in a run, `kcalloc` hands out a cleared block of the class of its own wrapped product, and NULL exactly when that is not served |
| Runs.KfreeStep | kmalloc/original/kmalloc.c:294-319 | in a run, `kfree` of a live block puts it at the head of its own list and changes nothing else; of NULL or of a free block it changes nothing |
| Runs.KreallocStep | kmalloc/original/kmalloc.c:363-374 | in a run, `krealloc` of NULL is `kmalloc`, to size 0 it is `kfree`, and otherwise it resizes with the search limit of that call |
| Runs.WriteStep | kmalloc/original/kmalloc.c:82-91 | in a run, a client's write puts its bytes at their places in the payload and changes nothing else |
| Runs.RunSnoc | kmalloc/original/kmalloc.c:156-428 | a run of one event more is the run and then that event, and is legal exactly when the event is possible then |
| Runs.PointersLast | kmalloc/original/kmalloc.c:294-428 | a pointer once handed out names the same block for ever, and can be freed or resized after any run that has not ended |
| Theorems.HeapPartitioned | kmalloc/original/kmalloc.c:215-315 | after every run each heap byte lies in exactly one block, which is live and on no list, or once on its own list and on no other |
| Theorems.Isolation | kmalloc/original/kmalloc.c:156-428 | through any run, a live block that no call names and no client writes to stays live with every byte unchanged |
| Theorems.StepCarves | kmalloc/original/kmalloc.c:215-289 | one call carves nothing for a bucket, or one lot, and then all blocks carved before are live and one more |
| Theorems.HighWater | kmalloc/original/kmalloc.c:215-288 | after every run the blocks carved for a bucket are k times the ceiling of its peak demand over k, k being the yield of one `morecore` |
| Theorems.HeapSize | kmalloc/original/kmalloc.c:269-288 | after every run the heap has exactly the bytes that the peak demands need in whole `morecore` calls |
| Accounts.Conservation | kmalloc/original/kmalloc.c:468-480 | free and used blocks at 2^(b+3) bytes, plus a page for each block of the page bucket or above, make up the heap |
| Accounts.ListsFit | kmalloc/original/kmalloc.c:435-449 | a free list has at most an eighth as many blocks as there are addresses |
| Coupling.PrimeBytes | kmalloc/original/kmalloc.c:168-177 | the padding keeps bytes and ledger in step |
| Coupling.LinkUpChain | kmalloc/original/kmalloc.c:284-288 | the carving loop leaves a list of all new blocks in address order, ended by the last header, which it never writes |
| Coupling.GrowBytes | kmalloc/original/kmalloc.c:276-288 | `morecore` keeps bytes and ledger in step |
| Coupling.PopBytes | kmalloc/original/kmalloc.c:222-224 | so do the three stores of `kmalloc`, which touch two bytes |
| Coupling.PushBytes | kmalloc/original/kmalloc.c:312-315 | so do the two stores of `kfree` |
| Coupling.PokeBytes | kmalloc/original/kmalloc.c:425-426 | so does a write inside a payload |
| Coupling.MagicDecisive | kmalloc/original/kmalloc.c:82-85 | the low header byte is the magic number if and only if the block is live, and then the next byte is its bucket |
| Coupling.PopPushBytes | kmalloc/original/kmalloc.c:222-315 | freeing what was just allocated restores every header byte, stale ones included |
| Allocator.CopyImage | kmalloc/original/kmalloc.c:425-426 | source and destination of the copy are in bounds and have no common byte; the copy moves contents from block to block |
| Allocator.FoundBucket | kmalloc/original/kmalloc.c:396-397 | what `findbucket` finds for a block is its own bucket, and it finds it exactly when it is among the entries looked at |
| Allocator.Kmalloc.constructor | kmalloc/original/kmalloc.c:120-134 | a fresh process over any memory image |
| Allocator.Kmalloc.PageBucket | kmalloc/original/kmalloc.c:178-184 | the loop finds the bucket whose size is a page |
| Allocator.Kmalloc.Setup | kmalloc/original/kmalloc.c:167-185 | the first call aligns the break and sets both statics, or fails with `pagebucket` still zero |
| Allocator.Kmalloc.Morecore | kmalloc/original/kmalloc.c:251-289 | does what growing does to the ledger; the list head becomes the old break and the break moves by a page, or by the size and a page, exactly when the bucket is below 28 and the system gives the bytes; else nothing at all changes |
| Allocator.Kmalloc.Link | kmalloc/original/kmalloc.c:285-288 | the carving loop writes the links of the reference function |
| Allocator.Kmalloc.Kmalloc | kmalloc/original/kmalloc.c:156-238 | does what allocation does to the ledger, and on a filled list changes two header bytes and one list head |
| Allocator.Kmalloc.Take | kmalloc/original/kmalloc.c:191-237 | the same once the statics are set |
| Allocator.Kmalloc.Kcalloc | kmalloc/original/kmalloc.c:240-245 | does what clearing allocation does to the ledger |
| Allocator.Kmalloc.Kfree | kmalloc/original/kmalloc.c:294-319 | decided by the magic byte, does what freeing does to the ledger, changing one header and one list head; on a free block or NULL it changes nothing at all, in bytes or in the ledger |
| Allocator.Kmalloc.BucketOf | kmalloc/original/kmalloc.c:377-399 | tells live from free, and recovers the bucket of a live block, or of the free block of rank k exactly when k is 0, or `realloc_srchlen` is negative or above k; NBUCKETS otherwise |
| Allocator.Kmalloc.Findbucket | kmalloc/original/kmalloc.c:435-449 | ends, and returns the list on which the address stands if its rank there is below a `limit` that is not negative, or at any rank if it is; -1 otherwise |
| Allocator.Kmalloc.Refill | kmalloc/original/kmalloc.c:423-427 | does what moving does to the ledger |
| Allocator.Kmalloc.Krealloc | kmalloc/original/kmalloc.c:363-428 | does what resizing does to the ledger, on all its routes |
| Allocator.Kmalloc.ListLength | kmalloc/original/kmalloc.c:469-470 | the walk of a list counts it, modulo 2^32 |
| Allocator.Kmalloc.Mstats | kmalloc/original/kmalloc.c:467-480 | modulo 2^32: the lengths of the lists, the counters, which are the live blocks, and their sums, which are the blocks carved; the totals are the free and used bytes and with the spare pages make up the heap |
| Allocator.Kmalloc.NestRun | kmalloc/original/kmalloc.c:215-315 | allocations and frees nested like brackets that never call `morecore` restore memory, list heads and lists exactly |
| Driver.LaidOut | kmalloc/original/kmalloc.c:68-134 | the invariant of the class, told index by index instead of along the links |
| Driver.Perform | kmalloc/original/kmalloc.c:156-428 | one call of the class is one step of a run, and afterwards memory is laid out as the ledger says, place by place: payloads, magic bytes and bucket numbers, every link of every list, list heads, counters |
| Driver.Drive | kmalloc/original/kmalloc.c:156-428 | the class carries out any legal run from any memory image and ends in the run's ledger, laid out so |
| FixPools.AllocOk | rgoffi/go/fixalloc.go:45-70 | allocation keeps the invariant and hands out an object that was not live |
| FixPools.GivenIsApart | rgoffi/go/fixalloc.go:45-70 | the object has no byte in common with a live one |
| FixPools.FreeOk | rgoffi/go/fixalloc.go:72-77 | freeing a live object keeps the invariant |
| FixPools.ChunkFits | rgoffi/go/fixalloc.go:40-40 | a chunk is a whole number of objects, at most 16384 bytes, and one object more would be above that |
| FixPools.AllocCases | rgoffi/go/fixalloc.go:45-70 | the object freed last comes first; else the next one behind the tail; else the first of a new chunk, which has 16384 / size objects |
| FixPools.GiveThenTake | rgoffi/go/fixalloc.go:45-77 | an object given back is the next one handed out, and the two calls together change nothing |
| FixPools.Conservation | rgoffi/go/fixalloc.go:28-77 | chunk bytes are in use, listed or unused; less than an object is left exactly when nothing is left, so refilling strands nothing |
| FixPools.ChunksPartitioned | rgoffi/go/fixalloc.go:28-77 | after every run each chunk byte lies in the tail or in exactly one object, live or listed once |
| FixPools.HighWater | rgoffi/go/fixalloc.go:40-77 | after every run the chunks asked for are the ceiling of the peak number of live objects over the objects of a chunk |
| FixPools.StaysLive | rgoffi/go/fixalloc.go:45-77 | through any run, a live object that is not given back stays live |
| FixPools.StepCases | rgoffi/go/fixalloc.go:45-77 | in a run, a free puts its own object at the head of the list, a refused chunk and a client's write change nothing in the pool, and an allocation is one of `AllocCases` |
| FixPools.RunSnoc | rgoffi/go/fixalloc.go:45-77 | a run of one operation more is the run and then that operation, and is legal exactly when the operation is possible then |
| FixAlloc.Fixalloc.Init | rgoffi/go/fixalloc.go:28-43 | panics exactly above the chunk size; otherwise an empty pool of objects of at least a link, with `nalloc` the largest multiple of the object size up to 16384 |
| FixAlloc.Fixalloc.Alloc | rgoffi/go/fixalloc.go:45-70 | panics exactly before initialisation; otherwise does what allocation does to the pool; `inuse` grows by the object size; the object reads as zero over its size, no other mapped byte changes, and memory is mapped for a new chunk only |
| FixAlloc.Fixalloc.Reuse | rgoffi/go/fixalloc.go:50-58 | takes the head of the list and clears it if `zero` is set |
| FixAlloc.Fixalloc.Bump | rgoffi/go/fixalloc.go:60-69 | refills if nothing is left and carves the next object, zero as it came |
| FixAlloc.Fixalloc.Free | rgoffi/go/fixalloc.go:72-77 | does what freeing does to the pool; the object holds the old list head and becomes the head; `inuse` shrinks by the object size |
| FixDriver.Perform | rgoffi/go/fixalloc.go:45-77 | one operation of the class is one step of a run; an object handed out reads as zero, a client's bytes arrive at their places, and every live object that the operation does not touch keeps its bytes; the fields and links are laid out as the pool says |
| FixDriver.Continue | rgoffi/go/fixalloc.go:45-77 | through any run of the class, client writes included, a live object that no one gives back or writes to stays live with every byte unchanged |
| FixDriver.Drive | rgoffi/go/fixalloc.go:28-77 | the class, initialised over any memory, carries out any legal run and ends in the run's pool: `inuse` is the live bytes, and with listed objects and the rest of the latest chunk these are the chunks |

## Left out

- Allocator.Kmalloc.Krealloc: the shift by 33 (lines 398-400) has no meaning in C, so a freed block out of reach ends the run.
- Allocator.Kmalloc.Findbucket: the counter `j` does not overflow. With 4-byte pointers it cannot (`ListsFit`); with 8-byte pointers, a negative limit and a list of 2^31 blocks it would.
- Allocator.Kmalloc.Mstats: for bucket 29 the code computes `1 << 32`, which has no meaning in C; the model multiplies an empty list by 2^32. The text printed is left out.
- Allocator.Kmalloc.Kcalloc: a NULL result ends the run, because the code clears through it.
- FixAlloc.Fixalloc.Alloc: `persistentAlloc` itself is not part of this model; an answer that overlaps a chunk or memory mapped before initialisation is excluded.
- Runs after a refused first `sbrk`: only the routing of requests is stated for them.
- `kmalloc_usable_size` (returns the bucket number) and the RCHECK and DEBUG variants.
- Pointers that the allocator never handed out, and writes outside owned payloads.
- Concurrent calls: neither source takes a lock.
- `kmalloc/src/kmalloc.rs` and `rgoffi/go/gocruntime/fixalloc.c`, ports of the two allocators, and the rest of the repository (search tool, lock ranks, atomics, wrappers).
