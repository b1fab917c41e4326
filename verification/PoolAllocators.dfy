// The size-class front end: small and medium pools, the heap for the rest,
// and the hit and miss counters.
module PoolAllocators {
  import opened Outcomes
  import opened PoolMemory
  import opened MemoryPool

  const SMALL := 64
  const MEDIUM := 256
  const BLOCKS := 1024

  // 0 for small, 1 for medium, 2 for large.
  function SizeClass(size: nat): nat {
    if size <= SMALL then 0 else if size <= MEDIUM then 1 else 2
  }

  datatype Stats = Stats(hits: nat, misses: nat, smallAllocs: nat, mediumAllocs: nat, deallocations: nat)

  datatype Source = FromSmall | FromMedium | FromHeap

  // A region somebody holds: the size asked for and where it came from.
  datatype Region = Region(size: nat, source: Source)

  type Holdings = map<Addr, Region>

  // Where a request goes when its pool can serve it.
  function SourceFor(size: nat): Source {
    match SizeClass(size)
    case 0 => FromSmall
    case 1 => FromMedium
    case _ => FromHeap
  }

  // The bytes actually set aside for a region.
  function Extent(r: Region): nat {
    match r.source
    case FromSmall => SMALL
    case FromMedium => MEDIUM
    case FromHeap => r.size
  }

  // ---- Addresses: two pools' chunks and the heap's regions ----

  // Regions of the heap and their lengths.
  type Regions = map<Addr, nat>

  // A range that meets no chunk of the list.
  ghost predicate ClearOf(p: Addr, m: nat, chunks: seq<Addr>, len: nat) {
    forall i :: 0 <= i < |chunks| ==> Apart(p, m, chunks[i], len)
  }

  // A range that meets no region of the heap other than its own.
  ghost predicate ClearOfHeap(p: Addr, m: nat, regions: Regions) {
    forall q :: q in regions && q != p ==> Apart(p, m, q, regions[q])
  }

  ghost predicate SeparateAddresses(small: seq<Addr>, medium: seq<Addr>, regions: Regions) {
    (forall i :: 0 <= i < |small| ==> ClearOf(small[i], SMALL * BLOCKS, medium, MEDIUM * BLOCKS)) &&
    (forall p :: p in regions ==>
       p > 0 && regions[p] > 0 && ClearOf(p, regions[p], small, SMALL * BLOCKS) &&
       ClearOf(p, regions[p], medium, MEDIUM * BLOCKS) && ClearOfHeap(p, regions[p], regions))
  }

  // What is held from each pool is its live blocks, what is held from the
  // heap is a region of it, and sizes fit.
  ghost predicate HeldFrom(small: set<Addr>, medium: set<Addr>, regions: Regions, held: Holdings) {
    (forall p :: p in small <==> p in held && held[p].source == FromSmall) &&
    (forall p :: p in medium <==> p in held && held[p].source == FromMedium) &&
    (forall p :: p in held && held[p].source == FromHeap ==> p in regions && regions[p] == held[p].size) &&
    (forall p :: p in held ==> 0 < held[p].size <= Extent(held[p])) &&
    (forall p :: p in held && held[p].source == FromMedium ==> held[p].size > SMALL)
  }

  lemma {:induction false} GrowSmall(small: seq<Addr>, medium: seq<Addr>, regions: Regions, base: Addr)
    requires SeparateAddresses(small, medium, regions)
    requires ClearOf(base, SMALL * BLOCKS, medium, MEDIUM * BLOCKS)
    requires forall p :: p in regions ==> Apart(p, regions[p], base, SMALL * BLOCKS)
    ensures SeparateAddresses(small + [base], medium, regions)
  {
  }

  lemma {:induction false} GrowMedium(small: seq<Addr>, medium: seq<Addr>, regions: Regions, base: Addr)
    requires SeparateAddresses(small, medium, regions)
    requires ClearOf(base, MEDIUM * BLOCKS, small, SMALL * BLOCKS)
    requires forall p :: p in regions ==> Apart(p, regions[p], base, MEDIUM * BLOCKS)
    ensures SeparateAddresses(small, medium + [base], regions)
  {
  }

  lemma {:induction false} HoldBlock(regions: Regions, held: Holdings, s: set<Addr>, m: set<Addr>, p: Addr, size: nat)
    requires HeldFrom(s, m, regions, held) && p !in held && 0 < size <= MEDIUM
    ensures HeldFrom(if size <= SMALL then s + {p} else s, if size <= SMALL then m else m + {p}, regions,
                     held[p := Region(size, SourceFor(size))])
  {
  }

  lemma {:induction false} HoldHeap(regions: Regions, held: Holdings, s: set<Addr>, m: set<Addr>, p: Addr, size: nat)
    requires HeldFrom(s, m, regions, held) && p !in held && 0 < size && p !in regions
    ensures HeldFrom(s, m, regions[p := size], held[p := Region(size, FromHeap)])
  {
  }

  lemma {:induction false} NewRegion(small: seq<Addr>, medium: seq<Addr>, regions: Regions, p: Addr, size: nat)
    requires SeparateAddresses(small, medium, regions) && p !in regions && 0 < size && p > 0
    requires ClearOf(p, size, small, SMALL * BLOCKS) && ClearOf(p, size, medium, MEDIUM * BLOCKS)
    requires ClearOfHeap(p, size, regions)
    ensures SeparateAddresses(small, medium, regions[p := size])
  {
    hide ClearOf;
  }

  lemma {:induction false} OldRegion(small: seq<Addr>, medium: seq<Addr>, regions: Regions, p: Addr)
    requires SeparateAddresses(small, medium, regions)
    ensures SeparateAddresses(small, medium, regions - {p})
  {
    hide ClearOf;
  }

  // Giving back what is held at p; a heap region may be freed with it.
  lemma {:induction false} Drop(regions: Regions, held: Holdings, s: set<Addr>, m: set<Addr>, p: Addr)
    requires HeldFrom(s, m, regions, held) && p in held
    ensures HeldFrom(s - {p}, m - {p}, regions, held - {p})
    ensures HeldFrom(s - {p}, m - {p}, regions - {p}, held - {p})
    ensures held[p].source != FromSmall ==> s - {p} == s
    ensures held[p].source != FromMedium ==> m - {p} == m
  {
  }

  // ---- operator new and operator delete ----

  // The part of the heap the allocator uses: the regions that `operator new`
  // returned to it and that `operator delete` has not freed.
  class SystemHeap {
    var regions: Regions

    constructor ()
      ensures regions == map[]
    {
      regions := map[];
    }

    // offered is what the system finds, or null.
    method OperatorNew(size: nat, offered: Addr) returns (p: Addr)
      requires offered != NULL ==> offered !in regions
      modifies this
      ensures p == offered
      ensures regions == if p == NULL then old(regions) else old(regions)[p := size]
    {
      p := offered;
      if p != NULL {
        regions := regions[p := size];
      }
    }

    method OperatorDelete(p: Addr)
      requires p in regions
      modifies this
      ensures regions == old(regions) - {p}
    {
      regions := regions - {p};
    }
  }

  class PoolAllocator {
    const small: FixedBlockPool
    const medium: FixedBlockPool
    const heap: SystemHeap
    var stats: Stats
    ghost var held: Holdings        // regions handed out and not given back
    ghost var served: seq<Source>   // what served each request since the last reset

    ghost predicate Valid()
      reads this, small, medium, heap
    {
      PoolsRight() && Counted() &&
      SeparateAddresses(small.chunks, medium.chunks, heap.regions) &&
      HeldFrom(small.live, medium.live, heap.regions, held)
    }

    ghost predicate PoolsRight()
      reads this, small, medium
    {
      small != medium && small.Valid() && medium.Valid() &&
      small.blockSize == SMALL && medium.blockSize == MEDIUM &&
      small.perChunk == BLOCKS && medium.perChunk == BLOCKS
    }

    // The counters say what served the requests; a request nobody could serve
    // is one of the heap's.
    ghost predicate Counted()
      reads this
    {
      stats.smallAllocs == multiset(served)[FromSmall] && stats.mediumAllocs == multiset(served)[FromMedium] &&
      stats.hits == stats.smallAllocs + stats.mediumAllocs && stats.misses == multiset(served)[FromHeap] &&
      stats.hits + stats.misses == |served|
    }

    // Regions of the heap that nobody holds and nothing will free.
    ghost function Lost(): set<Addr>
      reads this, heap
    {
      heap.regions.Keys - held.Keys
    }

    // A chunk the system may hand out to either pool: clear of the other
    // pool's chunks and of the heap's regions.
    ghost predicate ChunkOffered(c: Fresh, size: nat)
      reads this, small, medium, heap
    {
      (if size <= SMALL
       then small.Offered(c) && ClearOf(c.base, SMALL * BLOCKS, medium.chunks, MEDIUM * BLOCKS)
       else medium.Offered(c) && ClearOf(c.base, MEDIUM * BLOCKS, small.chunks, SMALL * BLOCKS)) &&
      forall p :: p in heap.regions ==>
        Apart(p, heap.regions[p], c.base, (if size <= SMALL then SMALL else MEDIUM) * BLOCKS)
    }

    // A region `operator new` may return.
    ghost predicate HeapOffered(p: Addr, size: nat)
      reads this, small, medium, heap
    {
      p !in held && p !in heap.regions && ClearOf(p, size, small.chunks, SMALL * BLOCKS) &&
      ClearOf(p, size, medium.chunks, MEDIUM * BLOCKS) && ClearOfHeap(p, size, heap.regions)
    }

    constructor ()
      ensures Valid() && fresh(small) && fresh(medium) && fresh(heap) && held == map[] && served == []
      ensures stats == Stats(0, 0, 0, 0, 0) && heap.regions == map[]
      ensures small.chunks == [] && small.chain == [] && medium.chunks == [] && medium.chain == []
      ensures small.blockSize == 64 && medium.blockSize == 256 && small.perChunk == medium.perChunk == 1024
    {
      small := new FixedBlockPool(SMALL, BLOCKS);
      medium := new FixedBlockPool(MEDIUM, BLOCKS);
      heap := new SystemHeap();
      stats := Stats(0, 0, 0, 0, 0);
      held, served := map[], [];
    }

    method ResetStats()
      requires Valid()
      modifies this
      ensures Valid() && stats == Stats(0, 0, 0, 0, 0) && served == []
      ensures held == old(held) && Lost() == old(Lost())
    {
      stats := Stats(0, 0, 0, 0, 0);
      served := [];
    }

    // Can the pool of a small or medium request serve it?
    ghost predicate CanServe(size: nat, chunk: Option<Fresh>)
      reads this, small, medium
    {
      0 < size <= 256 && (chunk.Some? || (if size <= 64 then small.chain else medium.chain) != [])
    }

    // Before anything was allocated the heap may offer any region, and no pool
    // has a block.
    lemma {:induction false} Untouched(offered: Addr, size: nat)
      requires small.chunks == [] && small.chain == [] && medium.chunks == [] && medium.chain == []
      requires heap.regions == map[] && held == map[]
      ensures HeapOffered(offered, size) && !CanServe(size, None)
    {
    }

    // Nothing a client wrote in a pool's block has changed.
    twostate predicate ClientsKept(smallLive: set<Addr>, mediumLive: set<Addr>)
      reads small, medium
    {
      LiveKept(old(small.mem), small.mem, smallLive, SMALL) && LiveKept(old(medium.mem), medium.mem, mediumLive, MEDIUM)
    }

    // The small pool serves a request, or reports that it cannot.
    method ServeSmall(size: nat, chunk: Option<Fresh>) returns (r: Result<Addr, PoolError>)
      requires Valid() && 0 < size <= SMALL && (chunk.Some? ==> ChunkOffered(chunk.value, size))
      modifies this, small
      ensures Valid() && LiveKept(old(small.mem), small.mem, old(small.live), SMALL)
      ensures r.Ok? <==> old(CanServe(size, chunk))
      ensures r.Ok? ==> r.value != NULL && r.value !in old(held) && r.value !in heap.regions &&
                        held == old(held)[r.value := Region(size, FromSmall)] && served == old(served) + [FromSmall] &&
                        stats == old(stats).(hits := old(stats).hits + 1, smallAllocs := old(stats).smallAllocs + 1)
      ensures r.Err? ==> held == old(held) && served == old(served) && stats == old(stats) &&
                         small.chunks == old(small.chunks) && small.live == old(small.live)
      ensures Lost() == old(Lost())
    {
      hide FixedBlockPool.Valid, FixedBlockPool.Offered, LiveKept, NewChain, BlockAt, SeparateAddresses, HeldFrom, ClearOf;
      r := small.Allocate(chunk);
      if small.chunks != old(small.chunks) {
        GrowSmall(old(small.chunks), medium.chunks, heap.regions, chunk.value.base);
      }
      if r.Ok? {
        var p := r.value;
        OwnAddresses(old(small.live), p);
        HoldBlock(heap.regions, held, old(small.live), medium.live, p, size);
        stats := stats.(hits := stats.hits + 1, smallAllocs := stats.smallAllocs + 1);
        held, served := held[p := Region(size, FromSmall)], served + [FromSmall];
      }
    }

    // The medium pool serves a request, or reports that it cannot.
    method ServeMedium(size: nat, chunk: Option<Fresh>) returns (r: Result<Addr, PoolError>)
      requires Valid() && SMALL < size <= MEDIUM && (chunk.Some? ==> ChunkOffered(chunk.value, size))
      modifies this, medium
      ensures Valid() && LiveKept(old(medium.mem), medium.mem, old(medium.live), MEDIUM)
      ensures r.Ok? <==> old(CanServe(size, chunk))
      ensures r.Ok? ==> r.value != NULL && r.value !in old(held) && r.value !in heap.regions &&
                        held == old(held)[r.value := Region(size, FromMedium)] && served == old(served) + [FromMedium] &&
                        stats == old(stats).(hits := old(stats).hits + 1, mediumAllocs := old(stats).mediumAllocs + 1)
      ensures r.Err? ==> held == old(held) && served == old(served) && stats == old(stats) &&
                         medium.chunks == old(medium.chunks) && medium.live == old(medium.live)
      ensures Lost() == old(Lost())
    {
      hide FixedBlockPool.Valid, FixedBlockPool.Offered, LiveKept, NewChain, BlockAt, SeparateAddresses, HeldFrom, ClearOf;
      r := medium.Allocate(chunk);
      if medium.chunks != old(medium.chunks) {
        GrowMedium(small.chunks, old(medium.chunks), heap.regions, chunk.value.base);
      }
      if r.Ok? {
        var p := r.value;
        OwnAddresses(old(medium.live), p);
        HoldBlock(heap.regions, held, small.live, old(medium.live), p, size);
        stats := stats.(hits := stats.hits + 1, mediumAllocs := stats.mediumAllocs + 1);
        held, served := held[p := Region(size, FromMedium)], served + [FromMedium];
      }
    }

    // The pool of a small or medium request serves it, or reports that it
    // cannot.
    method ServePool(size: nat, chunk: Option<Fresh>) returns (r: Result<Addr, PoolError>)
      requires Valid() && 0 < size <= MEDIUM && (chunk.Some? ==> ChunkOffered(chunk.value, size))
      modifies this, small, medium
      ensures Valid() && ClientsKept(old(small.live), old(medium.live)) && Lost() == old(Lost())
      ensures r.Ok? <==> old(CanServe(size, chunk))
      ensures r.Ok? ==> r.value != NULL && r.value !in old(held) &&
                        held == old(held)[r.value := Region(size, SourceFor(size))] && served == old(served) + [SourceFor(size)]
      ensures r.Ok? ==>
                stats == if size <= SMALL
                         then old(stats).(hits := old(stats).hits + 1, smallAllocs := old(stats).smallAllocs + 1)
                         else old(stats).(hits := old(stats).hits + 1, mediumAllocs := old(stats).mediumAllocs + 1)
      ensures r.Err? ==> held == old(held) && served == old(served) && stats == old(stats) &&
                         small.chunks == old(small.chunks) && medium.chunks == old(medium.chunks)
    {
      hide PoolAllocator.Valid, LiveKept, PoolAllocator.ChunkOffered, PoolAllocator.Lost, FixedBlockPool.Valid;
      SameMemory();
      if size <= SMALL {
        r := ServeSmall(size, chunk);
      } else {
        r := ServeMedium(size, chunk);
      }
    }

    // The heap serves a request, or returns null.
    method ServeHeap(size: nat, offered: Addr) returns (p: Addr)
      requires Valid() && size > 0 && (offered != NULL ==> HeapOffered(offered, size))
      modifies this, heap
      ensures Valid() && p == offered && served == old(served) + [FromHeap]
      ensures held == if p == NULL then old(held) else old(held)[p := Region(size, FromHeap)]
      ensures heap.regions == if p == NULL then old(heap.regions) else old(heap.regions)[p := size]
      ensures stats == old(stats).(misses := old(stats).misses + 1) && Lost() == old(Lost())
    {
      hide FixedBlockPool.Valid, LiveKept, SeparateAddresses, HeldFrom, ClearOf, ClearOfHeap;
      stats := stats.(misses := stats.misses + 1);
      served := served + [FromHeap];
      p := heap.OperatorNew(size, offered);
      if p != NULL {
        NewRegion(small.chunks, medium.chunks, old(heap.regions), p, size);
        HoldHeap(old(heap.regions), held, small.live, medium.live, p, size);
        held := held[p := Region(size, FromHeap)];
      }
    }

    // chunk is what the system offers if a pool must grow, offered what
    // `operator new(size, nothrow)` would return.
    method Allocate(size: nat, chunk: Option<Fresh>, offered: Addr) returns (p: Addr)
      requires Valid() && (chunk.Some? && size <= 256 ==> ChunkOffered(chunk.value, size))
      requires offered != NULL ==> HeapOffered(offered, size)
      modifies this, small, medium, heap
      ensures Valid() && ClientsKept(old(small.live), old(medium.live))
      ensures p != NULL ==> p !in old(held) && p in held
      ensures held == if p == NULL then old(held) else old(held)[p := Region(size, held[p].source)]
      ensures size == 0 ==> p == NULL && stats == old(stats) && served == old(served) && heap.regions == old(heap.regions)
      ensures size > 0 ==> served == old(served) + [if p == NULL then FromHeap else held[p].source]
      ensures old(CanServe(size, chunk)) && size <= 64 ==>
                p != NULL && held[p].source == FromSmall && heap.regions == old(heap.regions) &&
                stats == old(stats).(hits := old(stats).hits + 1, smallAllocs := old(stats).smallAllocs + 1)
      ensures old(CanServe(size, chunk)) && size > 64 ==>
                p != NULL && held[p].source == FromMedium && heap.regions == old(heap.regions) &&
                stats == old(stats).(hits := old(stats).hits + 1, mediumAllocs := old(stats).mediumAllocs + 1)
      ensures size > 0 && !old(CanServe(size, chunk)) ==>
                p == offered && (p != NULL ==> held[p].source == FromHeap) &&
                heap.regions == (if p == NULL then old(heap.regions) else old(heap.regions)[p := size]) &&
                stats == old(stats).(misses := old(stats).misses + 1)
      ensures Lost() == old(Lost())
    {
      hide PoolAllocator.Valid, LiveKept, PoolAllocator.ChunkOffered, PoolAllocator.Lost, FixedBlockPool.Valid, ClearOf, ClearOfHeap;
      SameMemory();
      if size == 0 {
        return NULL;
      }
      if size <= MEDIUM {
        var r := ServePool(size, chunk);
        if r.Ok? {
          return r.value;
        }
      }
      p := ServeHeap(size, offered);
    }

    // Gives back a region with the size it was asked for. A region from a
    // pool returns to that pool. A heap region is freed only when its size is
    // large: one that was a fallback for a small or medium request is passed
    // to the pool, which ignores it, and is lost.
    method Deallocate(p: Addr, size: nat)
      requires Valid() && (p != NULL ==> p in held && held[p].size == size)
      modifies this, small, medium, heap
      ensures Valid() && served == old(served) && ClientsKept(small.live, medium.live)
      ensures p == NULL ==> held == old(held) && stats == old(stats)
      ensures p != NULL ==> held == old(held) - {p} &&
                            stats == old(stats).(deallocations := old(stats).deallocations + 1)
      ensures p != NULL && old(held)[p].source == FromSmall ==> small.chain == [p] + old(small.chain)
      ensures p != NULL && old(held)[p].source == FromMedium ==> medium.chain == [p] + old(medium.chain)
      ensures p == NULL || old(held)[p].source != FromSmall ==> small.mem == old(small.mem) && small.chain == old(small.chain)
      ensures p == NULL || old(held)[p].source != FromMedium ==> medium.mem == old(medium.mem) && medium.chain == old(medium.chain)
      ensures heap.regions ==
                if p != NULL && old(held)[p].source == FromHeap && size > 256 then old(heap.regions) - {p} else old(heap.regions)
      ensures Lost() ==
                if p != NULL && old(held)[p].source == FromHeap && size <= 256 then old(Lost()) + {p} else old(Lost())
    {
      hide FixedBlockPool.Valid, FreeList, Store, InChunks, LiveKept, SeparateAddresses, HeldFrom;
      SameMemory();
      if p == NULL {
        return;
      }
      HeldFacts(p);
      Drop(heap.regions, held, small.live, medium.live, p);
      OldRegion(small.chunks, medium.chunks, heap.regions, p);
      stats := stats.(deallocations := stats.deallocations + 1);
      if size <= SMALL {
        small.Deallocate(p);
      } else if size <= MEDIUM {
        medium.Deallocate(p);
      } else {
        heap.OperatorDelete(p);
      }
      held := held - {p};
    }

    // What is held at p: where it lies, and how long it is.
    lemma {:induction false} HeldFacts(p: Addr)
      requires Valid() && p in held
      ensures held[p].source == FromSmall ==>
                p in small.live && held[p].size <= SMALL && p !in heap.regions && !InChunks(medium.chunks, MEDIUM, BLOCKS, p)
      ensures held[p].source == FromMedium ==>
                p in medium.live && SMALL < held[p].size <= MEDIUM && p !in heap.regions && !InChunks(small.chunks, SMALL, BLOCKS, p)
      ensures held[p].source == FromHeap ==>
                p in heap.regions && !InChunks(small.chunks, SMALL, BLOCKS, p) && !InChunks(medium.chunks, MEDIUM, BLOCKS, p)
      ensures p in small.live <==> held[p].source == FromSmall
      ensures p in medium.live <==> held[p].source == FromMedium
      ensures small.Valid() && small.blockSize == SMALL && medium.Valid() && medium.blockSize == MEDIUM
      ensures 0 < held[p].size <= Extent(held[p])
    {
      hide FixedBlockPool.Valid;
      if held[p].source == FromHeap {
        RegionOutside(p);
      } else {
        var c := InItsChunk(p);
        if p in heap.regions {
          RegionOutside(p);
        }
      }
    }

    // A region of the heap lies in no chunk.
    lemma {:induction false} RegionOutside(p: Addr)
      requires SeparateAddresses(small.chunks, medium.chunks, heap.regions) && p in heap.regions
      ensures !InChunks(small.chunks, SMALL, BLOCKS, p) && !InChunks(medium.chunks, MEDIUM, BLOCKS, p)
    {
    }

    // Memory is as it was when nothing was done.
    lemma {:induction false} SameMemory()
      requires Valid()
      ensures small != medium
      ensures LiveKept(small.mem, small.mem, small.live, SMALL) && LiveKept(medium.mem, medium.mem, medium.live, MEDIUM)
    {
      hide LiveKept;
      FreeListFacts(small.mem, small.blocks, SMALL, small.freeList, small.chain, small.live);
      FreeListFacts(medium.mem, medium.blocks, MEDIUM, medium.freeList, medium.chain, medium.live);
    }

    // A block just taken from a pool is the address of nothing held and of no
    // heap region.
    lemma {:induction false} OwnAddresses(live: set<Addr>, p: Addr)
      requires PoolsRight() && SeparateAddresses(small.chunks, medium.chunks, heap.regions)
      requires (p in small.blocks && HeldFrom(live, medium.live, heap.regions, held)) ||
               (p in medium.blocks && HeldFrom(small.live, live, heap.regions, held))
      requires p !in live
      ensures p != NULL && p !in held && p !in heap.regions
    {
      if p in small.blocks {
        BlockInside(small.mem, small.chunks, SMALL, BLOCKS, p);
      } else {
        BlockInside(medium.mem, medium.chunks, MEDIUM, BLOCKS, p);
      }
      if p in heap.regions {
        RegionOutside(p);
      }
    }

    // The chunk a held pool region lies in.
    lemma {:induction false} InItsChunk(p: Addr) returns (c: nat)
      requires Valid() && p in held && held[p].source != FromHeap
      ensures held[p].source == FromSmall ==>
                c < |small.chunks| && small.chunks[c] <= p && p + SMALL <= small.chunks[c] + SMALL * BLOCKS
      ensures held[p].source == FromMedium ==>
                c < |medium.chunks| && medium.chunks[c] <= p && p + MEDIUM <= medium.chunks[c] + MEDIUM * BLOCKS
    {
      if held[p].source == FromSmall {
        FreeListFacts(small.mem, small.blocks, SMALL, small.freeList, small.chain, small.live);
        c := BlockChunk(small.mem, small.chunks, SMALL, BLOCKS, p);
      } else {
        FreeListFacts(medium.mem, medium.blocks, MEDIUM, medium.freeList, medium.chain, medium.live);
        c := BlockChunk(medium.mem, medium.chunks, MEDIUM, BLOCKS, p);
      }
    }

    // No two held regions overlap, and each is at least as long as asked for.
    lemma {:induction false} HeldDisjoint(p: Addr, q: Addr)
      requires Valid() && p in held && q in held && p != q
      ensures Apart(p, Extent(held[p]), q, Extent(held[q]))
      ensures held[p].size <= Extent(held[p])
    {
      hide FixedBlockPool.Valid, PoolAllocator.Valid;
      HeldFacts(p);
      HeldFacts(q);
      var a, b := held[p].source, held[q].source;
      if a == FromSmall && b == FromSmall {
        BothLive(small, p, q);
      } else if a == FromMedium && b == FromMedium {
        BothLive(medium, p, q);
      } else if a == FromSmall && b == FromMedium {
        TwoPools(p, q);
      } else if a == FromMedium && b == FromSmall {
        TwoPools(q, p);
      } else if a == FromHeap && b == FromHeap {
        TwoRegions(p, q);
      } else if a == FromHeap {
        PoolAndHeap(q, p);
      } else {
        PoolAndHeap(p, q);
      }
    }

    lemma {:induction false} TwoPools(p: Addr, q: Addr)
      requires Valid() && p in held && q in held && held[p].source == FromSmall && held[q].source == FromMedium
      ensures Apart(p, SMALL, q, MEDIUM)
    {
      hide FixedBlockPool.Valid;
      var c := InItsChunk(p);
      var d := InItsChunk(q);
      assert ClearOf(small.chunks[c], SMALL * BLOCKS, medium.chunks, MEDIUM * BLOCKS);
    }

    lemma {:induction false} PoolAndHeap(p: Addr, q: Addr)
      requires Valid() && p in held && q in held && held[p].source != FromHeap && held[q].source == FromHeap
      ensures Apart(p, Extent(held[p]), q, held[q].size)
    {
      hide FixedBlockPool.Valid;
      var c := InItsChunk(p);
      assert q in heap.regions && heap.regions[q] == held[q].size;
    }

    lemma {:induction false} TwoRegions(p: Addr, q: Addr)
      requires Valid() && p in held && q in held && p != q && held[p].source == FromHeap && held[q].source == FromHeap
      ensures Apart(p, held[p].size, q, held[q].size)
    {
      hide FixedBlockPool.Valid, ClearOf;
      assert q in heap.regions && ClearOfHeap(p, heap.regions[p], heap.regions);
    }
  }

  // A small request that the heap served because no chunk was to be had, given
  // back as it should be: nothing holds it and nothing will free it.
  method FallbackIsLost(offered: Addr) returns (a: PoolAllocator)
    requires offered != NULL
    ensures fresh(a) && a.Valid() && a.held == map[] && a.Lost() == {offered}
  {
    hide PoolAllocator.Valid, PoolAllocator.HeapOffered, PoolAllocator.CanServe, PoolAllocator.ClientsKept, PoolAllocator.ChunkOffered;
    a := new PoolAllocator();
    a.Untouched(offered, 10);
    var p := a.Allocate(10, None, offered);
    a.Deallocate(p, 10);
  }

  lemma {:induction false} BothLive(pool: FixedBlockPool, p: Addr, q: Addr)
    requires pool.Valid() && p in pool.live && q in pool.live && p != q
    ensures Apart(p, pool.blockSize, q, pool.blockSize)
  {
    FreeListFacts(pool.mem, pool.blocks, pool.blockSize, pool.freeList, pool.chain, pool.live);
    assert Apart(p, pool.blockSize, q, pool.blockSize);
  }
}
