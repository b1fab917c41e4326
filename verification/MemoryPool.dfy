// The fixed-block pool: chunks of equal blocks, and a free list threaded
// through the blocks that nobody holds.
module MemoryPool {
  import opened Outcomes
  import opened LittleEndian
  import opened PoolMemory

  datatype PoolError = BadAlloc | EmptyChunk

  // What the system allocator returns for a new chunk: its address and
  // whatever bytes happen to be there. None stands for std::bad_alloc.
  datatype Fresh = Fresh(base: Addr, bytes: Memory)

  datatype Statistics = Statistics(totalChunks: nat, allocatedBlocks: int, totalCapacity: nat, freeBlocks: nat)

  // Block addresses of a new chunk in the order they end up on the chain.
  function NewChain(base: Addr, size: nat, n: nat): (c: seq<Addr>)
    ensures |c| == n
  {
    if n == 0 then [] else [BlockAt(base, size, n - 1)] + NewChain(base, size, n - 1)
  }

  lemma {:induction false} NewChainHead(base: Addr, size: nat, n: nat)
    ensures NewChain(base, size, n) + [] == NewChain(base, size, n)
    ensures n > 0 ==> NewChain(base, size, n)[0] == BlockAt(base, size, n - 1)
  {
  }

  class FixedBlockPool {
    const blockSize: nat
    const perChunk: nat
    var mem: Memory
    var chunks: seq<Addr>
    var freeList: Addr
    var inUse: int
    ghost var blocks: set<Addr>
    ghost var chain: seq<Addr>
    ghost var live: set<Addr>

    ghost predicate Valid()
      reads this
    {
      FreeList(mem, blocks, blockSize, freeList, chain, live) &&
      ChunksFit(mem, chunks, blockSize, perChunk) &&
      (forall p :: p in blocks <==> IsBlock(chunks, blockSize, perChunk, p)) &&
      |blocks| == |chunks| * perChunk && inUse == |live|
    }

    // A chunk the system may hand out: clear of the chunks it already gave.
    ghost predicate Offered(c: Fresh)
      reads this
    {
      0 < c.base && c.base + blockSize * perChunk < U64 &&
      (forall i :: 0 <= i < |chunks| ==> Apart(chunks[i], blockSize * perChunk, c.base, blockSize * perChunk)) &&
      (forall a :: a in c.bytes <==> c.base <= a < c.base + blockSize * perChunk)
    }

    // A block is never smaller than a pointer.
    constructor (size: nat, perChunk: nat)
      ensures Valid() && blockSize == (if size < 8 then 8 else size) && this.perChunk == perChunk
      ensures chunks == [] && live == {} && chain == []
    {
      blockSize := if size < PTR then PTR else size;
      this.perChunk := perChunk;
      mem, chunks, freeList, inUse := map[], [], NULL, 0;
      blocks, chain, live := {}, [], {};
    }

    // Builds the free list of a new chunk in front of the present one.
    method AllocateChunk(c: Fresh)
      requires Valid() && Offered(c)
      modifies this
      ensures Valid() && live == old(live) && inUse == old(inUse)
      ensures chunks == old(chunks) + [c.base]
      ensures chain == NewChain(c.base, blockSize, perChunk) + old(chain)
      ensures LiveKept(old(mem), mem, live, blockSize)
    {
      hide FreeList, ChunksFit, IsBlock, LiveKept, Store, BlockSet, NewChain;
      var base := c.base;
      GrowMemory(mem, c.bytes, blocks, chunks, blockSize, perChunk, blockSize * perChunk, freeList, chain, live, base);
      mem := mem + c.bytes;
      chunks := chunks + [base];
      assert chunks[..|chunks| - 1] == old(chunks);
      FreeListFacts(mem, blocks, blockSize, freeList, chain, live);
      LinkChunk(base);
      LiveKeptTrans(old(mem), old(mem) + c.bytes, mem, live, blockSize);
      AllBlocks(old(blocks), old(chunks), base, blockSize, perChunk);
    }

    // The loop over the blocks of the newest chunk.
    method LinkChunk(base: Addr)
      requires chunks != [] && chunks[|chunks| - 1] == base && ChunksFit(mem, chunks, blockSize, perChunk)
      requires forall p :: p in blocks ==> IsBlock(chunks[..|chunks| - 1], blockSize, perChunk, p)
      requires FreeList(mem, blocks, blockSize, freeList, chain, live)
      modifies this`mem, this`freeList, this`blocks, this`chain
      ensures ChunksFit(mem, chunks, blockSize, perChunk)
      ensures FreeList(mem, blocks, blockSize, freeList, chain, live)
      ensures blocks == old(blocks) + BlockSet(base, blockSize, perChunk) && |blocks| == |old(blocks)| + perChunk
      ensures chain == NewChain(base, blockSize, perChunk) + old(chain)
      ensures LiveKept(old(mem), mem, live, blockSize)
    {
      hide FreeList, ChunksFit, IsBlock, LiveKept, Store, BlockSet, NewChain, BlockAt;
      FreeListFacts(mem, blocks, blockSize, freeList, chain, live);
      var i := 0;
      ChunkStart(base, blockSize, blocks, chain);
      while i < perChunk
        invariant i <= perChunk
        invariant FreeList(mem, blocks, blockSize, freeList, chain, live)
        invariant ChunksFit(mem, chunks, blockSize, perChunk)
        invariant blocks == old(blocks) + BlockSet(base, blockSize, i) && |blocks| == |old(blocks)| + i
        invariant chain == NewChain(base, blockSize, i) + old(chain)
        invariant LiveKept(old(mem), mem, live, blockSize)
      {
        var p := BlockAt(base, blockSize, i);
        LinkBlock(old(mem), mem, old(blocks), chunks, blockSize, perChunk, i, blocks, freeList, old(chain), live);
        mem := Store(mem, p, freeList);
        freeList := p;
        blocks, chain := blocks + {p}, [p] + chain;
        i := i + 1;
      }
    }

    // Hands out the head of the free list, growing by a chunk when it is empty.
    method Allocate(c: Option<Fresh>) returns (r: Result<Addr, PoolError>)
      requires Valid() && (c.Some? ==> Offered(c.value))
      modifies this
      ensures Valid()
      ensures old(chain) != [] ==> r == Ok(old(chain)[0]) && chunks == old(chunks)
      ensures old(chain) == [] && c == None ==> r == Err(BadAlloc) && chunks == old(chunks)
      ensures old(chain) == [] && c.Some? ==> chunks == old(chunks) + [c.value.base]
      ensures old(chain) == [] && c.Some? && perChunk == 0 ==> r == Err(EmptyChunk)
      ensures old(chain) == [] && c.Some? && perChunk > 0 ==> r == Ok(BlockAt(c.value.base, blockSize, perChunk - 1))
      ensures r.Ok? ==> r.value in blocks && r.value !in old(live) && live == old(live) + {r.value} && [r.value] + chain ==
                        (if old(chain) != [] then old(chain) else NewChain(c.value.base, blockSize, perChunk))
      ensures r.Err? ==> live == old(live) && chain == []
      ensures LiveKept(old(mem), mem, old(live), blockSize)
    {
      hide FreeList, ChunksFit, IsBlock, LiveKept, NewChain, Load, BlockAt;
      FreeListFacts(mem, blocks, blockSize, freeList, chain, live);
      if freeList == NULL {
        match c {
          case None => return Err(BadAlloc);
          case Some(given) =>
            AllocateChunk(given);
            NewChainHead(given.base, blockSize, perChunk);
        }
        FreeListFacts(mem, blocks, blockSize, freeList, chain, live);
        if freeList == NULL {
          return Err(EmptyChunk);
        }
      }
      var p := TakeHead();
      r := Ok(p);
    }

    // Takes the head off a list that is not empty.
    method TakeHead() returns (p: Addr)
      requires Valid() && freeList != NULL
      modifies this`freeList, this`inUse, this`live, this`chain
      ensures Valid() && [p] + chain == old(chain) && p in blocks && p !in old(live) && live == old(live) + {p}
    {
      hide FreeList, ChunksFit, IsBlock, Load;
      FreeListFacts(mem, blocks, blockSize, freeList, chain, live);
      assert [chain[0]] + chain[1..] == chain;
      PopKeeps(mem, blocks, blockSize, freeList, chain, live);
      HeadFirst(mem, blocks, blockSize, freeList, chain, live);
      p := freeList;
      freeList := Load(mem, p);
      inUse := inUse + 1;
      live, chain := live + {p}, chain[1..];
    }

    static lemma {:induction false} HeadFirst(mem: Memory, blocks: set<Addr>, size: nat, head: Addr, chain: seq<Addr>, live: set<Addr>)
      requires FreeList(mem, blocks, size, head, chain, live) && chain != []
      ensures head == chain[0]
    {
    }

    // Takes back a live block. Null and addresses outside the chunks are
    // ignored. Any other address is linked in all the same, and leaves memory
    // without a well-formed list.
    method Deallocate(p: Addr)
      requires Valid()
      modifies this
      ensures chunks == old(chunks) && blocks == old(blocks)
      ensures old(Inside(p)) ==> mem == Store(old(mem), p, old(freeList)) && freeList == p && inUse == old(inUse) - 1
      ensures !old(Inside(p)) ==> Valid() && p !in old(live) && mem == old(mem) && freeList == old(freeList) &&
                                  inUse == old(inUse) && live == old(live) && chain == old(chain)
      ensures p in old(live) ==> Valid() && live == old(live) - {p} && chain == [p] + old(chain)
      ensures p in old(live) || !old(Inside(p)) ==> LiveKept(old(mem), mem, live, blockSize)
      ensures old(Inside(p)) && p !in old(live) ==>
                forall chain', live' :: !FreeList(mem, blocks, blockSize, freeList, chain', live')
    {
      hide FreeList, ChunksFit, IsBlock, LiveKept, Store, InChunks;
      FreeListFacts(mem, blocks, blockSize, freeList, chain, live);
      LiveInside(p);
      if p == NULL {
        return;
      }
      var found := FindChunk(p);
      if !found {
        return;
      }
      FreeIffLive(mem, blocks, blockSize, freeList, chain, live, p);
      if p in live {
        PushKeeps(mem, blocks, blockSize, freeList, chain, live, p);
        StoreKeepsChunks(mem, chunks, blockSize, perChunk, p, freeList);
        live, chain := live - {p}, [p] + chain;
      }
      mem := Store(mem, p, freeList);
      freeList := p;
      inUse := inUse - 1;
    }

    // The range check.
    predicate Inside(p: Addr)
      reads this
    {
      p != NULL && InChunks(chunks, blockSize, perChunk, p)
    }

    lemma {:induction false} LiveInside(p: Addr)
      requires Valid()
      ensures Inside(p) ==> 0 < p < U64
      ensures p in live ==> Inside(p) && forall a :: p <= a < p + blockSize ==> a in mem
    {
      hide FreeList;
      FreeListFacts(mem, blocks, blockSize, freeList, chain, live);
      if p in live {
        BlockInside(mem, chunks, blockSize, perChunk, p);
      }
    }

    method FindChunk(p: Addr) returns (found: bool)
      ensures found == InChunks(chunks, blockSize, perChunk, p)
    {
      found := false;
      for i := 0 to |chunks|
        invariant found <==> exists c :: 0 <= c < i && chunks[c] <= p < chunks[c] + blockSize * perChunk
      {
        if chunks[i] <= p < chunks[i] + blockSize * perChunk {
          found := true;
          break;
        }
      }
    }

    // The holder of a live block writes any byte of it.
    method ClientWrite(p: Addr, a: Addr, w: byte)
      requires Valid() && p in live && p <= a < p + blockSize
      modifies this`mem
      ensures Valid() && mem == old(mem)[a := w]
    {
      hide FreeList, ChunksFit, IsBlock, Load, Store;
      WriteKeeps(mem, blocks, blockSize, freeList, chain, live, chunks, perChunk, p, a, w);
      mem := mem[a := w];
    }

    // Counts the free blocks by walking the pointers in memory.
    method GetStatistics() returns (s: Statistics)
      requires Valid()
      ensures s == Statistics(|chunks|, inUse, |chunks| * perChunk, |chain|)
      ensures s.freeBlocks + s.allocatedBlocks == s.totalCapacity
    {
      hide Load, ChunksFit, IsBlock, Links, Layout, Head;
      ChainNonNull(mem, blocks, blockSize, freeList, chain, live);
      assert chain[0..] == chain;
      HeadIs(mem, freeList, chain);
      var free, current := 0, freeList;
      while current != NULL
        invariant free <= |chain| && current == Head(chain[free..]) && Links(mem, current, chain[free..])
        decreases |chain| - free
      {
        PopLinks(mem, current, chain[free..]);
        assert chain[free..][1..] == chain[free + 1..];
        HeadIs(mem, Load(mem, current), chain[free + 1..]);
        free := free + 1;
        current := Load(mem, current);
      }
      s := Statistics(|chunks|, inUse, |chunks| * perChunk, free);
    }
  }

  lemma {:induction false} HeadIs(mem: Memory, head: Addr, chain: seq<Addr>)
    requires Links(mem, head, chain)
    ensures head == Head(chain)
  {
  }

  // ---- Growing by a chunk ----

  ghost function BlockSet(base: Addr, size: nat, n: nat): set<Addr> {
    if n == 0 then {} else BlockSet(base, size, n - 1) + {BlockAt(base, size, n - 1)}
  }

  lemma {:induction false} BlockSetMember(base: Addr, size: nat, n: nat, p: Addr)
    ensures p in BlockSet(base, size, n) <==> exists i :: 0 <= i < n && p == BlockAt(base, size, i)
  {
    if n > 0 {
      BlockSetMember(base, size, n - 1, p);
    }
  }

  lemma {:induction false} StoreKeepsChunks(mem: Memory, chunks: seq<Addr>, size: nat, n: nat, p: Addr, w: Addr)
    requires ChunksFit(mem, chunks, size, n)
    ensures ChunksFit(Store(mem, p, w), chunks, size, n)
  {
    hide Le;
  }

  lemma {:induction false} ChunkStart(base: Addr, size: nat, blocks: set<Addr>, chain: seq<Addr>)
    ensures blocks + BlockSet(base, size, 0) == blocks && NewChain(base, size, 0) + chain == chain
  {
  }

  lemma {:induction false} ChunkStep(mem: Memory, chunks: seq<Addr>, base: Addr, size: nat, n: nat, i: nat, blocks: set<Addr>,
                  chain: seq<Addr>, live: set<Addr>, p: Addr, w: Addr)
    requires ChunksFit(mem, chunks, size, n) && p == BlockAt(base, size, i) && p !in live
    ensures ChunksFit(Store(mem, p, w), chunks, size, n) && live - {p} == live
    ensures blocks + BlockSet(base, size, i) + {p} == blocks + BlockSet(base, size, i + 1)
    ensures [p] + (NewChain(base, size, i) + chain) == NewChain(base, size, i + 1) + chain
  {
    hide Store;
    StoreKeepsChunks(mem, chunks, size, n, p, w);
  }

  // One turn of the loop over a new chunk: block i goes in front of the list.
  lemma {:induction false} LinkBlock(was: Memory, mem: Memory, olds: set<Addr>, chunks: seq<Addr>, size: nat, n: nat, i: nat,
                  blocks: set<Addr>, head: Addr, rest: seq<Addr>, live: set<Addr>)
    requires chunks != [] && ChunksFit(mem, chunks, size, n) && size >= PTR && i < n
    requires forall p :: p in olds ==> IsBlock(chunks[..|chunks| - 1], size, n, p)
    requires live <= olds && LiveKept(was, mem, live, size)
    requires blocks == olds + BlockSet(chunks[|chunks| - 1], size, i)
    requires FreeList(mem, blocks, size, head, NewChain(chunks[|chunks| - 1], size, i) + rest, live)
    ensures var base := chunks[|chunks| - 1]; var p := BlockAt(base, size, i); var mem' := Store(mem, p, head);
            p !in blocks && p < U64 && blocks + {p} == olds + BlockSet(base, size, i + 1) &&
            [p] + (NewChain(base, size, i) + rest) == NewChain(base, size, i + 1) + rest &&
            FreeList(mem', blocks + {p}, size, p, NewChain(base, size, i + 1) + rest, live) &&
            ChunksFit(mem', chunks, size, n) && LiveKept(was, mem', live, size)
  {
    hide FreeList, ChunksFit, IsBlock, LiveKept, Store, BlockSet, NewChain;
    var base := chunks[|chunks| - 1];
    var p, chain := BlockAt(base, size, i), NewChain(base, size, i) + rest;
    NewBlock(mem, olds, chunks, size, n, i);
    PushKeeps(mem, blocks, size, head, chain, live, p);
    ChunkStep(mem, chunks, base, size, n, i, olds, rest, live, p, head);
    LiveKeptTrans(was, mem, Store(mem, p, head), live, size);
  }

  lemma {:induction false} GrowMemory(mem: Memory, bytes: Memory, blocks: set<Addr>, chunks: seq<Addr>, size: nat, n: nat,
                   len: nat, head: Addr, chain: seq<Addr>, live: set<Addr>, base: Addr)
    requires FreeList(mem, blocks, size, head, chain, live) && ChunksFit(mem, chunks, size, n) && len == size * n
    requires forall p :: p in blocks <==> IsBlock(chunks, size, n, p)
    requires 0 < base && base + len < U64
    requires forall i :: 0 <= i < |chunks| ==> Apart(chunks[i], len, base, len)
    requires forall a :: a in bytes <==> base <= a < base + len
    ensures FreeList(mem + bytes, blocks, size, head, chain, live)
    ensures ChunksFit(mem + bytes, chunks + [base], size, n)
    ensures LiveKept(mem, mem + bytes, live, size)
  {
    hide FreeList, ChunksFit, IsBlock, LiveKept;
    FreeListFacts(mem, blocks, size, head, chain, live);
    forall p, a | p in blocks && p <= a < p + size ensures a in mem && a !in bytes {
      BlockClear(mem, chunks, size, n, p, a);
    }
    GrowList(mem, bytes, blocks, size, head, chain, live);
    GrowChunks(mem, bytes, chunks, size, n, len, base);
  }

  lemma {:induction false} GrowList(mem: Memory, bytes: Memory, blocks: set<Addr>, size: nat, head: Addr, chain: seq<Addr>,
                                    live: set<Addr>)
    requires FreeList(mem, blocks, size, head, chain, live)
    requires forall p, a :: p in blocks && p <= a < p + size ==> a in mem && a !in bytes
    ensures FreeList(mem + bytes, blocks, size, head, chain, live) && LiveKept(mem, mem + bytes, live, size)
  {
    hide Load, Links;
    forall i, a | 0 <= i < |chain| && chain[i] <= a < chain[i] + PTR ensures a in mem && a !in bytes {
      assert chain[i] in chain;
    }
    LinksKept(mem, mem + bytes, head, chain);
  }

  lemma {:induction false} GrowChunks(mem: Memory, bytes: Memory, chunks: seq<Addr>, size: nat, n: nat, len: nat, base: Addr)
    requires ChunksFit(mem, chunks, size, n) && len == size * n && 0 < base && base + len < U64
    requires forall i :: 0 <= i < |chunks| ==> Apart(chunks[i], len, base, len)
    requires forall a :: a in bytes <==> base <= a < base + len
    ensures ChunksFit(mem + bytes, chunks + [base], size, n)
  {
  }

  lemma {:induction false} BlockClear(mem: Memory, chunks: seq<Addr>, size: nat, n: nat, p: Addr, a: Addr)
    requires ChunksFit(mem, chunks, size, n) && size >= PTR && IsBlock(chunks, size, n, p) && p <= a < p + size
    ensures a in mem && exists c :: 0 <= c < |chunks| && chunks[c] <= a < chunks[c] + size * n
  {
    var c, i :| 0 <= c < |chunks| && 0 <= i < n && p == BlockAt(chunks[c], size, i);
    BlockOffset(size, i, n);
    assert n * size == size * n;
    assert chunks[c] <= a < chunks[c] + size * n;
  }

  // Block i of the newest chunk overlaps no older block and no earlier one.
  lemma {:induction false} NewBlock(mem: Memory, olds: set<Addr>, chunks: seq<Addr>, size: nat, n: nat, i: nat)
    requires chunks != [] && ChunksFit(mem, chunks, size, n) && size >= PTR && i < n
    requires forall p :: p in olds ==> IsBlock(chunks[..|chunks| - 1], size, n, p)
    ensures var base := chunks[|chunks| - 1]; var p := BlockAt(base, size, i);
            0 < p < U64 && p !in olds && p !in BlockSet(base, size, i) && (forall a :: p <= a < p + size ==> a in mem) &&
            forall q :: q in olds + BlockSet(base, size, i) ==> Apart(p, size, q, size) && Apart(q, size, p, size)
  {
    hide BlockSet;
    var last := |chunks| - 1;
    var base := chunks[last];
    var p := BlockAt(base, size, i);
    BlockInside(mem, chunks, size, n, p);
    forall q | q in olds ensures p != q && Apart(p, size, q, size) && Apart(q, size, p, size) {
      var c, j :| 0 <= c < last && 0 <= j < n && q == BlockAt(chunks[..last][c], size, j);
      assert chunks[..last][c] == chunks[c];
      BlockOffset(size, j, n);
      BlockOffset(size, i, n);
      assert n * size == size * n && Apart(chunks[c], size * n, base, size * n);
    }
    forall q | q in BlockSet(base, size, i) ensures p != q && Apart(p, size, q, size) && Apart(q, size, p, size) {
      BlockSetMember(base, size, i, q);
      var j :| 0 <= j < i && q == BlockAt(base, size, j);
      BlockOffsets(size, i, j);
    }
    BlockSetMember(base, size, i, p);
  }

  lemma {:induction false} AllBlocks(olds: set<Addr>, chunks: seq<Addr>, base: Addr, size: nat, n: nat)
    requires forall p :: p in olds <==> IsBlock(chunks, size, n, p)
    ensures forall p :: p in olds + BlockSet(base, size, n) <==> IsBlock(chunks + [base], size, n, p)
    ensures |chunks + [base]| * n == |chunks| * n + n
  {
    hide BlockSet;
    var all := chunks + [base];
    forall p ensures p in olds + BlockSet(base, size, n) <==> IsBlock(all, size, n, p) {
      BlockSetMember(base, size, n, p);
      if p in olds {
        var c, i :| 0 <= c < |chunks| && 0 <= i < n && p == BlockAt(chunks[c], size, i);
        assert all[c] == chunks[c];
      }
      if p in BlockSet(base, size, n) {
        var i :| 0 <= i < n && p == BlockAt(base, size, i);
        assert all[|chunks|] == base;
      }
      if IsBlock(all, size, n, p) {
        var c, i :| 0 <= c < |all| && 0 <= i < n && p == BlockAt(all[c], size, i);
        assert c < |chunks| ==> all[c] == chunks[c];
      }
    }
  }
}
