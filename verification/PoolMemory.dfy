// Raw memory as the pool uses it: bytes at addresses, pointers stored in
// eight of them, and blocks laid out back to back in chunks.
module PoolMemory {
  import opened LittleEndian

  type Addr = nat
  type Memory = map<Addr, byte>

  const NULL: Addr := 0
  const PTR := 8

  // ---- Pointers in memory ----

  ghost predicate Mapped(mem: Memory, p: Addr) {
    forall a :: p <= a < p + PTR ==> a in mem
  }

  function Load(mem: Memory, p: Addr): Addr
    requires Mapped(mem, p)
  {
    FromLe(seq(PTR, i requires 0 <= i < PTR => mem[p + i]))
  }

  function Store(mem: Memory, p: Addr, w: Addr): (r: Memory)
    ensures Mapped(r, p)
  {
    mem + map a: Addr | a in Bytes(p, PTR) :: Le(w, PTR)[a - p]
  }

  // The addresses of len bytes from p on.
  function Bytes(p: Addr, len: nat): (s: set<Addr>)
    ensures forall a :: a in s <==> p <= a < p + len
    decreases len
  {
    if len == 0 then {} else {p} + Bytes(p + 1, len - 1)
  }

  lemma {:induction false} LoadStored(mem: Memory, p: Addr, w: Addr)
    requires w < U64
    ensures Load(Store(mem, p, w), p) == w
  {
    hide Le, FromLe;
    var r := Store(mem, p, w);
    assert seq(PTR, i requires 0 <= i < PTR => r[p + i]) == Le(w, PTR);
    Pow8();
    LeRoundTrip(w, PTR);
  }

  // Memory that agrees on a pointer's eight bytes holds the same pointer.
  lemma {:induction false} LoadSame(mem: Memory, mem': Memory, p: Addr)
    requires Mapped(mem, p) && forall a :: p <= a < p + PTR ==> a in mem' && mem'[a] == mem[a]
    ensures Mapped(mem', p) && Load(mem', p) == Load(mem, p)
  {
    hide FromLe;
    assert seq(PTR, i requires 0 <= i < PTR => mem'[p + i]) == seq(PTR, i requires 0 <= i < PTR => mem[p + i]);
  }

  // ---- Blocks ----

  function BlockAt(base: Addr, size: nat, i: nat): Addr {
    base + i * size
  }

  // Chunks are disjoint, non-null, within the address space and mapped.
  ghost predicate ChunksFit(mem: Memory, chunks: seq<Addr>, size: nat, n: nat) {
    (forall c :: 0 <= c < |chunks| ==> 0 < chunks[c] && chunks[c] + size * n < U64) &&
    (forall c, d :: 0 <= c < d < |chunks| ==> Apart(chunks[c], size * n, chunks[d], size * n)) &&
    (forall c, a :: 0 <= c < |chunks| && chunks[c] <= a < chunks[c] + size * n ==> a in mem)
  }

  // Ranges of m bytes from p and n bytes from q that share none.
  predicate Apart(p: Addr, m: nat, q: Addr, n: nat) {
    p + m <= q || q + n <= p
  }

  predicate InChunks(chunks: seq<Addr>, size: nat, n: nat, p: Addr) {
    exists c :: 0 <= c < |chunks| && chunks[c] <= p < chunks[c] + size * n
  }

  ghost predicate IsBlock(chunks: seq<Addr>, size: nat, n: nat, p: Addr) {
    exists c, i :: 0 <= c < |chunks| && 0 <= i < n && p == BlockAt(chunks[c], size, i)
  }

  lemma {:induction false} BlockOffset(size: nat, i: nat, n: nat)
    requires i < n
    ensures 0 <= i * size && i * size + size <= n * size
  {
    var rest := n - i - 1;
    assert n * size == (i + 1 + rest) * size == i * size + size + rest * size;
    assert rest * size >= 0 && i * size >= 0;
  }

  lemma {:induction false} BlockOffsets(size: nat, i: nat, j: nat)
    requires i != j
    ensures i * size + size <= j * size || j * size + size <= i * size
  {
    if i < j {
      BlockOffset(size, i, j);
    } else {
      BlockOffset(size, j, i);
    }
  }

  // A block lies inside one chunk.
  lemma {:induction false} BlockInside(mem: Memory, chunks: seq<Addr>, size: nat, n: nat, p: Addr)
    requires ChunksFit(mem, chunks, size, n) && IsBlock(chunks, size, n, p) && size >= PTR
    ensures 0 < p && p + size < U64 && InChunks(chunks, size, n, p) && Mapped(mem, p)
    ensures forall a :: p <= a < p + size ==> a in mem
  {
    var c, i :| 0 <= c < |chunks| && 0 <= i < n && p == BlockAt(chunks[c], size, i);
    BlockOffset(size, i, n);
    assert n * size == size * n;
    assert chunks[c] <= p < chunks[c] + size * n;
  }

  // The chunk a block lies in.
  lemma {:induction false} BlockChunk(mem: Memory, chunks: seq<Addr>, size: nat, n: nat, p: Addr) returns (c: nat)
    requires ChunksFit(mem, chunks, size, n) && IsBlock(chunks, size, n, p)
    ensures c < |chunks| && chunks[c] <= p && p + size <= chunks[c] + size * n
  {
    var d, i :| 0 <= d < |chunks| && 0 <= i < n && p == BlockAt(chunks[d], size, i);
    BlockOffset(size, i, n);
    assert n * size == size * n;
    c := d;
  }

  // ---- The free list ----

  function Head(chain: seq<Addr>): Addr {
    if chain == [] then NULL else chain[0]
  }

  // The pointers starting at head visit chain and end at null.
  ghost predicate Links(mem: Memory, head: Addr, chain: seq<Addr>) {
    head == Head(chain) &&
    forall i :: 0 <= i < |chain| ==> Mapped(mem, chain[i]) && Load(mem, chain[i]) == Head(chain[i + 1..])
  }

  ghost predicate Distinct(s: seq<Addr>) {
    forall i, j :: 0 <= i < j < |s| ==> s[i] != s[j]
  }

  // Blocks lie in memory and do not overlap.
  ghost predicate Layout(mem: Memory, blocks: set<Addr>, size: nat) {
    size >= PTR &&
    (forall p :: p in blocks ==> 0 < p < U64) &&
    (forall p, a :: p in blocks && p <= a < p + size ==> a in mem) &&
    (forall p, q :: p in blocks && q in blocks && p != q ==> Apart(p, size, q, size))
  }

  // The blocks are exactly the free chain and the live blocks, each once.
  ghost predicate Partition(blocks: set<Addr>, chain: seq<Addr>, live: set<Addr>) {
    Distinct(chain) && live <= blocks &&
    (forall p :: p in chain ==> p in blocks && p !in live) &&
    (forall p :: p in blocks ==> p in chain || p in live) &&
    |chain| + |live| == |blocks|
  }

  ghost predicate FreeList(mem: Memory, blocks: set<Addr>, size: nat, head: Addr, chain: seq<Addr>, live: set<Addr>) {
    Layout(mem, blocks, size) && Partition(blocks, chain, live) && Links(mem, head, chain)
  }

  // What the owner of a live block sees in it is what was there before.
  ghost predicate LiveKept(mem: Memory, mem': Memory, live: set<Addr>, size: nat) {
    forall p, a :: p in live && p <= a < p + size ==> a in mem && a in mem' && mem'[a] == mem[a]
  }

  lemma {:induction false} LiveKeptTrans(m0: Memory, m1: Memory, m2: Memory, live: set<Addr>, size: nat)
    requires LiveKept(m0, m1, live, size) && LiveKept(m1, m2, live, size)
    ensures LiveKept(m0, m2, live, size)
  {
  }

  // What callers may use about a free list.
  lemma {:induction false} FreeListFacts(mem: Memory, blocks: set<Addr>, size: nat, head: Addr, chain: seq<Addr>, live: set<Addr>)
    requires FreeList(mem, blocks, size, head, chain, live)
    ensures size >= PTR && live <= blocks && NULL !in blocks && head == Head(chain)
    ensures head == NULL <==> chain == []
    ensures forall p :: p in live ==> p < U64
    ensures LiveKept(mem, mem, live, size)
  {
    assert chain != [] ==> chain[0] in chain;
  }

  lemma {:induction false} ChainNonNull(mem: Memory, blocks: set<Addr>, size: nat, head: Addr, chain: seq<Addr>, live: set<Addr>)
    requires FreeList(mem, blocks, size, head, chain, live)
    ensures Links(mem, head, chain)
    ensures forall i :: 0 <= i <= |chain| ==> (Head(chain[i..]) == NULL <==> i == |chain|)
  {
    forall i | 0 <= i <= |chain| ensures Head(chain[i..]) == NULL <==> i == |chain| {
      assert i < |chain| ==> chain[i] in chain;
    }
  }

  // Any change of memory that spares the link words of the chain keeps it.
  lemma {:induction false} LinksKept(mem: Memory, mem': Memory, head: Addr, chain: seq<Addr>)
    requires Links(mem, head, chain)
    requires forall i, a :: 0 <= i < |chain| && chain[i] <= a < chain[i] + PTR ==> a in mem' && mem'[a] == mem[a]
    ensures Links(mem', head, chain)
  {
    forall i | 0 <= i < |chain| ensures Mapped(mem', chain[i]) && Load(mem', chain[i]) == Load(mem, chain[i]) {
      LoadSame(mem, mem', chain[i]);
    }
  }

  // A byte written in a live block is in no link word and in no other block.
  lemma {:induction false} WriteKeeps(mem: Memory, blocks: set<Addr>, size: nat, head: Addr, chain: seq<Addr>, live: set<Addr>,
                                      chunks: seq<Addr>, n: nat, p: Addr, a: Addr, w: byte)
    requires FreeList(mem, blocks, size, head, chain, live) && ChunksFit(mem, chunks, size, n)
    requires p in live && p <= a < p + size
    ensures FreeList(mem[a := w], blocks, size, head, chain, live) && ChunksFit(mem[a := w], chunks, size, n)
  {
    hide Load, Links;
    forall i, x | 0 <= i < |chain| && chain[i] <= x < chain[i] + PTR ensures x in mem[a := w] && mem[a := w][x] == mem[x] {
      assert chain[i] in chain;
      assert Apart(p, size, chain[i], size);
    }
    LinksKept(mem, mem[a := w], head, chain);
  }

  // Memory determines the chain: there is no second one from the same head.
  lemma {:induction false} ChainUnique(mem: Memory, head: Addr, c: seq<Addr>, d: seq<Addr>)
    requires Links(mem, head, c) && Links(mem, head, d)
    requires (forall i :: 0 <= i < |c| ==> c[i] != NULL) && forall i :: 0 <= i < |d| ==> d[i] != NULL
    ensures c == d
    decreases |c|
  {
    if c != [] && d != [] {
      assert c[1..] == c[0 + 1..] && d[1..] == d[0 + 1..];
      forall i | 0 <= i < |c[1..]| ensures Load(mem, c[1..][i]) == Head(c[1..][i + 1..]) {
        assert c[1..][i + 1..] == c[(i + 1) + 1..];
      }
      forall i | 0 <= i < |d[1..]| ensures Load(mem, d[1..][i]) == Head(d[1..][i + 1..]) {
        assert d[1..][i + 1..] == d[(i + 1) + 1..];
      }
      ChainUnique(mem, Head(c[1..]), c[1..], d[1..]);
      assert c == [c[0]] + c[1..] && d == [d[0]] + d[1..];
    }
  }

  // Taking the head block off the chain.
  lemma {:induction false} PopKeeps(mem: Memory, blocks: set<Addr>, size: nat, head: Addr, chain: seq<Addr>, live: set<Addr>)
    requires FreeList(mem, blocks, size, head, chain, live) && chain != []
    ensures Mapped(mem, head) && head in blocks && head !in live
    ensures FreeList(mem, blocks, size, Load(mem, head), chain[1..], live + {head})
  {
    assert chain[0] in chain;
    PopLinks(mem, head, chain);
    PopPartition(blocks, chain, live);
  }

  lemma {:induction false} PopLinks(mem: Memory, head: Addr, chain: seq<Addr>)
    requires Links(mem, head, chain) && chain != []
    ensures Mapped(mem, head) && Links(mem, Load(mem, head), chain[1..])
  {
    hide Load, Store;
    var rest := chain[1..];
    assert chain[0 + 1..] == rest;
    forall i | 0 <= i < |rest| ensures Mapped(mem, rest[i]) && Load(mem, rest[i]) == Head(rest[i + 1..]) {
      assert rest[i] == chain[i + 1] && rest[i + 1..] == chain[i + 1 + 1..];
    }
  }

  lemma {:induction false} PopPartition(blocks: set<Addr>, chain: seq<Addr>, live: set<Addr>)
    requires Partition(blocks, chain, live) && chain != []
    ensures Partition(blocks, chain[1..], live + {chain[0]})
  {
    var rest := chain[1..];
    assert forall i :: 0 <= i < |rest| ==> rest[i] == chain[i + 1];
    assert chain == [chain[0]] + rest;
    assert chain[0] in chain;
  }

  // Putting a block in front of the chain: one that was live, or a new one.
  lemma {:induction false} PushKeeps(mem: Memory, blocks: set<Addr>, size: nat, head: Addr, chain: seq<Addr>, live: set<Addr>, p: Addr)
    requires FreeList(mem, blocks, size, head, chain, live) && 0 < p < U64
    requires p in live || (p !in blocks && forall q :: q in blocks ==> Apart(p, size, q, size) && Apart(q, size, p, size))
    requires forall a :: p <= a < p + size ==> a in mem
    ensures FreeList(Store(mem, p, head), blocks + {p}, size, p, [p] + chain, live - {p})
    ensures LiveKept(mem, Store(mem, p, head), live - {p}, size)
    ensures p in live ==> blocks + {p} == blocks
  {
    hide Partition, Links, Layout, LiveKept;
    LiveInBlocks(blocks, chain, live);
    PushLayout(mem, blocks, size, head, live, p);
    PushPartition(blocks, chain, live, p);
    PushLinks(mem, blocks, size, head, chain, live, p);
  }

  lemma {:induction false} LiveInBlocks(blocks: set<Addr>, chain: seq<Addr>, live: set<Addr>)
    requires Partition(blocks, chain, live)
    ensures live <= blocks
  {
  }

  lemma {:induction false} PushLayout(mem: Memory, blocks: set<Addr>, size: nat, w: Addr, live: set<Addr>, p: Addr)
    requires Layout(mem, blocks, size) && live <= blocks && 0 < p < U64
    requires p in live || (p !in blocks && forall q :: q in blocks ==> Apart(p, size, q, size) && Apart(q, size, p, size))
    requires forall a :: p <= a < p + size ==> a in mem
    ensures Layout(Store(mem, p, w), blocks + {p}, size)
    ensures LiveKept(mem, Store(mem, p, w), live - {p}, size)
  {
    hide Le;
    forall q, a | q in live - {p} && q <= a < q + size ensures a !in Bytes(p, PTR) {
      assert Apart(p, size, q, size);
    }
  }

  lemma {:induction false} PushPartition(blocks: set<Addr>, chain: seq<Addr>, live: set<Addr>, p: Addr)
    requires Partition(blocks, chain, live) && (p in live || p !in blocks)
    ensures Partition(blocks + {p}, [p] + chain, live - {p})
    ensures p in live ==> blocks + {p} == blocks
  {
    assert forall q :: q in [p] + chain <==> q == p || q in chain;
    if p in live {
      assert blocks + {p} == blocks;
    } else {
      assert live - {p} == live;
    }
  }

  lemma {:induction false} PushLinks(mem: Memory, blocks: set<Addr>, size: nat, head: Addr, chain: seq<Addr>, live: set<Addr>, p: Addr)
    requires FreeList(mem, blocks, size, head, chain, live) && 0 < p < U64
    requires p in live || (p !in blocks && forall q :: q in blocks ==> Apart(p, size, q, size) && Apart(q, size, p, size))
    ensures p !in chain && Links(Store(mem, p, head), p, [p] + chain)
  {
    hide Load, Le;
    var mem' := Store(mem, p, head);
    var chain' := [p] + chain;
    assert p !in chain;
    forall i, a | 0 <= i < |chain| && chain[i] <= a < chain[i] + PTR ensures a in mem' && mem'[a] == mem[a] {
      assert chain[i] in chain;
      assert Apart(p, size, chain[i], size);
      assert a in mem;
    }
    LinksKept(mem, mem', head, chain);
    assert chain != [] ==> chain[0] in chain;
    LoadStored(mem, p, head);
    forall i | 0 <= i < |chain'| ensures Mapped(mem', chain'[i]) && Load(mem', chain'[i]) == Head(chain'[i + 1..]) {
      assert chain'[i + 1..] == chain[i..];
      if i > 0 {
        assert chain'[i] == chain[i - 1];
      }
    }
  }

  // ---- When giving back an address is right ----

  // An address inside a chunk can be put on the chain iff it is a live block:
  // a block given back twice, or an address inside a block, leaves memory
  // holding no chain that accounts for the blocks.
  lemma {:induction false} FreeIffLive(mem: Memory, blocks: set<Addr>, size: nat, head: Addr, chain: seq<Addr>, live: set<Addr>, p: Addr)
    requires FreeList(mem, blocks, size, head, chain, live) && 0 < p < U64
    ensures (exists chain', live' :: FreeList(Store(mem, p, head), blocks, size, p, chain', live')) <==> p in live
  {
    FreeListFacts(mem, blocks, size, head, chain, live);
    if p in live {
      assert forall a :: p <= a < p + size ==> a in mem;
      PushKeeps(mem, blocks, size, head, chain, live, p);
    } else if exists chain', live' :: FreeList(Store(mem, p, head), blocks, size, p, chain', live') {
      var chain', live' :| FreeList(Store(mem, p, head), blocks, size, p, chain', live');
      assert chain' != [] && chain'[0] == p;
      assert p in chain' && p in chain;
      var k :| 0 <= k < |chain| && chain[k] == p;
      FollowChain(mem, blocks, size, head, chain, live, p, chain', live', k, k);
    }
  }

  // Giving back a free block closes a loop: the new chain would run through
  // the old one and meet p again.
  lemma {:induction false} FollowChain(mem: Memory, blocks: set<Addr>, size: nat, head: Addr, chain: seq<Addr>,
                                       live: set<Addr>, p: Addr, chain': seq<Addr>, live': set<Addr>, k: nat, i: nat)
    requires FreeList(mem, blocks, size, head, chain, live) && 0 < p < U64
    requires FreeList(Store(mem, p, head), blocks, size, p, chain', live')
    requires i <= k < |chain| && chain[k] == p
    ensures i + 1 < |chain'| && chain'[i + 1] == chain[i]
  {
    hide Load, Le;
    var mem' := Store(mem, p, head);
    assert chain[0] in chain && chain[i] in chain;
    if i == 0 {
      LoadStored(mem, p, head);
      assert chain'[0] == p;
      assert Load(mem', chain'[0]) == Head(chain'[0 + 1..]);
    } else {
      FollowChain(mem, blocks, size, head, chain, live, p, chain', live', k, i - 1);
      var q := chain[i - 1];
      assert q in chain && Apart(p, size, q, size);
      LoadSame(mem, mem', q);
      assert Load(mem, q) == Head(chain[i - 1 + 1..]);
      assert Load(mem', chain'[i]) == Head(chain'[i + 1..]);
    }
  }
}
