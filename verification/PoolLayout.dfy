// Where the blocks of a new chunk and the bytes of a link lie.
module PoolLayout {
  import opened LittleEndian
  import opened WireNumbers
  import opened PoolMemory
  import opened MemoryPool

  // The blocks of a new chunk are handed out from its end to its front.
  lemma {:induction false} NewChainAt(base: Addr, size: nat, n: nat, i: nat)
    requires i < n
    ensures NewChain(base, size, n)[i] == base + (n - 1 - i) * size
  {
    if i > 0 {
      NewChainAt(base, size, n - 1, i - 1);
    }
  }

  // A link is the address of the next free block in the block's first eight
  // bytes, low byte first; no other byte changes.
  lemma {:induction false} LinkBytes(mem: Memory, p: Addr, w: Addr, a: Addr)
    requires w < 0x1_0000_0000_0000_0000
    ensures p <= a < p + 8 ==> a in Store(mem, p, w) && Store(mem, p, w)[a] == Eight(w)[a - p]
    ensures !(p <= a < p + 8) ==> (a in Store(mem, p, w) <==> a in mem) && (a in mem ==> Store(mem, p, w)[a] == mem[a])
  {
    hide Le, Eight;
    LeDigits(w);
  }
}
