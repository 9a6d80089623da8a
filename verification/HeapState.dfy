/** What the kernel heap's memory means: blocks that tile the arena, each with a checked header,
    linked in memory order and on either the free or the allocated list (kernel/ex.cpp). */
module HeapState {
  import opened Common
  import opened HeapMemory

  const HEADER := 2                  // SIZEOF_HEAP_BLOCK, in paragraphs
  const FREE := 1
  const ALLOCATED := 2
  const LOCKED := 3

  // The three list heads live outside the arena, in paragraphs of their own.
  const FREE_HEAD := 0
  const USED_HEAD := 1
  const ORDER_HEAD := 2

  /** Bitwise exclusive or of two naturals. */
  function Xor(a: nat, b: nat): nat
    decreases a + b
  {
    if a == 0 then b
    else if b == 0 then a
    else (if a % 2 == b % 2 then 0 else 1) + 2 * Xor(a / 2, b / 2)
  }

  lemma XorParity(a: nat, b: nat)
    requires b % 2 == 0
    ensures Xor(a, b) % 2 == a % 2
  {
  }

  /** ExpChecksumBlock: the sum of the header fields, xor the address of the block. */
  function Checksum(addr: nat, size: nat, kind: nat, pad: nat, cookie: nat): nat {
    Xor((pad + kind + size + cookie) % TWO32, PARAGRAPH * addr)
  }

  /** A block as its header describes it; addr is the paragraph its header starts at, size is in
      paragraphs, pad in bytes. */
  datatype Block = Block(addr: nat, size: nat, kind: nat, pad: nat) {
    function End(): nat { addr + HEADER + size }
    function Data(): nat { addr + HEADER }
    predicate Live() { kind == ALLOCATED || kind == LOCKED }
    function UserSize(): int { PARAGRAPH * size - pad }
    function Magic(cookie: nat): nat { Checksum(addr, size, kind, pad, cookie) }
  }

  /** The blocks in memory order, and the free and the allocated list by block address. */
  datatype State = State(base: nat, limit: nat, cookie: nat, blocks: seq<Block>, free: seq<int>, used: seq<int>)

  // ---------------------------------------------------------------- structure

  /** Each block starts where its predecessor ends; together they fill [base, limit). */
  ghost predicate Tiled(bs: seq<Block>, base: nat, limit: nat) {
    && |bs| > 0
    && bs[0].addr == base
    && bs[|bs| - 1].End() == limit
    && (forall i {:trigger Abuts(bs, i)} :: 0 <= i < |bs| - 1 ==> Abuts(bs, i))
  }

  ghost predicate Abuts(bs: seq<Block>, i: int)
    requires 0 <= i < |bs| - 1
  {
    bs[i + 1].addr == bs[i].End()
  }

  ghost predicate NoAdjacentFree(bs: seq<Block>) {
    forall i {:trigger BothFree(bs, i)} :: 0 <= i < |bs| - 1 ==> !BothFree(bs, i)
  }

  ghost predicate BothFree(bs: seq<Block>, i: int)
    requires 0 <= i < |bs| - 1
  {
    bs[i].kind == FREE && bs[i + 1].kind == FREE
  }

  ghost predicate IsBlock(bs: seq<Block>, a: int) {
    exists i :: 0 <= i < |bs| && bs[i].addr == a
  }

  /** The free list holds exactly the free blocks, the allocated list exactly the others. */
  ghost predicate Listed(s: State) {
    && (forall i :: 0 <= i < |s.blocks| ==> (s.blocks[i].addr in s.free <==> s.blocks[i].kind == FREE))
    && (forall i :: 0 <= i < |s.blocks| ==> (s.blocks[i].addr in s.used <==> s.blocks[i].kind != FREE))
    && (forall a :: a in s.free ==> IsBlock(s.blocks, a))
    && (forall a :: a in s.used ==> IsBlock(s.blocks, a))
  }

  function FreeRing(s: State): (r: seq<int>)
    ensures |r| == |s.free| + 1 && r[0] == FREE_HEAD
  {
    [FREE_HEAD] + s.free
  }

  function UsedRing(s: State): (r: seq<int>)
    ensures |r| == |s.used| + 1 && r[0] == USED_HEAD
  {
    [USED_HEAD] + s.used
  }

  /** The MemoryOrderList entries sit in the second half of the headers. */
  function OrderRing(bs: seq<Block>): (r: seq<int>)
    ensures |r| == |bs| + 1 && r[0] == ORDER_HEAD
    ensures forall i :: 0 <= i < |bs| ==> r[i + 1] == bs[i].addr + 1
  {
    [ORDER_HEAD] + seq(|bs|, i requires 0 <= i < |bs| => bs[i].addr + 1)
  }

  // ---------------------------------------------------------------- one block in memory

  ghost predicate HeaderOk(m: Mem, cookie: nat, b: Block) {
    && b.End() <= |m|
    && m[b.addr].Entry? && m[b.addr].body == Front(b.Magic(cookie), b.size)
    && m[b.addr + 1].Entry? && m[b.addr + 1].body == Back(b.kind, b.pad, cookie, b.Magic(cookie))
  }

  ghost predicate FreePattern(m: Mem, b: Block)
    requires b.End() <= |m|
  {
    forall u :: b.Data() <= u < b.End() ==> m[u] == Fill(FREED_PADDING)
  }

  ghost predicate PaddingPattern(m: Mem, b: Block)
    requires b.End() <= |m|
  {
    forall u, k {:trigger m[u].b[k]} ::
      b.Data() <= u < b.End() && 0 <= k < PARAGRAPH && m[u].Bytes16() && b.UserSize() <= PARAGRAPH * (u - b.Data()) + k
      ==> m[u].b[k] == ALLOCATED_PADDING
  }

  ghost predicate BlockOk(m: Mem, cookie: nat, b: Block) {
    && HeaderOk(m, cookie, b)
    && b.kind in {FREE, ALLOCATED, LOCKED}
    && b.pad < 256
    && (forall u :: b.Data() <= u < b.End() ==> m[u].Bytes16())
    && (b.kind == FREE ==> FreePattern(m, b))
    && (b.Live() ==> b.pad <= PARAGRAPH * b.size && PaddingPattern(m, b))
  }

  ghost predicate AllOk(m: Mem, cookie: nat, bs: seq<Block>) {
    forall i :: 0 <= i < |bs| ==> BlockOk(m, cookie, bs[i])
  }

  /** The arena ends where memory does and the three heads lie below it. */
  ghost predicate Layout(m: Mem, s: State) {
    && ORDER_HEAD < s.base < s.limit == |m| <= 0x1000_0000
    && (forall h :: 0 <= h <= ORDER_HEAD ==> m[h].Entry? && m[h].body == Anchor)
  }

  /** Everything the heap keeps while its lock is held, except that no two neighbours are free. */
  ghost predicate Core(m: Mem, s: State) {
    && Layout(m, s)
    && Tiled(s.blocks, s.base, s.limit)
    && AllOk(m, s.cookie, s.blocks)
    && Listed(s)
    && Rings(m, FreeRing(s), UsedRing(s), OrderRing(s.blocks))
  }

  ghost predicate Inv(m: Mem, s: State) {
    Core(m, s) && NoAdjacentFree(s.blocks)
  }

  // ---------------------------------------------------------------- consequences of tiling

  lemma {:induction false} TiledOrder(bs: seq<Block>, base: nat, limit: nat, i: int, j: int)
    requires Tiled(bs, base, limit) && 0 <= i < j < |bs|
    ensures bs[i].End() <= bs[j].addr
    decreases j - i
  {
    assert Abuts(bs, i);
    if i + 1 < j {
      TiledOrder(bs, base, limit, i + 1, j);
    }
  }

  lemma TiledApart(bs: seq<Block>, base: nat, limit: nat)
    requires Tiled(bs, base, limit)
    ensures forall i, j :: 0 <= i < j < |bs| ==> bs[i].End() <= bs[j].addr
    ensures forall i :: 0 <= i < |bs| ==> base <= bs[i].addr && bs[i].End() <= limit
  {
    forall i, j | 0 <= i < j < |bs|
      ensures bs[i].End() <= bs[j].addr
    {
      TiledOrder(bs, base, limit, i, j);
    }
  }

  /** Paragraphs a block may be read through, the pointers aside. */
  ghost predicate SameBlock(m: Mem, m': Mem, b: Block) {
    && b.End() <= |m| == |m'|
    && (forall u {:trigger m'[u]} :: b.addr <= u < b.End() ==> SameBody(m[u], m'[u]))
  }

  lemma BlockFrame(m: Mem, m': Mem, cookie: nat, b: Block)
    requires BlockOk(m, cookie, b) && SameBlock(m, m', b)
    ensures BlockOk(m', cookie, b)
  {
    assert SameBody(m[b.addr], m'[b.addr]) && SameBody(m[b.addr + 1], m'[b.addr + 1]);
    forall u | b.Data() <= u < b.End()
      ensures m'[u] == m[u]
    {
      assert SameBody(m[u], m'[u]);
    }
  }
}
