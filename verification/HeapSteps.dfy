/** The steps heap operations are made of, and what each does to the blocks and lists. */
module HeapSteps {
  import opened Common
  import opened HeapMemory
  import opened HeapState
  import opened HeapSplice

  /** The header of b stored at its place; pointers already there stay. */
  function HeaderStored(m: Mem, cookie: nat, b: Block): (m': Mem)
    requires b.End() <= |m|
    ensures |m'| == |m|
  {
    var f, k := ViewFront(m[b.addr]), ViewBack(m[b.addr + 1]);
    m[b.addr := Entry(Front(b.Magic(cookie), b.size), f.flink, f.blink)]
     [b.addr + 1 := Entry(Back(b.kind, b.pad, cookie, b.Magic(cookie)), k.flink, k.blink)]
  }

  ghost predicate DataBytes(m: Mem, b: Block)
    requires b.End() <= |m|
  {
    forall v :: b.Data() <= v < b.End() ==> m[v].Bytes16()
  }

  lemma AllocatedDataRaw(m0: Mem, s: State, i: nat, b: Block, m1: Mem)
    requires Core(m0, s) && i < |s.blocks| && b.addr == s.blocks[i].addr && b.size <= s.blocks[i].size
    requires b.End() <= |m0| && m1 == HeaderStored(m0, s.cookie, b)
    ensures DataBytes(m1, b)
  {
    assert BlockOk(m0, s.cookie, s.blocks[i]);
  }

  // Stores to single header fields of the block at u.

  function SizeSet(m: Mem, u: nat, size: nat): (m': Mem)
    requires u + 1 < |m|
    ensures |m'| == |m|
  {
    var p := ViewFront(m[u]);
    m[u := p.(body := p.body.(size := size))]
  }

  function KindSet(m: Mem, u: nat, kind: nat): (m': Mem)
    requires u + 1 < |m|
    ensures |m'| == |m|
  {
    var p := ViewBack(m[u + 1]);
    m[u + 1 := p.(body := p.body.(kind := kind))]
  }

  function PadSet(m: Mem, u: nat, pad: nat): (m': Mem)
    requires u + 1 < |m|
    ensures |m'| == |m|
  {
    var p := ViewBack(m[u + 1]);
    m[u + 1 := p.(body := p.body.(pad := pad))]
  }

  function CookieSet(m: Mem, u: nat, cookie: nat): (m': Mem)
    requires u + 1 < |m|
    ensures |m'| == |m|
  {
    var p := ViewBack(m[u + 1]);
    m[u + 1 := p.(body := p.body.(cookie := cookie))]
  }

  /** ExpRecalculateChecksumBlock. */
  function Summed(m: Mem, u: nat): (m': Mem)
    requires u + 1 < |m|
    ensures |m'| == |m|
  {
    var f, k := ViewFront(m[u]), ViewBack(m[u + 1]);
    var sum := Checksum(u, f.body.size, k.body.kind, k.body.pad, k.body.cookie);
    m[u := f.(body := f.body.(magic1 := sum))][u + 1 := k.(body := k.body.(magic2 := sum))]
  }

  /** The block whose header starts at u, as its header reads, and its cookie. */
  function HeaderRead(m: Mem, u: nat): (r: (Block, nat))
    requires u + 1 < |m|
    ensures r.0.addr == u
  {
    var f, k := ViewFront(m[u]).body, ViewBack(m[u + 1]).body;
    (Block(u, f.size, k.kind, k.pad), k.cookie)
  }

  /** Recomputing the checksum completes the header that reads there. */
  lemma SummedIsStored(m: Mem, u: nat)
    requires u + 1 < |m| && HeaderRead(m, u).0.End() <= |m|
    ensures Summed(m, u) == HeaderStored(m, HeaderRead(m, u).1, HeaderRead(m, u).0)
  {
    hide Checksum;
  }

  lemma FieldStores(m: Mem, u: nat, v: nat)
    requires u + 1 < |m|
    ensures var (b, c) := HeaderRead(m, u);
      && HeaderRead(SizeSet(m, u, v), u) == (b.(size := v), c)
      && HeaderRead(KindSet(m, u, v), u) == (b.(kind := v), c)
      && HeaderRead(PadSet(m, u, v), u) == (b.(pad := v), c)
      && HeaderRead(CookieSet(m, u, v), u) == (b, v)
  {
  }

  /** A complete header store leaves nothing of earlier stores to the header. */
  lemma StoredAbsorbs(m: Mem, u: nat, v: nat, cookie: nat, b: Block)
    requires b.addr == u && b.End() <= |m|
    ensures HeaderStored(SizeSet(m, u, v), cookie, b) == HeaderStored(m, cookie, b)
    ensures HeaderStored(KindSet(m, u, v), cookie, b) == HeaderStored(m, cookie, b)
    ensures HeaderStored(PadSet(m, u, v), cookie, b) == HeaderStored(m, cookie, b)
    ensures HeaderStored(CookieSet(m, u, v), cookie, b) == HeaderStored(m, cookie, b)
  {
    hide Checksum;
  }

  /** The last b.pad data bytes of b hold the allocated padding; every other byte is as before. */
  ghost predicate PaddingWritten(m: Mem, m': Mem, b: Block) {
    && b.End() <= |m| == |m'|
    && (forall u :: 0 <= u < |m| && !(b.Data() <= u < b.End()) ==> m'[u] == m[u])
    && (forall u :: b.Data() <= u < b.End() ==> m[u].Bytes16() && m'[u].Bytes16())
    && (forall u, k {:trigger m'[u].b[k]} :: b.Data() <= u < b.End() && 0 <= k < PARAGRAPH ==>
      m'[u].b[k] == if PARAGRAPH * (u - b.Data()) + k < b.UserSize() then m[u].b[k] else ALLOCATED_PADDING)
  }

  /** The paragraphs [lo, hi) hold the freed padding; the rest is as before. */
  ghost predicate FreedWritten(m: Mem, m': Mem, lo: int, hi: int) {
    && 0 <= lo <= hi <= |m| == |m'|
    && (forall u :: 0 <= u < |m| ==> m'[u] == if lo <= u < hi then Fill(FREED_PADDING) else m[u])
  }

  /** Storing a header and padding bytes makes a good block of raw data paragraphs. */
  lemma StoredBlockOk(m0: Mem, m1: Mem, m2: Mem, cookie: nat, b: Block)
    requires b.End() <= |m0| && m1 == HeaderStored(m0, cookie, b)
    requires b.Live() && b.pad < 256 && b.pad <= PARAGRAPH * b.size
    requires PaddingWritten(m1, m2, b)
    ensures BlockOk(m2, cookie, b)
  {
    assert m2[b.addr] == m1[b.addr] && m2[b.addr + 1] == m1[b.addr + 1];
  }

  lemma StoredFreeOk(m0: Mem, m1: Mem, cookie: nat, b: Block)
    requires b.End() <= |m0| && m1 == HeaderStored(m0, cookie, b)
    requires b.kind == FREE && b.pad < 256
    requires forall u :: b.Data() <= u < b.End() ==> m1[u] == Fill(FREED_PADDING)
    ensures BlockOk(m1, cookie, b)
  {
  }

  // ---------------------------------------------------------------- list positions

  /** The list without the first entry equal to x. */
  function Remove(r: seq<int>, x: int): (s: seq<int>)
    ensures x !in r ==> s == r
  {
    if r == [] then [] else if r[0] == x then r[1..] else [r[0]] + Remove(r[1..], x)
  }

  lemma DistinctTail(h: int, r: seq<int>)
    requires Distinct([h] + r)
    ensures Distinct(r) && h !in r
  {
    var s := [h] + r;
    forall i, j | 0 <= i < j < |r|
      ensures r[i] != r[j]
    {
      assert s[i + 1] != s[j + 1];
    }
    forall i | 0 <= i < |r|
      ensures r[i] != h
    {
      assert s[0] != s[i + 1];
    }
  }

  lemma ConsWithout(h: int, r: seq<int>, p: nat)
    requires p < |r|
    ensures [h] + (r[..p] + r[p + 1..]) == Without([h] + r, p + 1)
  {
  }

  lemma RemoveIsWithout(h: int, r: seq<int>, p: nat)
    requires p < |r| && Distinct([h] + r)
    ensures [h] + Remove(r, r[p]) == Without([h] + r, p + 1)
    ensures Remove(r, r[p]) == Without(r, p) && Distinct(r)
  {
    hide Remove;
    DistinctTail(h, r);
    RemoveAt(r, p);
    ConsWithout(h, r, p);
  }

  lemma {:induction false} RemoveAt(r: seq<int>, p: nat)
    requires p < |r| && Distinct(r)
    ensures Remove(r, r[p]) == r[..p] + r[p + 1..]
  {
    if p > 0 {
      var t := r[1..];
      assert Distinct(t) && t[p - 1] == r[p];
      RemoveAt(t, p - 1);
      assert [r[0]] + (t[..p - 1] + t[p..]) == r[..p] + r[p + 1..];
    }
  }

  lemma WithoutMembers(r: seq<int>, p: nat)
    requires p < |r| && Distinct(r)
    ensures forall u :: u in Without(r, p) <==> u in r && u != r[p]
  {
    var s := Without(r, p);
    forall u | u in r && u != r[p]
      ensures u in s
    {
      var i :| 0 <= i < |r| && r[i] == u;
      assert s[if i < p then i else i - 1] == u;
    }
    forall u | u in s
      ensures u in r && u != r[p]
    {
      var i :| 0 <= i < |s| && s[i] == u;
      assert r[if i < p then i else i + 1] == u;
    }
  }

  lemma TailIsAfterLast(r: seq<int>, p: int)
    requires |r| > 0
    ensures WithAfter(r, |r| - 1, p) == r + [p]
    ensures Succ(r, |r| - 1) == r[0]
  {
  }

  /** RemoveEntryList followed by InsertTailList: the entry leaves list x and ends list y. */
  function Relisted(m: Mem, p: int, head: int): (m': Mem)
    requires CanRelist(m, p, head)
    ensures |m'| == |m|
  {
    var m1 := Unlinked(m, p);
    LinkedBetween(m1, m1[head].blink, p, head)
  }

  ghost predicate CanUnlink(m: Mem, p: int) {
    && 0 <= p < |m| && m[p].Entry?
    && 0 <= m[p].flink < |m| && m[m[p].flink].Entry?
    && 0 <= m[p].blink < |m| && m[m[p].blink].Entry?
  }

  ghost predicate CanAppend(m: Mem, p: int, head: int) {
    && 0 <= p < |m| && m[p].Entry?
    && 0 <= head < |m| && m[head].Entry? && head != p
    && 0 <= m[head].blink < |m| && m[m[head].blink].Entry?
  }

  ghost predicate CanInsertAfter(m: Mem, p: int, head: int) {
    && 0 <= p < |m| && m[p].Entry?
    && 0 <= head < |m| && m[head].Entry? && head != p
    && 0 <= m[head].flink < |m| && m[m[head].flink].Entry? && m[head].flink != p
  }

  ghost predicate CanRelist(m: Mem, p: int, head: int) {
    CanUnlink(m, p) && CanAppend(Unlinked(m, p), p, head)
  }

  ghost predicate SameBodies(m: Mem, m': Mem) {
    |m'| == |m| && forall u {:trigger m'[u]} :: 0 <= u < |m| ==> SameBody(m[u], m'[u])
  }

  lemma AppendOne(m: Mem, x: seq<int>, p: int, y: seq<int>, z: seq<int>)
    requires Rings(m, x, y, z) && p !in x && p !in y && p !in z
    requires 0 <= p < |m| && m[p].Entry?
    ensures CanAppend(m, p, x[0])
    ensures var m' := LinkedBetween(m, m[x[0]].blink, p, x[0]); Rings(m', x + [p], y, z) && SameBodies(m, m')
  {
    LinkOne(m, x, |x| - 1, p, y, z);
    TailIsAfterLast(x, p);
    assert x[0] in x;
  }

  lemma RelistOne(m: Mem, x: seq<int>, i: int, y: seq<int>, z: seq<int>)
    requires Rings(m, x, y, z) && 0 < i < |x|
    ensures CanRelist(m, x[i], y[0])
    ensures var m' := Relisted(m, x[i], y[0]); Rings(m', Without(x, i), y + [x[i]], z) && SameBodies(m, m')
  {
    var p := x[i];
    UnlinkOne(m, x, i, y, z);
    assert p in x;
    var m1 := Unlinked(m, p);
    assert Rings(m1, y, Without(x, i), z);
    AppendOne(m1, y, p, Without(x, i), z);
  }

  /** A free block's place on the free list, counted with the head. */
  lemma FreePosition(m: Mem, s: State, i: nat) returns (p: nat)
    requires Core(m, s) && i < |s.blocks| && s.blocks[i].kind == FREE
    ensures 0 < p < |FreeRing(s)| && FreeRing(s)[p] == s.blocks[i].addr
    ensures Without(FreeRing(s), p) == [FREE_HEAD] + Remove(s.free, s.blocks[i].addr)
    ensures forall u :: u in Remove(s.free, s.blocks[i].addr) <==> u in s.free && u != s.blocks[i].addr
  {
    hide Remove;
    ListsDistinct(m, s, i);
    var k :| 0 <= k < |s.free| && s.free[k] == s.blocks[i].addr;
    p := k + 1;
    ListPosition(FREE_HEAD, s.free, k);
  }

  /** A used block's place on the allocated list, counted with the head. */
  lemma UsedPosition(m: Mem, s: State, i: nat) returns (p: nat)
    requires Core(m, s) && i < |s.blocks| && s.blocks[i].kind != FREE
    ensures 0 < p < |UsedRing(s)| && UsedRing(s)[p] == s.blocks[i].addr
    ensures Without(UsedRing(s), p) == [USED_HEAD] + Remove(s.used, s.blocks[i].addr)
    ensures forall u :: u in Remove(s.used, s.blocks[i].addr) <==> u in s.used && u != s.blocks[i].addr
  {
    hide Remove, Core;
    ListsDistinct(m, s, i);
    var k :| 0 <= k < |s.used| && s.used[k] == s.blocks[i].addr;
    p := k + 1;
    ListPosition(USED_HEAD, s.used, k);
  }

  lemma ListsDistinct(m: Mem, s: State, i: nat)
    requires Core(m, s) && i < |s.blocks|
    ensures Distinct(FreeRing(s)) && Distinct(UsedRing(s)) && Distinct(OrderRing(s.blocks))
    ensures s.blocks[i].addr in s.free <==> s.blocks[i].kind == FREE
    ensures s.blocks[i].addr in s.used <==> s.blocks[i].kind != FREE
  {
  }

  lemma ListPosition(h: int, r: seq<int>, k: nat)
    requires k < |r| && Distinct([h] + r)
    ensures Without([h] + r, k + 1) == [h] + Remove(r, r[k])
    ensures forall u :: u in Remove(r, r[k]) <==> u in r && u != r[k]
  {
    hide Remove;
    RemoveIsWithout(h, r, k);
    WithoutMembers(r, k);
  }

  // ---------------------------------------------------------------- allocation

  /** The block at i taken whole for a request of n bytes. */
  function TakenWhole(s: State, i: nat, n: nat): (s': State)
    requires i < |s.blocks| && n <= PARAGRAPH * s.blocks[i].size
    ensures s' == s.(blocks := s'.blocks, free := s'.free, used := s'.used)
  {
    var b := s.blocks[i];
    s.(blocks := Splice(s.blocks, i, i + 1, [Block(b.addr, b.size, ALLOCATED, PARAGRAPH * b.size - n)]),
       free := Remove(s.free, b.addr), used := s.used + [b.addr])
  }

  /** The block at i cut to k paragraphs for a request of n bytes; the rest becomes a free block
      behind it, whose PaddingSize field is whatever byte lay there. */
  function TakenPart(s: State, i: nat, n: nat, k: nat): (s': State)
    requires i < |s.blocks| && n <= PARAGRAPH * k && k + HEADER <= s.blocks[i].size
    ensures s' == s.(blocks := s'.blocks, free := s'.free, used := s'.used)
  {
    var b := s.blocks[i];
    var rest := Block(b.addr + HEADER + k, b.size - k - HEADER, FREE, FREED_PADDING);
    s.(blocks := Splice(s.blocks, i, i + 1, [Block(b.addr, k, ALLOCATED, PARAGRAPH * k - n), rest]),
       free := Remove(s.free, b.addr) + [rest.addr], used := s.used + [b.addr])
  }

  /** Storing a header over an existing header of the same block leaves every list alone. */
  lemma HeaderStoredRings(m: Mem, m': Mem, cookie: nat, b: Block, x: seq<int>, y: seq<int>, z: seq<int>)
    requires Rings(m, x, y, z) && b.End() <= |m| && m' == HeaderStored(m, cookie, b)
    requires (m[b.addr].Entry? ==> m[b.addr].body.Front?) && (m[b.addr + 1].Entry? ==> m[b.addr + 1].body.Back?)
    ensures Rings(m', x, y, z)
  {
    RingsFrame(m, m', x, y, z);
  }

  lemma DataWrittenRings(m: Mem, m': Mem, lo: int, hi: int, x: seq<int>, y: seq<int>, z: seq<int>)
    requires Rings(m, x, y, z) && |m'| == |m|
    requires forall u :: 0 <= u < |m| && !(lo <= u < hi) ==> m'[u] == m[u]
    requires forall u :: 0 <= u < |m| && lo <= u < hi ==> !m[u].Entry?
    ensures Rings(m', x, y, z)
  {
    RingsFrame(m, m', x, y, z);
  }

  /** The parts of a consistent heap, by name. */
  lemma CoreNamed(m: Mem, s: State)
    requires Core(m, s)
    ensures Layout(m, s) && Tiled(s.blocks, s.base, s.limit) && AllOk(m, s.cookie, s.blocks)
    ensures Listed(s) && Rings(m, FreeRing(s), UsedRing(s), OrderRing(s.blocks))
  {
  }

  lemma CoreNamedTiled(m: Mem, s: State)
    requires Core(m, s)
    ensures Tiled(s.blocks, s.base, s.limit)
  {
  }

  lemma BlockNamed(m: Mem, s: State, i: nat)
    requires AllOk(m, s.cookie, s.blocks) && i < |s.blocks|
    ensures BlockOk(m, s.cookie, s.blocks[i])
  {
  }

  /** The header of block i rewritten as b, and b's padding written: lists intact, b good. */
  lemma Claimed(m0: Mem, s: State, i: nat, b: Block, m1: Mem, m2: Mem)
    requires Core(m0, s) && i < |s.blocks|
    requires b.addr == s.blocks[i].addr && b.size <= s.blocks[i].size
    requires b.Live() && b.pad < 256 && b.pad <= PARAGRAPH * b.size
    requires b.End() <= |m0| && m1 == HeaderStored(m0, s.cookie, b) && PaddingWritten(m1, m2, b)
    ensures Rings(m2, FreeRing(s), UsedRing(s), OrderRing(s.blocks))
    ensures BlockOk(m2, s.cookie, b)
    ensures SameOutside(m0, m2, b.addr, b.End())
  {
    hide Core, Rings, AllOk, Listed, Layout, Tiled;
    CoreNamed(m0, s);
    BlockNamed(m0, s, i);
    HeaderStoredRings(m0, m1, s.cookie, b, FreeRing(s), UsedRing(s), OrderRing(s.blocks));
    DataWrittenRings(m1, m2, b.Data(), b.End(), FreeRing(s), UsedRing(s), OrderRing(s.blocks));
    StoredBlockOk(m0, m1, m2, s.cookie, b);
  }

  lemma BodiesKeepBlock(m: Mem, m': Mem, cookie: nat, b: Block)
    requires BlockOk(m, cookie, b) && SameBodies(m, m')
    ensures BlockOk(m', cookie, b)
  {
    BlockFrame(m, m', cookie, b);
  }

  lemma OutsideThenBodies(m0: Mem, m1: Mem, m2: Mem, a: int, e: int)
    requires SameOutside(m0, m1, a, e) && SameBodies(m1, m2)
    ensures SameOutside(m0, m2, a, e)
  {
    forall u | 0 <= u < |m0| && !(a <= u < e)
      ensures SameBody(m0[u], m2[u])
    {
      assert SameBody(m0[u], m1[u]) && SameBody(m1[u], m2[u]);
    }
  }

  lemma TakenWholeFollows(s: State, i: nat, n: nat)
    requires Tiled(s.blocks, s.base, s.limit) && Listed(s) && i < |s.blocks|
    requires s.blocks[i].kind == FREE && n <= PARAGRAPH * s.blocks[i].size
    requires forall u :: u in Remove(s.free, s.blocks[i].addr) <==> u in s.free && u != s.blocks[i].addr
    ensures ListsFollow(s, TakenWhole(s, i, n), i, i + 1,
      [s.blocks[i].(kind := ALLOCATED, pad := PARAGRAPH * s.blocks[i].size - n)])
  {
    var s' := TakenWhole(s, i, n);
    var b := s'.blocks[i];
    forall a | b.addr <= a < b.End() && (a in s'.free || a in s'.used)
      ensures a == b.addr
    {
      if a != b.addr {
        OnlyOwnAddress(s.blocks, s.base, s.limit, i, a);
      }
    }
    assert [b][0].addr == b.addr;
  }

  lemma OnlyOwnAddress(bs: seq<Block>, base: nat, limit: nat, i: nat, a: int)
    requires Tiled(bs, base, limit) && i < |bs| && IsBlock(bs, a) && bs[i].addr <= a < bs[i].End()
    ensures a == bs[i].addr
  {
    var j :| 0 <= j < |bs| && bs[j].addr == a;
    if j < i {
      TiledOrder(bs, base, limit, j, i);
    } else if i < j {
      TiledOrder(bs, base, limit, i, j);
    }
  }

  lemma TakenWholeShape(s: State, i: nat, n: nat, b: Block)
    requires i < |s.blocks| && n <= PARAGRAPH * s.blocks[i].size
    requires b == s.blocks[i].(kind := ALLOCATED, pad := PARAGRAPH * s.blocks[i].size - n)
    ensures var s' := TakenWhole(s, i, n);
      && s' == s.(blocks := Splice(s.blocks, i, i + 1, [b]), free := s'.free, used := s'.used)
      && FreeRing(s') == [FREE_HEAD] + Remove(s.free, b.addr)
      && UsedRing(s') == UsedRing(s) + [b.addr]
      && OrderRing(s'.blocks) == OrderRing(s.blocks)
  {
    OrderRingKept(s.blocks, i, b);
  }

  lemma TakenWholeCore(m0: Mem, s: State, i: nat, n: nat, b: Block, m2: Mem)
    requires Core(m0, s) && i < |s.blocks| && s.blocks[i].kind == FREE
    requires n <= PARAGRAPH * s.blocks[i].size
    requires b == s.blocks[i].(kind := ALLOCATED, pad := PARAGRAPH * s.blocks[i].size - n)
    requires BlockOk(m2, s.cookie, b) && SameOutside(m0, m2, b.addr, b.End())
    requires Rings(m2, FreeRing(s), UsedRing(s), OrderRing(s.blocks))
    ensures CanRelist(m2, b.addr, USED_HEAD)
    ensures var m4 := Relisted(m2, b.addr, USED_HEAD);
      Core(m4, TakenWhole(s, i, n)) && OthersKept(m0, s, m4, TakenWhole(s, i, n), -1)
  {
    hide Core, Rings, AllOk, Listed, Layout, Tiled, BlockOk, SameOutside, SameBodies, CanRelist, Relisted, ListsFollow,
      OthersKept, Remove, TakenWhole, OrderRing, Splice, FreeRing;
    CoreNamed(m0, s);
    var p := FreePosition(m0, s, i);
    RelistOne(m2, FreeRing(s), p, UsedRing(s), OrderRing(s.blocks));
    var m4 := Relisted(m2, b.addr, USED_HEAD);
    TakenWholeShape(s, i, n, b);
    BodiesKeepBlock(m2, m4, s.cookie, b);
    OutsideThenBodies(m0, m2, m4, b.addr, b.End());
    TakenWholeFollows(s, i, n);
    OneTiles(b);
    OneOk(m4, s.cookie, b);
    SpliceCore(m0, s, m4, TakenWhole(s, i, n), i, i + 1, [b]);
    LayoutLimit(m0, s);
    SpliceKeepsOthers(m0, s, m4, TakenWhole(s, i, n), i, i + 1, [b], -1);
  }

  lemma LayoutLimit(m: Mem, s: State)
    requires Layout(m, s)
    ensures s.limit == |m|
  {
  }

  lemma OneTiles(b: Block)
    ensures Tiled([b], b.addr, b.End())
  {
  }

  lemma TwoTile(b: Block, c: Block)
    requires c.addr == b.End()
    ensures Tiled([b, c], b.addr, c.End())
  {
    assert Abuts([b, c], 0);
  }

  lemma OneOk(m: Mem, cookie: nat, b: Block)
    requires BlockOk(m, cookie, b)
    ensures AllOk(m, cookie, [b])
  {
  }

  /** A new header laid over raw paragraphs is on no list yet and disturbs none. */
  lemma FreshHeader(m: Mem, cookie: nat, c: Block, x: seq<int>, y: seq<int>, z: seq<int>)
    requires Rings(m, x, y, z) && c.End() <= |m|
    requires !m[c.addr].Entry? && !m[c.addr + 1].Entry?
    ensures var m' := HeaderStored(m, cookie, c);
      && Rings(m', x, y, z) && m'[c.addr].Entry? && m'[c.addr + 1].Entry?
      && SameOutside(m, m', c.addr, c.Data()) && SameData(m, m', c)
    ensures c.addr !in x && c.addr !in y && c.addr !in z
    ensures c.addr + 1 !in x && c.addr + 1 !in y && c.addr + 1 !in z
  {
    var m' := HeaderStored(m, cookie, c);
    MembersInRange(m, x);
    MembersInRange(m, y);
    MembersInRange(m, z);
    RingsFrame(m, m', x, y, z);
  }

  /** InsertTailList into x of p, then InsertHeadList after the i-th entry of z of q. */
  lemma AppendAndOrder(m: Mem, x: seq<int>, p: int, y: seq<int>, z: seq<int>, i: nat, q: int)
    requires Rings(m, x, y, z) && p !in x && p !in y && p !in z && i < |z|
    requires q !in x && q !in y && q !in z && p != q
    requires 0 <= p < |m| && m[p].Entry? && 0 <= q < |m| && m[q].Entry?
    ensures CanAppend(m, p, x[0])
    ensures var m1 := LinkedBetween(m, m[x[0]].blink, p, x[0]);
      && CanInsertAfter(m1, q, z[i])
      && var m2 := LinkedBetween(m1, z[i], q, m1[z[i]].flink);
         Rings(m2, x + [p], y, WithAfter(z, i, q)) && SameBodies(m, m2)
  {
    AppendOne(m, x, p, y, z);
    var m1 := LinkedBetween(m, m[x[0]].blink, p, x[0]);
    InsertOne(m1, z, i, q, x + [p], y);
    var m2 := LinkedBetween(m1, z[i], q, m1[z[i]].flink);
    SameBodiesTwice(m, m1, m2);
  }

  lemma InsertOne(m: Mem, z: seq<int>, i: nat, q: int, x: seq<int>, y: seq<int>)
    requires Rings(m, x, y, z) && i < |z| && q !in x && q !in y && q !in z && 0 <= q < |m| && m[q].Entry?
    ensures CanInsertAfter(m, q, z[i])
    ensures var m' := LinkedBetween(m, z[i], q, m[z[i]].flink); Rings(m', x, y, WithAfter(z, i, q)) && SameBodies(m, m')
  {
    assert Rings(m, z, x, y);
    LinkOne(m, z, i, q, x, y);
    assert z[i] in z && Succ(z, i) in z;
  }

  lemma SameBodiesTwice(m: Mem, m1: Mem, m2: Mem)
    requires SameBodies(m, m1) && SameBodies(m1, m2)
    ensures SameBodies(m, m2)
  {
    forall u | 0 <= u < |m|
      ensures SameBody(m[u], m2[u])
    {
      assert SameBody(m[u], m1[u]) && SameBody(m1[u], m2[u]);
    }
  }

  /** Two memories agree on the paragraphs [a, e), which hold freed padding. */
  ghost predicate FreedAt(m: Mem, a: int, e: int) {
    0 <= a <= e <= |m| && forall u {:trigger m[u]} :: a <= u < e ==> m[u] == Fill(FREED_PADDING)
  }

  lemma FreedSurvives(m: Mem, m': Mem, a: int, e: int, lo: int, hi: int)
    requires FreedAt(m, a, e) && SameOutside(m, m', lo, hi) && (e <= lo || hi <= a)
    ensures FreedAt(m', a, e)
  {
    forall u | a <= u < e
      ensures m'[u] == Fill(FREED_PADDING)
    {
      assert SameBody(m[u], m'[u]) && m[u] == Fill(FREED_PADDING);
    }
  }

  lemma FreeBlockFreed(m: Mem, s: State, i: nat)
    requires Core(m, s) && i < |s.blocks| && s.blocks[i].kind == FREE
    ensures FreedAt(m, s.blocks[i].Data(), s.blocks[i].End())
  {
    assert BlockOk(m, s.cookie, s.blocks[i]);
  }

  /** The rest block of a cut: its header goes over freed bytes, and so does its data. */
  lemma RestOk(m: Mem, m': Mem, cookie: nat, c: Block)
    requires c.End() <= |m| && FreedAt(m, c.addr, c.End()) && m' == HeaderStored(m, cookie, c)
    requires c.kind == FREE && c.pad < 256
    ensures BlockOk(m', cookie, c)
  {
    StoredFreeOk(m, m', cookie, c);
  }

  /** The block taken is on the allocated list now, and the paragraphs behind it are still free. */
  lemma TakenPartRelisted(m0: Mem, s: State, i: nat, b: Block, m2: Mem)
    requires Core(m0, s) && i < |s.blocks| && s.blocks[i].kind == FREE
    requires b.addr == s.blocks[i].addr && b.size <= s.blocks[i].size
    requires BlockOk(m2, s.cookie, b) && SameOutside(m0, m2, b.addr, b.End())
    requires Rings(m2, FreeRing(s), UsedRing(s), OrderRing(s.blocks))
    ensures CanRelist(m2, b.addr, USED_HEAD)
    ensures var m4 := Relisted(m2, b.addr, USED_HEAD);
      && Rings(m4, [FREE_HEAD] + Remove(s.free, b.addr), UsedRing(s) + [b.addr], OrderRing(s.blocks))
      && BlockOk(m4, s.cookie, b) && SameOutside(m0, m4, b.addr, b.End())
      && FreedAt(m4, b.End(), s.blocks[i].End())
  {
    hide Core, Rings, BlockOk, SameOutside, SameBodies, CanRelist, Relisted, Remove, OrderRing, FreeRing, FreedAt;
    var p := FreePosition(m0, s, i);
    RelistOne(m2, FreeRing(s), p, UsedRing(s), OrderRing(s.blocks));
    var m4 := Relisted(m2, b.addr, USED_HEAD);
    BodiesKeepBlock(m2, m4, s.cookie, b);
    OutsideThenBodies(m0, m2, m4, b.addr, b.End());
    FreeBlockFreed(m0, s, i);
    FreedPart(m0, s.blocks[i].Data(), s.blocks[i].End(), b.End());
    FreedSurvives(m0, m4, b.End(), s.blocks[i].End(), b.addr, b.End());
  }

  lemma FreedPart(m: Mem, a: int, e: int, c: int)
    requires FreedAt(m, a, e) && a <= c <= e
    ensures FreedAt(m, c, e)
  {
  }

  lemma TakenPartShape(s: State, i: nat, n: nat, b: Block, c: Block)
    requires i < |s.blocks| && n <= PARAGRAPH * b.size && b.size + HEADER <= s.blocks[i].size
    requires b == Block(s.blocks[i].addr, b.size, ALLOCATED, PARAGRAPH * b.size - n)
    requires c == Block(b.End(), s.blocks[i].size - b.size - HEADER, FREE, FREED_PADDING)
    ensures var s' := TakenPart(s, i, n, b.size);
      && s' == s.(blocks := Splice(s.blocks, i, i + 1, [b, c]), free := s'.free, used := s'.used)
      && FreeRing(s') == ([FREE_HEAD] + Remove(s.free, b.addr)) + [c.addr]
      && UsedRing(s') == UsedRing(s) + [b.addr]
      && OrderRing(s'.blocks) == WithAfter(OrderRing(s.blocks), i + 1, c.addr + 1)
      && Tiled([b, c], s.blocks[i].addr, s.blocks[i].End())
  {
    OrderRingSplit(s.blocks, i, b, c);
    TwoTile(b, c);
  }

  lemma TakenPartFollows(s: State, i: nat, n: nat, b: Block, c: Block)
    requires Tiled(s.blocks, s.base, s.limit) && Listed(s) && i < |s.blocks| && s.blocks[i].kind == FREE
    requires n <= PARAGRAPH * b.size && b.size + HEADER <= s.blocks[i].size
    requires b == Block(s.blocks[i].addr, b.size, ALLOCATED, PARAGRAPH * b.size - n)
    requires c == Block(b.End(), s.blocks[i].size - b.size - HEADER, FREE, FREED_PADDING)
    requires forall u :: u in Remove(s.free, b.addr) <==> u in s.free && u != b.addr
    ensures ListsFollow(s, TakenPart(s, i, n, b.size), i, i + 1, [b, c])
  {
    hide Remove;
    var s' := TakenPart(s, i, n, b.size);
    var o := s.blocks[i];
    forall a | o.addr <= a < o.End() && (a in s.free || a in s.used)
      ensures a == o.addr
    {
      OnlyOwnAddress(s.blocks, s.base, s.limit, i, a);
    }
    assert [b, c][0].addr == b.addr && [b, c][1].addr == c.addr;
    assert c.addr !in s.free && c.addr !in s.used;
  }

  /** InsertTailList (free list, block c) can be done, then InsertHeadList (block u in memory
      order, block c). */
  ghost predicate CanLinkRest(m: Mem, u: int, c: int) {
    CanAppend(m, c, FREE_HEAD) && CanInsertAfter(LinkedBetween(m, m[FREE_HEAD].blink, c, FREE_HEAD), c + 1, u + 1)
  }

  function RestLinked(m: Mem, u: int, c: int): (m': Mem)
    requires CanLinkRest(m, u, c)
    ensures |m'| == |m|
  {
    var m1 := LinkedBetween(m, m[FREE_HEAD].blink, c, FREE_HEAD);
    LinkedBetween(m1, u + 1, c + 1, m1[u + 1].flink)
  }

  /** The whole cut: the block taken, then the rest made a block of its own. */
  lemma TakenPartCore(m0: Mem, s: State, i: nat, n: nat, b: Block, c: Block, m4: Mem)
    requires Core(m0, s) && i < |s.blocks| && s.blocks[i].kind == FREE
    requires n <= PARAGRAPH * b.size && b.size + HEADER <= s.blocks[i].size
    requires b == Block(s.blocks[i].addr, b.size, ALLOCATED, PARAGRAPH * b.size - n)
    requires c == Block(b.End(), s.blocks[i].size - b.size - HEADER, FREE, FREED_PADDING)
    requires c.End() <= |m4|
    requires Rings(m4, [FREE_HEAD] + Remove(s.free, b.addr), UsedRing(s) + [b.addr], OrderRing(s.blocks))
    requires BlockOk(m4, s.cookie, b) && SameOutside(m0, m4, b.addr, b.End())
    requires FreedAt(m4, b.End(), s.blocks[i].End())
    ensures CanLinkRest(HeaderStored(m4, s.cookie, c), b.addr, c.addr)
    ensures var m7 := RestLinked(HeaderStored(m4, s.cookie, c), b.addr, c.addr);
      Core(m7, TakenPart(s, i, n, b.size)) && OthersKept(m0, s, m7, TakenPart(s, i, n, b.size), -1)
  {
    hide Core, Rings, AllOk, Listed, Layout, Tiled, BlockOk, SameOutside, SameBodies, ListsFollow, OthersKept,
      Remove, TakenPart, OrderRing, Splice, FreeRing, UsedRing, CanAppend, CanInsertAfter, HeaderStored, FreedAt, LinkedBetween;
    CoreNamed(m0, s);
    var x, y, z := [FREE_HEAD] + Remove(s.free, b.addr), UsedRing(s) + [b.addr], OrderRing(s.blocks);
    var m5 := HeaderStored(m4, s.cookie, c);
    NotLinkedWhenFreed(m4, c);
    FreshHeader(m4, s.cookie, c, x, y, z);
    RestOk(m4, m5, s.cookie, c);
    AppendAndOrder(m5, x, c.addr, y, z, i + 1, c.addr + 1);
    var m7 := RestLinked(m5, b.addr, c.addr);
    CutBlocksOk(m4, m5, m7, s.cookie, b, c);
    CutOutside(m0, m4, m5, m7, b, c);
    TakenPartShape(s, i, n, b, c);
    var p := FreePosition(m0, s, i);
    TakenPartFollows(s, i, n, b, c);
    var s' := TakenPart(s, i, n, b.size);
    SpliceCore(m0, s, m7, s', i, i + 1, [b, c]);
    LayoutLimit(m0, s);
    SpliceKeepsOthers(m0, s, m7, s', i, i + 1, [b, c], -1);
  }

  lemma NotLinkedWhenFreed(m: Mem, c: Block)
    requires FreedAt(m, c.addr, c.End())
    ensures c.End() <= |m| && !m[c.addr].Entry? && !m[c.addr + 1].Entry?
  {
  }

  lemma CutBlocksOk(m4: Mem, m5: Mem, m7: Mem, cookie: nat, b: Block, c: Block)
    requires c.addr == b.End() && c.End() <= |m4|
    requires BlockOk(m4, cookie, b) && m5 == HeaderStored(m4, cookie, c) && BlockOk(m5, cookie, c) && SameBodies(m5, m7)
    ensures AllOk(m7, cookie, [b, c])
  {
    BlockFrame(m4, m5, cookie, b);
    BodiesKeepBlock(m5, m7, cookie, b);
    BodiesKeepBlock(m5, m7, cookie, c);
  }

  lemma CutOutside(m0: Mem, m4: Mem, m5: Mem, m7: Mem, b: Block, c: Block)
    requires c.addr == b.End() && c.End() <= |m4|
    requires SameOutside(m0, m4, b.addr, b.End()) && SameOutside(m4, m5, c.addr, c.Data()) && SameBodies(m5, m7)
    ensures SameOutside(m0, m7, b.addr, c.End())
  {
    forall u | 0 <= u < |m0| && !(b.addr <= u < c.End())
      ensures SameBody(m0[u], m7[u])
    {
      assert SameBody(m0[u], m4[u]) && SameBody(m4[u], m5[u]) && SameBody(m5[u], m7[u]);
    }
  }

  lemma HeaderReads(m: Mem, s: State, i: nat)
    requires Core(m, s) && i < |s.blocks|
    ensures var b := s.blocks[i]; s.base <= b.addr && b.End() <= |m| && HeaderRead(m, b.addr) == (b, s.cookie)
    ensures s.blocks[i].pad < 256
  {
    hide Core, Rings, Listed, AllOk, Tiled, BlockOk;
    CoreNamed(m, s);
    BlockNamed(m, s, i);
    HeaderNamed(m, s.cookie, s.blocks[i]);
    PadNamed(m, s.cookie, s.blocks[i]);
    TiledApart(s.blocks, s.base, s.limit);
  }

  lemma HeaderNamed(m: Mem, cookie: nat, b: Block)
    requires BlockOk(m, cookie, b)
    ensures HeaderOk(m, cookie, b)
  {
  }

  lemma PadNamed(m: Mem, cookie: nat, b: Block)
    requires BlockOk(m, cookie, b)
    ensures b.pad < 256
  {
  }

  /** The stores that tag an existing header: type, padding size, checksum. */
  lemma TagStores(m: Mem, u: nat, kind: nat, pad: nat, b: Block, cookie: nat)
    requires u + 1 < |m| && b == HeaderRead(m, u).0.(kind := kind, pad := pad) && cookie == HeaderRead(m, u).1
    requires b.End() <= |m|
    ensures Summed(PadSet(KindSet(m, u, kind), u, pad), u) == HeaderStored(m, cookie, b)
  {
    hide Summed, PadSet, KindSet, HeaderStored, HeaderRead;
    FieldStores(m, u, kind);
    var m1 := KindSet(m, u, kind);
    FieldStores(m1, u, pad);
    var m2 := PadSet(m1, u, pad);
    SummedIsStored(m2, u);
    StoredAbsorbs(m1, u, pad, cookie, b);
    StoredAbsorbs(m, u, kind, cookie, b);
  }

  lemma ResizeStores(m: Mem, u: nat, size: nat, kind: nat, pad: nat, b: Block, cookie: nat)
    requires u + 1 < |m| && b == Block(u, size, kind, pad) && cookie == HeaderRead(m, u).1
    requires b.End() <= |m|
    ensures Summed(PadSet(KindSet(SizeSet(m, u, size), u, kind), u, pad), u) == HeaderStored(m, cookie, b)
  {
    hide Summed, PadSet, KindSet, SizeSet, HeaderStored, HeaderRead;
    FieldStores(m, u, size);
    var m1 := SizeSet(m, u, size);
    FieldStores(m1, u, kind);
    TagStores(m1, u, kind, pad, b, cookie);
    StoredAbsorbs(m, u, size, cookie, b);
  }

  /** The stores that make a new free header; PaddingSize is not among them. */
  lemma NewFreeStores(m: Mem, u: nat, size: nat, cookie: nat, b: Block)
    requires u + 1 < |m| && b == Block(u, size, FREE, HeaderRead(m, u).0.pad) && b.End() <= |m|
    ensures Summed(KindSet(CookieSet(SizeSet(m, u, size), u, cookie), u, FREE), u) == HeaderStored(m, cookie, b)
  {
    hide Summed, CookieSet, KindSet, SizeSet, HeaderStored, HeaderRead;
    FieldStores(m, u, size);
    var m1 := SizeSet(m, u, size);
    FieldStores(m1, u, cookie);
    var m2 := CookieSet(m1, u, cookie);
    FieldStores(m2, u, FREE);
    var m3 := KindSet(m2, u, FREE);
    assert HeaderRead(m3, u) == (b, cookie);
    SummedIsStored(m3, u);
    StoredAbsorbs(m2, u, FREE, cookie, b);
    StoredAbsorbs(m1, u, cookie, cookie, b);
    StoredAbsorbs(m, u, size, cookie, b);
  }

  lemma FreedPadding(m: Mem, u: nat, e: nat)
    requires FreedAt(m, u, e) && u + 1 < e
    ensures HeaderRead(m, u).0.pad == FREED_PADDING
  {
  }

  lemma TakenWholeNoAdjacent(s: State, i: nat, n: nat)
    requires NoAdjacentFree(s.blocks) && i < |s.blocks| && n <= PARAGRAPH * s.blocks[i].size
    ensures NoAdjacentFree(TakenWhole(s, i, n).blocks)
  {
    var r := TakenWhole(s, i, n).blocks;
    forall j | 0 <= j < |r| - 1
      ensures !BothFree(r, j)
    {
      assert !BothFree(s.blocks, j);
    }
  }

  lemma TakenPartNoAdjacent(s: State, i: nat, n: nat, k: nat)
    requires NoAdjacentFree(s.blocks) && i < |s.blocks| && s.blocks[i].kind == FREE
    requires n <= PARAGRAPH * k && k + HEADER <= s.blocks[i].size
    ensures NoAdjacentFree(TakenPart(s, i, n, k).blocks)
  {
    var r := TakenPart(s, i, n, k).blocks;
    forall j | 0 <= j < |r| - 1
      ensures !BothFree(r, j)
    {
      assert j < i ==> !BothFree(s.blocks, j);
      assert j > i ==> !BothFree(s.blocks, j - 1);
    }
  }

  // ---------------------------------------------------------------- freeing

  /** Block i marked free and moved to the end of the free list. */
  function Released(s: State, i: nat): (s': State)
    requires i < |s.blocks|
    ensures s' == s.(blocks := s'.blocks, free := s'.free, used := s'.used) && |s'.blocks| == |s.blocks|
  {
    var b := s.blocks[i];
    s.(blocks := Splice(s.blocks, i, i + 1, [b.(kind := FREE)]), free := s.free + [b.addr], used := Remove(s.used, b.addr))
  }

  /** Blocks i and i + 1 made one; the header of the second becomes free space. */
  function MergedBlock(bs: seq<Block>, i: nat): Block
    requires i + 1 < |bs|
  {
    bs[i].(size := bs[i].size + HEADER + bs[i + 1].size)
  }

  function Merged(s: State, i: nat): (s': State)
    requires i + 1 < |s.blocks|
    ensures s' == s.(blocks := s'.blocks, free := s'.free) && |s'.blocks| == |s.blocks| - 1
  {
    s.(blocks := Splice(s.blocks, i, i + 2, [MergedBlock(s.blocks, i)]), free := Remove(s.free, s.blocks[i + 1].addr))
  }

  lemma KindStoredRings(m: Mem, u: nat, kind: nat, x: seq<int>, y: seq<int>, z: seq<int>)
    requires Rings(m, x, y, z) && u + 1 < |m| && m[u + 1].Entry? && m[u + 1].body.Back?
    ensures Rings(KindSet(m, u, kind), x, y, z)
  {
    RingsFrame(m, KindSet(m, u, kind), x, y, z);
  }

  lemma KindSetFrame(m: Mem, u: nat, kind: nat)
    requires u + 1 < |m| && m[u].Entry? && m[u].body.Front? && m[u + 1].Entry? && m[u + 1].body.Back?
    ensures var m' := KindSet(m, u, kind);
      && m'[u].Entry? && m'[u].body.Front? && m'[u + 1].Entry? && m'[u + 1].body.Back?
      && SameOutside(m, m', u, u + HEADER)
  {
  }

  lemma SameHeaderRead(m: Mem, m': Mem, u: nat)
    requires SameBodies(m, m') && u + 1 < |m|
    requires m[u].Entry? && m[u].body.Front? && m[u + 1].Entry? && m[u + 1].body.Back?
    ensures HeaderRead(m', u) == HeaderRead(m, u)
    ensures m'[u].Entry? && m'[u].body.Front? && m'[u + 1].Entry? && m'[u + 1].body.Back?
  {
    assert SameBody(m[u], m'[u]) && SameBody(m[u + 1], m'[u + 1]);
  }

  /** A header is at paragraph u, by what was stored there last. */
  ghost predicate HeaderTypedAt(m: Mem, u: nat) {
    && u + 1 < |m| && m[u].Entry? && m[u].body.Front? && m[u + 1].Entry? && m[u + 1].body.Back?
  }

  lemma HeaderTyped(m: Mem, s: State, i: nat)
    requires Core(m, s) && i < |s.blocks|
    ensures HeaderTypedAt(m, s.blocks[i].addr)
  {
    assert BlockOk(m, s.cookie, s.blocks[i]);
  }

  /** The block's type set to free and the block moved to the free list. */
  lemma ReleasedListed(m0: Mem, s: State, i: nat)
    requires Core(m0, s) && i < |s.blocks| && s.blocks[i].kind != FREE
    ensures s.blocks[i].addr + 1 < |m0|
    ensures var u := s.blocks[i].addr; var m1 := KindSet(m0, u, FREE);
      && CanRelist(m1, u, FREE_HEAD)
      && var m2 := Relisted(m1, u, FREE_HEAD);
         Rings(m2, FreeRing(s) + [u], [USED_HEAD] + Remove(s.used, u), OrderRing(s.blocks))
         && HeaderRead(m2, u) == (s.blocks[i].(kind := FREE), s.cookie)
         && m2[u].Entry? && m2[u].body.Front? && m2[u + 1].Entry? && m2[u + 1].body.Back?
         && SameOutside(m0, m2, u, u + HEADER)
  {
    hide Core, Rings, SameBodies, SameOutside, CanRelist, Relisted, Remove, OrderRing, FreeRing, UsedRing, KindSet, HeaderRead,
      Tiled, Listed, AllOk, Layout;
    CoreNamed(m0, s);
    HeaderTyped(m0, s, i);
    HeaderReads(m0, s, i);
    var u := s.blocks[i].addr;
    var m1 := KindSet(m0, u, FREE);
    FieldStores(m0, u, FREE);
    KindSetFrame(m0, u, FREE);
    KindStoredRings(m0, u, FREE, FreeRing(s), UsedRing(s), OrderRing(s.blocks));
    var p := UsedPosition(m0, s, i);
    RingsTurned(m1, FreeRing(s), UsedRing(s), OrderRing(s.blocks));
    RelistOne(m1, UsedRing(s), p, FreeRing(s), OrderRing(s.blocks));
    var m2 := Relisted(m1, u, FREE_HEAD);
    RingsTurned(m2, [USED_HEAD] + Remove(s.used, u), FreeRing(s) + [u], OrderRing(s.blocks));
    SameHeaderRead(m1, m2, u);
    OutsideThenBodies(m0, m1, m2, u, u + HEADER);
  }

  lemma RingsTurned(m: Mem, x: seq<int>, y: seq<int>, z: seq<int>)
    requires Rings(m, x, y, z)
    ensures Rings(m, y, x, z)
  {
  }

  /** The checksum stored and the data filled: the freed block is good. */
  lemma ReleasedFilled(m2: Mem, cookie: nat, b: Block, m3: Mem, m4: Mem, x: seq<int>, y: seq<int>, z: seq<int>)
    requires b.End() <= |m2| && HeaderRead(m2, b.addr) == (b, cookie) && b.kind == FREE && b.pad < 256
    requires m2[b.addr].Entry? && m2[b.addr].body.Front? && m2[b.addr + 1].Entry? && m2[b.addr + 1].body.Back?
    requires DataBytes(m2, b) && Rings(m2, x, y, z)
    requires m3 == Summed(m2, b.addr) && FreedWritten(m3, m4, b.Data(), b.End())
    ensures Rings(m4, x, y, z) && BlockOk(m4, cookie, b) && SameOutside(m2, m4, b.addr, b.End())
  {
    hide Rings, Summed;
    SummedIsStored(m2, b.addr);
    HeaderStoredRings(m2, m3, cookie, b, x, y, z);
    DataWrittenRings(m3, m4, b.Data(), b.End(), x, y, z);
  }

  lemma ReleasedShape(s: State, i: nat)
    requires i < |s.blocks|
    ensures var b := s.blocks[i].(kind := FREE); var s' := Released(s, i);
      && s' == s.(blocks := Splice(s.blocks, i, i + 1, [b]), free := s'.free, used := s'.used)
      && FreeRing(s') == FreeRing(s) + [b.addr]
      && UsedRing(s') == [USED_HEAD] + Remove(s.used, b.addr)
      && OrderRing(s'.blocks) == OrderRing(s.blocks)
  {
    OrderRingKept(s.blocks, i, s.blocks[i].(kind := FREE));
  }

  lemma ReleasedFollows(s: State, i: nat)
    requires Tiled(s.blocks, s.base, s.limit) && Listed(s) && i < |s.blocks| && s.blocks[i].kind != FREE
    requires forall u :: u in Remove(s.used, s.blocks[i].addr) <==> u in s.used && u != s.blocks[i].addr
    ensures ListsFollow(s, Released(s, i), i, i + 1, [s.blocks[i].(kind := FREE)])
  {
    hide Remove;
    var s' := Released(s, i);
    var b := s.blocks[i].(kind := FREE);
    forall a | b.addr <= a < b.End() && (a in s'.free || a in s'.used)
      ensures a == b.addr
    {
      if a != b.addr {
        OnlyOwnAddress(s.blocks, s.base, s.limit, i, a);
      }
    }
    assert [b][0].addr == b.addr;
  }

  lemma ReleasedCore(m0: Mem, s: State, i: nat, b: Block, m4: Mem)
    requires Core(m0, s) && i < |s.blocks| && s.blocks[i].kind != FREE && b == s.blocks[i].(kind := FREE)
    requires Rings(m4, FreeRing(s) + [b.addr], [USED_HEAD] + Remove(s.used, b.addr), OrderRing(s.blocks))
    requires BlockOk(m4, s.cookie, b) && SameOutside(m0, m4, b.addr, b.End())
    ensures Core(m4, Released(s, i)) && OthersKept(m0, s, m4, Released(s, i), b.addr)
  {
    hide Core, Rings, AllOk, Listed, Layout, Tiled, BlockOk, SameOutside, ListsFollow, OthersKept, Remove, Released,
      OrderRing, Splice, FreeRing, UsedRing;
    CoreNamed(m0, s);
    ReleasedShape(s, i);
    var p := UsedPosition(m0, s, i);
    ReleasedFollows(s, i);
    OneTiles(b);
    OneOk(m4, s.cookie, b);
    SpliceCore(m0, s, m4, Released(s, i), i, i + 1, [b]);
    LayoutLimit(m0, s);
    SpliceKeepsOthers(m0, s, m4, Released(s, i), i, i + 1, [b], b.addr);
  }

  lemma ReleasedDataRaw(m0: Mem, s: State, i: nat, m2: Mem)
    requires Core(m0, s) && i < |s.blocks| && SameOutside(m0, m2, s.blocks[i].addr, s.blocks[i].Data())
    ensures s.blocks[i].End() <= |m2| && DataBytes(m2, s.blocks[i].(kind := FREE))
  {
    hide Core;
    HeapBlockOk(m0, s, i);
    DataSurvives(m0, m2, s.cookie, s.blocks[i]);
  }

  lemma HeapBlockOk(m: Mem, s: State, i: nat)
    requires Core(m, s) && i < |s.blocks|
    ensures BlockOk(m, s.cookie, s.blocks[i])
  {
  }

  lemma DataSurvives(m: Mem, m': Mem, cookie: nat, b: Block)
    requires BlockOk(m, cookie, b) && SameOutside(m, m', b.addr, b.Data())
    ensures b.End() <= |m'| && DataBytes(m', b)
  {
    forall u | b.Data() <= u < b.End()
      ensures m'[u].Bytes16()
    {
      assert SameBody(m[u], m'[u]);
    }
  }

  lemma OutsideTwice(m0: Mem, m1: Mem, m2: Mem, a: int, e: int, b: int, f: int)
    requires SameOutside(m0, m1, a, e) && SameOutside(m1, m2, b, f) && b <= a <= e <= f
    ensures SameOutside(m0, m2, b, f)
  {
    forall u | 0 <= u < |m0| && !(b <= u < f)
      ensures SameBody(m0[u], m2[u])
    {
      assert SameBody(m0[u], m1[u]) && SameBody(m1[u], m2[u]);
    }
  }

  /** The two stores that give the first block its new size, and the two removals of the second. */
  ghost predicate CanMerge(m: Mem, u: nat, v: int, size: nat) {
    && u + 1 < |m|
    && CanUnlink(Summed(SizeSet(m, u, size), u), v)
    && CanUnlink(Unlinked(Summed(SizeSet(m, u, size), u), v), v + 1)
  }

  function MergedLinks(m: Mem, u: nat, v: int, size: nat): (m': Mem)
    requires CanMerge(m, u, v, size)
    ensures |m'| == |m|
  {
    Unlinked(Unlinked(Summed(SizeSet(m, u, size), u), v), v + 1)
  }

  lemma OrderEntry(m: Mem, s: State, i: nat)
    requires Core(m, s) && i < |s.blocks|
    ensures var z := OrderRing(s.blocks); i + 1 < |z| && z[i + 1] == s.blocks[i].addr + 1
    ensures Distinct(OrderRing(s.blocks))
  {
  }

  lemma SizeStores(m: Mem, u: nat, size: nat, b: Block, cookie: nat)
    requires u + 1 < |m| && b == HeaderRead(m, u).0.(size := size) && cookie == HeaderRead(m, u).1 && b.End() <= |m|
    ensures Summed(SizeSet(m, u, size), u) == HeaderStored(m, cookie, b)
  {
    hide Summed, SizeSet, HeaderStored, HeaderRead;
    FieldStores(m, u, size);
    SummedIsStored(SizeSet(m, u, size), u);
    StoredAbsorbs(m, u, size, cookie, b);
  }

  lemma UnlinkBodies(m: Mem, x: seq<int>, i: int, y: seq<int>, z: seq<int>)
    requires Rings(m, x, y, z) && 0 < i < |x|
    ensures CanUnlink(m, x[i])
    ensures Rings(Unlinked(m, x[i]), Without(x, i), y, z) && SameBodies(m, Unlinked(m, x[i]))
    ensures forall w :: w in Without(x, i) ==> w in x && w != x[i]
  {
    UnlinkOne(m, x, i, y, z);
    WithoutMembers(x, i);
  }

  lemma MergedListed(m0: Mem, s: State, i: nat)
    requires Core(m0, s) && i + 1 < |s.blocks| && s.blocks[i].kind == FREE && s.blocks[i + 1].kind == FREE
    ensures var (u, v, b) := (s.blocks[i].addr, s.blocks[i + 1].addr, MergedBlock(s.blocks, i));
      CanMerge(m0, u, v, b.size)
    ensures var (u, v, b) := (s.blocks[i].addr, s.blocks[i + 1].addr, MergedBlock(s.blocks, i));
      var (x, y, z) := ([FREE_HEAD] + Remove(s.free, v), UsedRing(s), Without(OrderRing(s.blocks), i + 2));
      var m4 := MergedLinks(m0, u, v, b.size);
      && b.End() <= |m0| && Rings(m4, x, y, z) && SameBodies(HeaderStored(m0, s.cookie, b), m4)
      && v !in x && v !in y && v !in z && v + 1 !in x && v + 1 !in y && v + 1 !in z
  {
    hide Core, Rings, SameBodies, Remove, FreeRing, UsedRing, OrderRing, Tiled, Listed, AllOk, Layout, Summed, SizeSet,
      HeaderRead, HeaderStored, CanUnlink, Unlinked, Without;
    CoreNamed(m0, s);
    HeaderTyped(m0, s, i);
    HeaderReads(m0, s, i);
    MergedExtent(s, i);
    var u, v, b := s.blocks[i].addr, s.blocks[i + 1].addr, MergedBlock(s.blocks, i);
    LayoutLimit(m0, s);
    SizeStores(m0, u, b.size, b, s.cookie);
    var m2 := HeaderStored(m0, s.cookie, b);
    HeaderStoredRings(m0, m2, s.cookie, b, FreeRing(s), UsedRing(s), OrderRing(s.blocks));
    var p := FreePosition(m0, s, i + 1);
    UnlinkBodies(m2, FreeRing(s), p, UsedRing(s), OrderRing(s.blocks));
    var m3 := Unlinked(m2, v);
    var x := [FREE_HEAD] + Remove(s.free, v);
    RingsRolled(m3, x, UsedRing(s), OrderRing(s.blocks));
    OrderEntry(m0, s, i + 1);
    UnlinkBodies(m3, OrderRing(s.blocks), i + 2, x, UsedRing(s));
    var m4 := Unlinked(m3, v + 1);
    RingsRolled(m4, Without(OrderRing(s.blocks), i + 2), x, UsedRing(s));
    RingsRolled(m4, x, UsedRing(s), Without(OrderRing(s.blocks), i + 2));
    RingsRolled(m4, UsedRing(s), Without(OrderRing(s.blocks), i + 2), x);
    SameBodiesTwice(m2, m3, m4);
    NotInOthers(m2, FreeRing(s), p, UsedRing(s), OrderRing(s.blocks));
    NotInOthers(m3, OrderRing(s.blocks), i + 2, x, UsedRing(s));
  }

  lemma NotInOthers(m: Mem, x: seq<int>, i: nat, y: seq<int>, z: seq<int>)
    requires Rings(m, x, y, z) && i < |x|
    ensures x[i] !in y && x[i] !in z
  {
    assert x[i] in x;
  }

  lemma RingsRolled(m: Mem, x: seq<int>, y: seq<int>, z: seq<int>)
    requires Rings(m, x, y, z)
    ensures Rings(m, z, x, y) && Rings(m, y, z, x)
  {
  }

  lemma MergedExtent(s: State, i: nat)
    requires Tiled(s.blocks, s.base, s.limit) && i + 1 < |s.blocks|
    ensures s.blocks[i + 1].addr == s.blocks[i].End()
    ensures MergedBlock(s.blocks, i).End() == s.blocks[i + 1].End() <= s.limit
  {
    assert Abuts(s.blocks, i);
    TiledApart(s.blocks, s.base, s.limit);
  }

  /** The second header erased: one good free block. */
  lemma MergedFilled(m0: Mem, cookie: nat, b: Block, m4: Mem, m5: Mem, v: int, x: seq<int>, y: seq<int>, z: seq<int>)
    requires b.End() <= |m0| && b.kind == FREE && b.pad < 256 && b.Data() <= v <= v + HEADER <= b.End()
    requires FreedAt(m0, b.Data(), v) && FreedAt(m0, v + HEADER, b.End())
    requires SameBodies(HeaderStored(m0, cookie, b), m4) && FreedWritten(m4, m5, v, v + HEADER)
    requires Rings(m4, x, y, z)
    requires v !in x && v !in y && v !in z && v + 1 !in x && v + 1 !in y && v + 1 !in z
    ensures Rings(m5, x, y, z) && BlockOk(m5, cookie, b) && SameOutside(m0, m5, b.addr, b.End())
  {
    hide Ring;
    RingAway(m4, m5, v, x);
    RingAway(m4, m5, v, y);
    RingAway(m4, m5, v, z);
    var m2 := HeaderStored(m0, cookie, b);
    assert SameBody(m2[b.addr], m4[b.addr]) && SameBody(m2[b.addr + 1], m4[b.addr + 1]);
    forall w | b.Data() <= w < b.End()
      ensures m5[w] == Fill(FREED_PADDING)
    {
      assert SameBody(m2[w], m4[w]);
    }
    forall w | 0 <= w < |m0| && !(b.addr <= w < b.End())
      ensures SameBody(m0[w], m5[w])
    {
      assert SameBody(m2[w], m4[w]);
    }
  }

  lemma RingAway(m: Mem, m': Mem, v: int, r: seq<int>)
    requires Ring(m, r) && FreedWritten(m, m', v, v + HEADER) && v !in r && v + 1 !in r
    ensures Ring(m', r)
  {
    MembersInRange(m, r);
    RingFrame(m, m', r);
  }

  lemma MergedShape(s: State, i: nat)
    requires i + 1 < |s.blocks|
    ensures var b := MergedBlock(s.blocks, i); var s' := Merged(s, i);
      && s' == s.(blocks := Splice(s.blocks, i, i + 2, [b]), free := s'.free)
      && FreeRing(s') == [FREE_HEAD] + Remove(s.free, s.blocks[i + 1].addr)
      && UsedRing(s') == UsedRing(s)
      && OrderRing(s'.blocks) == Without(OrderRing(s.blocks), i + 2)
  {
    OrderRingMerged(s.blocks, i, MergedBlock(s.blocks, i));
  }

  lemma MergedFollows(s: State, i: nat)
    requires Tiled(s.blocks, s.base, s.limit) && Listed(s) && i + 1 < |s.blocks|
    requires s.blocks[i].kind == FREE && s.blocks[i + 1].kind == FREE
    requires forall u :: u in Remove(s.free, s.blocks[i + 1].addr) <==> u in s.free && u != s.blocks[i + 1].addr
    ensures ListsFollow(s, Merged(s, i), i, i + 2, [MergedBlock(s.blocks, i)])
  {
    hide Remove;
    MergedExtent(s, i);
    var s' := Merged(s, i);
    var b := MergedBlock(s.blocks, i);
    forall a | b.addr <= a < b.End() && (a in s'.free || a in s'.used)
      ensures a == b.addr
    {
      if a < s.blocks[i + 1].addr {
        OnlyOwnAddress(s.blocks, s.base, s.limit, i, a);
      } else {
        OnlyOwnAddress(s.blocks, s.base, s.limit, i + 1, a);
      }
    }
    assert [b][0].addr == b.addr;
    assert b.addr != s.blocks[i + 1].addr;
  }

  lemma MergedCore(m0: Mem, s: State, i: nat, b: Block, m5: Mem)
    requires Core(m0, s) && i + 1 < |s.blocks| && s.blocks[i].kind == FREE && s.blocks[i + 1].kind == FREE
    requires b == MergedBlock(s.blocks, i)
    requires Rings(m5, [FREE_HEAD] + Remove(s.free, s.blocks[i + 1].addr), UsedRing(s), Without(OrderRing(s.blocks), i + 2))
    requires BlockOk(m5, s.cookie, b) && SameOutside(m0, m5, b.addr, b.End())
    ensures Core(m5, Merged(s, i)) && OthersKept(m0, s, m5, Merged(s, i), -1)
  {
    hide Core, Rings, AllOk, Listed, Layout, Tiled, BlockOk, SameOutside, ListsFollow, OthersKept, Remove, Merged,
      OrderRing, Splice, FreeRing, UsedRing;
    CoreNamed(m0, s);
    MergedShape(s, i);
    MergedExtent(s, i);
    var p := FreePosition(m0, s, i + 1);
    MergedFollows(s, i);
    OneTiles(b);
    OneOk(m5, s.cookie, b);
    SpliceCore(m0, s, m5, Merged(s, i), i, i + 2, [b]);
    LayoutLimit(m0, s);
    SpliceKeepsOthers(m0, s, m5, Merged(s, i), i, i + 2, [b], -1);
  }

  // ---------------------------------------------------------------- rebuilding after a free

  /** Neighbours are both free only, if at all, where block i is one of them. */
  ghost predicate AdjacentOnlyAt(bs: seq<Block>, i: int) {
    forall j {:trigger BothFree(bs, j)} :: 0 <= j < |bs| - 1 && j != i - 1 && j != i ==> !BothFree(bs, j)
  }

  function MergedForward(s: State, i: nat): (s': State)
    requires i < |s.blocks|
    ensures i < |s'.blocks| && s' == s.(blocks := s'.blocks, free := s'.free)
  {
    if i + 1 < |s.blocks| && s.blocks[i + 1].kind == FREE then Merged(s, i) else s
  }

  function MergedBackward(s: State, i: nat): (s': State)
    requires i < |s.blocks|
    ensures s' == s.(blocks := s'.blocks, free := s'.free)
  {
    if i > 0 && s.blocks[i - 1].kind == FREE then Merged(s, i - 1) else s
  }

  /** A freed block joined with its free neighbours, at most one on each side. */
  function Rebuilt(s: State, i: nat): (s': State)
    requires i < |s.blocks|
    ensures s' == s.(blocks := s'.blocks, free := s'.free)
  {
    MergedBackward(MergedForward(s, i), i)
  }

  lemma ForwardAdjacency(s: State, i: nat)
    requires i < |s.blocks| && s.blocks[i].kind == FREE && AdjacentOnlyAt(s.blocks, i)
    ensures var r := MergedForward(s, i).blocks;
      && AdjacentOnlyAt(r, i) && r[i].kind == FREE && r[i].addr == s.blocks[i].addr
      && (i + 1 < |r| ==> r[i + 1].kind != FREE)
      && r[..i] == s.blocks[..i]
  {
    var r := MergedForward(s, i).blocks;
    if i + 1 < |s.blocks| && s.blocks[i + 1].kind == FREE {
      assert i + 2 < |s.blocks| ==> !BothFree(s.blocks, i + 1);
      forall j | 0 <= j < |r| - 1 && j != i - 1 && j != i
        ensures !BothFree(r, j)
      {
        assert j < i ==> !BothFree(s.blocks, j);
        assert j > i ==> !BothFree(s.blocks, j + 1);
      }
    }
  }

  lemma BackwardAdjacency(s: State, i: nat)
    requires i < |s.blocks| && s.blocks[i].kind == FREE && AdjacentOnlyAt(s.blocks, i)
    requires i + 1 < |s.blocks| ==> s.blocks[i + 1].kind != FREE
    ensures NoAdjacentFree(MergedBackward(s, i).blocks)
    ensures 1 < i && s.blocks[i - 1].kind == FREE ==> s.blocks[i - 2].kind != FREE
  {
    var r := MergedBackward(s, i).blocks;
    assert 1 < i ==> !BothFree(s.blocks, i - 2);
    forall j | 0 <= j < |r| - 1
      ensures !BothFree(r, j)
    {
      if r == s.blocks {
        assert BothFree(s.blocks, j) ==> j == i - 1 || j == i;
      } else {
        assert j < i - 1 ==> !BothFree(s.blocks, j);
        assert j > i - 1 ==> !BothFree(s.blocks, j + 1);
      }
    }
  }

  /** The BlockType a reader of a MemoryOrderList entry finds; the byte in front of the list head
      is no block type. */
  function KindAt(p: Para): nat {
    if p.Entry? && p.body.Back? then p.body.kind
    else if p.Bytes16() then p.b[0]
    else 0
  }

  /** What the memory-order pointers of block i lead to. */
  lemma OrderNeighbours(m: Mem, s: State, i: nat)
    requires Core(m, s) && i < |s.blocks|
    ensures OrderLed(m, s.blocks, i)
    ensures i + 1 < |s.blocks| ==> s.blocks[i + 1].addr + 1 != ORDER_HEAD
    ensures i > 0 ==> s.blocks[i - 1].addr + 1 != ORDER_HEAD
  {
    hide Rings, Listed, AllOk, Layout, Tiled, Core;
    CoreNamed(m, s);
    OrderLinks(m, s, i);
    AnchorKind(m, s);
    if i + 1 < |s.blocks| {
      KindOfBlock(m, s, i + 1);
    }
    if i > 0 {
      KindOfBlock(m, s, i - 1);
    }
  }

  /** The memory-order pointers of block i lead to its neighbours or the head, and what is read there as the
      block type is the neighbour's, or none. */
  ghost predicate OrderLed(m: Mem, bs: seq<Block>, i: nat) {
    && i < |bs| && bs[i].addr + 1 < |m| && m[bs[i].addr + 1].Entry?
    && var e := m[bs[i].addr + 1];
    && e.flink == (if i + 1 < |bs| then bs[i + 1].addr + 1 else ORDER_HEAD)
    && e.blink == (if i > 0 then bs[i - 1].addr + 1 else ORDER_HEAD)
    && 0 <= e.flink < |m| && 0 <= e.blink < |m|
    && KindAt(m[e.flink]) == (if i + 1 < |bs| then bs[i + 1].kind else 0)
    && KindAt(m[e.blink]) == (if i > 0 then bs[i - 1].kind else 0)
  }

  lemma AnchorKind(m: Mem, s: State)
    requires Layout(m, s)
    ensures ORDER_HEAD < |m| && KindAt(m[ORDER_HEAD]) == 0
  {
  }

  lemma KindOfBlock(m: Mem, s: State, i: nat)
    requires Core(m, s) && i < |s.blocks|
    ensures s.blocks[i].addr + 1 < |m| && KindAt(m[s.blocks[i].addr + 1]) == s.blocks[i].kind
    ensures s.blocks[i].addr > ORDER_HEAD
  {
    hide Core, Rings, Listed, AllOk, Tiled, BlockOk;
    CoreNamed(m, s);
    BlockNamed(m, s, i);
    HeaderNamed(m, s.cookie, s.blocks[i]);
    TiledApart(s.blocks, s.base, s.limit);
  }

  lemma OrderLinks(m: Mem, s: State, i: nat)
    requires Core(m, s) && i < |s.blocks|
    ensures s.blocks[i].addr + 1 < |m| && m[s.blocks[i].addr + 1].Entry?
    ensures var e := m[s.blocks[i].addr + 1];
      && e.flink == (if i + 1 < |s.blocks| then s.blocks[i + 1].addr + 1 else ORDER_HEAD)
      && e.blink == (if i > 0 then s.blocks[i - 1].addr + 1 else ORDER_HEAD)
  {
    hide Core, Rings, OrderRing, Ring;
    CoreNamed(m, s);
    RingEntry(m, FreeRing(s), UsedRing(s), OrderRing(s.blocks), i + 1);
  }

  lemma RingEntry(m: Mem, x: seq<int>, y: seq<int>, z: seq<int>, k: nat)
    requires Rings(m, x, y, z) && k < |z|
    ensures 0 <= z[k] < |m| && m[z[k]].Entry? && m[z[k]].flink == Succ(z, k) && m[z[k]].blink == Pred(z, k)
  {
  }

  // ---------------------------------------------------------------- freeing as a whole

  function Freed(s: State, i: nat): (s': State)
    requires i < |s.blocks|
    ensures s' == s.(blocks := s'.blocks, free := s'.free, used := s'.used)
  {
    Rebuilt(Released(s, i), i)
  }

  lemma ReleasedAdjacency(s: State, i: nat)
    requires NoAdjacentFree(s.blocks) && i < |s.blocks|
    ensures AdjacentOnlyAt(Released(s, i).blocks, i)
    ensures Released(s, i).blocks[i] == s.blocks[i].(kind := FREE)
  {
    var r := Released(s, i).blocks;
    forall j | 0 <= j < |r| - 1 && j != i - 1 && j != i
      ensures !BothFree(r, j)
    {
      assert !BothFree(s.blocks, j);
    }
  }

  /** A header overwritten with freed padding, as a merge leaves it. */
  ghost predicate Erased(m: Mem, u: nat) {
    u + 1 < |m| && m[u] == Fill(FREED_PADDING) && m[u + 1] == Fill(FREED_PADDING)
  }

  /** An erased header never passes the checksum test, wherever it lies. */
  lemma ErasedFails(m: Mem, u: nat)
    requires Erased(m, u)
    ensures ViewFront(m[u]).body.magic1 != HeaderRead(m, u).0.Magic(HeaderRead(m, u).1)
  {
    hide Checksum, ViewFront, ViewBack, HeaderRead, Erased;
    ErasedReads(m, u);
    ErasedChecksum(u);
  }

  lemma ErasedChecksum(u: nat)
    ensures Checksum(u, 0xFDFD_FDFD, 0xFD, 0xFD, 0xFDFD) != 0xFDFD_FDFD
  {
    hide Checksum;
    EvenChecksum(u, 0xFDFD_FDFD, 0xFD, 0xFD, 0xFDFD);
  }

  /** Blocks start at even addresses, so the xor keeps the parity of the sum. */
  lemma EvenChecksum(u: nat, size: nat, kind: nat, pad: nat, cookie: nat)
    requires (pad + kind + size + cookie) % 2 == 0
    ensures Checksum(u, size, kind, pad, cookie) % 2 == 0
  {
    hide Xor;
    var sum := pad + kind + size + cookie;
    EvenRemainder(sum);
    assert sum % TWO32 % 2 == 0;
    XorAddress(sum % TWO32, u);
  }

  lemma EvenRemainder(n: nat)
    requires n % 2 == 0
    ensures n % TWO32 % 2 == 0
  {
  }

  lemma XorAddress(n: nat, u: nat)
    ensures Xor(n, PARAGRAPH * u) % 2 == n % 2
  {
    hide Xor;
    assert PARAGRAPH * u == 2 * (8 * u);
    XorParity(n, PARAGRAPH * u);
  }

  /** What an erased header reads as. */
  lemma ErasedReads(m: Mem, u: nat)
    requires Erased(m, u)
    ensures ViewFront(m[u]).body.magic1 == 0xFDFD_FDFD
    ensures HeaderRead(m, u) == (Block(u, 0xFDFD_FDFD, 0xFD, 0xFD), 0xFDFD) && ViewBack(m[u + 1]).body.kind == 0xFD
  {
    var b := Fill(FREED_PADDING).b;
    assert b[0] == b[1] == b[2] == b[3] == 0xFD && b[12] == b[13] == b[14] == b[15] == 0xFD;
  }
}
