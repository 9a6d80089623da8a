/** Every heap operation replaces a run of neighbouring blocks by blocks that fill the same space;
    what such a replacement must establish for the heap to stay consistent. */
module HeapSplice {
  import opened Common
  import opened HeapMemory
  import opened HeapState

  function Splice(bs: seq<Block>, lo: nat, hi: nat, nb: seq<Block>): (r: seq<Block>)
    requires lo <= hi <= |bs|
    ensures |r| == lo + |nb| + (|bs| - hi)
    ensures forall i {:trigger r[i]} :: 0 <= i < |r| ==>
      r[i] == if i < lo then bs[i] else if i < lo + |nb| then nb[i - lo] else bs[i - lo - |nb| + hi]
  {
    bs[..lo] + nb + bs[hi..]
  }

  lemma SpliceTiled(bs: seq<Block>, base: nat, limit: nat, lo: nat, hi: nat, nb: seq<Block>)
    requires Tiled(bs, base, limit) && lo < hi <= |bs|
    requires Tiled(nb, bs[lo].addr, bs[hi - 1].End())
    ensures Tiled(Splice(bs, lo, hi, nb), base, limit)
  {
    var r := Splice(bs, lo, hi, nb);
    forall i | 0 <= i < |r| - 1
      ensures Abuts(r, i)
    {
      if i < lo {
        assert Abuts(bs, i);
      } else if i < lo + |nb| - 1 {
        assert Abuts(nb, i - lo);
      } else {
        assert Abuts(bs, i - lo - |nb| + hi);
      }
      if i + 1 == lo {
        assert Abuts(bs, lo - 1);
      }
    }
  }

  /** The lists changed only for blocks inside the replaced run, and fit the new blocks. */
  ghost predicate ListsFollow(s: State, s': State, lo: nat, hi: nat, nb: seq<Block>)
    requires lo < hi <= |s.blocks|
  {
    var A, E := s.blocks[lo].addr, s.blocks[hi - 1].End();
    && (forall a :: !(A <= a < E) ==> (a in s'.free <==> a in s.free) && (a in s'.used <==> a in s.used))
    && (forall a :: A <= a < E && (a in s'.free || a in s'.used) ==> IsBlock(nb, a))
    && (forall j :: 0 <= j < |nb| ==>
      (nb[j].addr in s'.free <==> nb[j].kind == FREE) && (nb[j].addr in s'.used <==> nb[j].kind != FREE))
  }

  lemma SpliceListedAt(s: State, s': State, lo: nat, hi: nat, nb: seq<Block>, i: nat)
    requires Tiled(s.blocks, s.base, s.limit) && Listed(s) && lo < hi <= |s.blocks|
    requires s'.blocks == Splice(s.blocks, lo, hi, nb) && i < |s'.blocks|
    requires ListsFollow(s, s', lo, hi, nb)
    ensures s'.blocks[i].addr in s'.free <==> s'.blocks[i].kind == FREE
    ensures s'.blocks[i].addr in s'.used <==> s'.blocks[i].kind != FREE
  {
    hide Tiled;
    TiledApart(s.blocks, s.base, s.limit);
    if i < lo {
      assert s'.blocks[i] == s.blocks[i] && s.blocks[i].End() <= s.blocks[lo].addr;
    } else if i < lo + |nb| {
      assert s'.blocks[i] == nb[i - lo];
    } else {
      var k := i - lo - |nb| + hi;
      assert s'.blocks[i] == s.blocks[k] && s.blocks[hi - 1].End() <= s.blocks[k].addr;
    }
  }

  lemma SpliceListed(s: State, s': State, lo: nat, hi: nat, nb: seq<Block>)
    requires Tiled(s.blocks, s.base, s.limit) && Listed(s) && lo < hi <= |s.blocks|
    requires s'.blocks == Splice(s.blocks, lo, hi, nb)
    requires ListsFollow(s, s', lo, hi, nb)
    ensures Listed(s')
  {
    hide ListsFollow, Tiled, Splice;
    forall i | 0 <= i < |s'.blocks|
      ensures s'.blocks[i].addr in s'.free <==> s'.blocks[i].kind == FREE
      ensures s'.blocks[i].addr in s'.used <==> s'.blocks[i].kind != FREE
    {
      SpliceListedAt(s, s', lo, hi, nb, i);
    }
    forall a | a in s'.free || a in s'.used
      ensures IsBlock(s'.blocks, a)
    {
      SpliceIsBlock(s, s', lo, hi, nb, a);
    }
  }

  lemma RunAddresses(bs: seq<Block>, base: nat, limit: nat, lo: nat, hi: nat, i: nat)
    requires Tiled(bs, base, limit) && lo <= i < hi <= |bs|
    ensures bs[lo].addr <= bs[i].addr < bs[hi - 1].End()
  {
    if i != lo {
      TiledOrder(bs, base, limit, lo, i);
    }
    if i != hi - 1 {
      TiledOrder(bs, base, limit, i, hi - 1);
    }
  }

  lemma SpliceIsBlock(s: State, s': State, lo: nat, hi: nat, nb: seq<Block>, a: int)
    requires Tiled(s.blocks, s.base, s.limit) && Listed(s) && lo < hi <= |s.blocks|
    requires s'.blocks == Splice(s.blocks, lo, hi, nb)
    requires ListsFollow(s, s', lo, hi, nb)
    requires a in s'.free || a in s'.used
    ensures IsBlock(s'.blocks, a)
  {
    var A, E := s.blocks[lo].addr, s.blocks[hi - 1].End();
    if A <= a < E {
      var j :| 0 <= j < |nb| && nb[j].addr == a;
      assert s'.blocks[lo + j].addr == a;
    } else {
      var i :| 0 <= i < |s.blocks| && s.blocks[i].addr == a;
      if lo <= i < hi {
        RunAddresses(s.blocks, s.base, s.limit, lo, hi, i);
      }
      assert s'.blocks[if i < lo then i else i - hi + lo + |nb|].addr == a;
    }
  }

  /** Outside the paragraphs [a, e) two memories differ at most in list pointers. */
  ghost predicate SameOutside(m: Mem, m': Mem, a: int, e: int) {
    && |m'| == |m|
    && (forall u {:trigger m'[u]} :: 0 <= u < |m| && !(a <= u < e) ==> SameBody(m[u], m'[u]))
  }

  lemma SpliceAll(bs: seq<Block>, lo: nat, hi: nat, nb: seq<Block>, q: Block -> bool)
    requires lo <= hi <= |bs|
    requires forall i :: 0 <= i < |bs| && !(lo <= i < hi) ==> q(bs[i])
    requires forall j :: 0 <= j < |nb| ==> q(nb[j])
    ensures var r := Splice(bs, lo, hi, nb); forall i :: 0 <= i < |r| ==> q(r[i])
  {
  }

  lemma SameBlockOutside(m: Mem, m': Mem, bs: seq<Block>, base: nat, limit: nat, lo: nat, hi: nat, i: nat)
    requires Tiled(bs, base, limit) && lo < hi <= |bs| && i < |bs| && !(lo <= i < hi)
    requires limit == |m| && SameOutside(m, m', bs[lo].addr, bs[hi - 1].End())
    ensures SameBlock(m, m', bs[i])
  {
    TiledApart(bs, base, limit);
    assert bs[i].End() <= limit;
    if i < lo {
      assert bs[i].End() <= bs[lo].addr;
    } else {
      assert bs[hi - 1].End() <= bs[i].addr;
    }
  }

  lemma SpliceBlocks(m: Mem, m': Mem, s: State, lo: nat, hi: nat, nb: seq<Block>)
    requires Tiled(s.blocks, s.base, s.limit) && s.limit == |m| && lo < hi <= |s.blocks|
    requires AllOk(m, s.cookie, s.blocks)
    requires SameOutside(m, m', s.blocks[lo].addr, s.blocks[hi - 1].End())
    requires AllOk(m', s.cookie, nb)
    ensures AllOk(m', s.cookie, Splice(s.blocks, lo, hi, nb))
  {
    ghost var q := (b: Block) => BlockOk(m', s.cookie, b);
    forall i | 0 <= i < |s.blocks| && !(lo <= i < hi)
      ensures q(s.blocks[i])
    {
      SameBlockOutside(m, m', s.blocks, s.base, s.limit, lo, hi, i);
      BlockFrame(m, m', s.cookie, s.blocks[i]);
    }
    SpliceAll(s.blocks, lo, hi, nb, q);
    var r := Splice(s.blocks, lo, hi, nb);
    forall i | 0 <= i < |r|
      ensures BlockOk(m', s.cookie, r[i])
    {
      assert q(r[i]);
    }
  }

  /** The heap stays consistent when a run of blocks is replaced by blocks that fill the same
      space and are themselves in order, and the lists follow. */
  lemma SpliceCore(m: Mem, s: State, m': Mem, s': State, lo: nat, hi: nat, nb: seq<Block>)
    requires Core(m, s) && lo < hi <= |s.blocks|
    requires Tiled(nb, s.blocks[lo].addr, s.blocks[hi - 1].End())
    requires s' == s.(blocks := Splice(s.blocks, lo, hi, nb), free := s'.free, used := s'.used)
    requires SameOutside(m, m', s.blocks[lo].addr, s.blocks[hi - 1].End())
    requires AllOk(m', s.cookie, nb)
    requires ListsFollow(s, s', lo, hi, nb)
    requires Rings(m', FreeRing(s'), UsedRing(s'), OrderRing(s'.blocks))
    ensures Core(m', s')
  {
    SpliceTiled(s.blocks, s.base, s.limit, lo, hi, nb);
    SpliceBlocks(m, m', s, lo, hi, nb);
    SpliceListed(s, s', lo, hi, nb);
    SpliceLayout(m, m', s, s', lo, hi);
  }

  lemma SpliceLayout(m: Mem, m': Mem, s: State, s': State, lo: nat, hi: nat)
    requires Layout(m, s) && Tiled(s.blocks, s.base, s.limit) && lo < hi <= |s.blocks|
    requires SameOutside(m, m', s.blocks[lo].addr, s.blocks[hi - 1].End())
    requires s'.base == s.base && s'.limit == s.limit
    ensures Layout(m', s')
  {
    TiledApart(s.blocks, s.base, s.limit);
    forall h | 0 <= h <= ORDER_HEAD
      ensures m'[h].Entry? && m'[h].body == Anchor
    {
      assert s.base <= s.blocks[lo].addr;
      assert SameBody(m[h], m'[h]);
    }
  }

  // ---------------------------------------------------------------- what callers own

  ghost predicate SameData(m: Mem, m': Mem, b: Block) {
    b.End() <= |m| == |m'| && forall u :: b.Data() <= u < b.End() ==> m'[u] == m[u]
  }

  /** Every block in use, save the one at address a, is still there with the same size, type and
      bytes. */
  ghost predicate OthersKept(m: Mem, s: State, m': Mem, s': State, a: int) {
    forall i :: 0 <= i < |s.blocks| && s.blocks[i].Live() && s.blocks[i].addr != a ==>
      s.blocks[i] in s'.blocks && SameData(m, m', s.blocks[i])
  }

  lemma SameDataOf(m: Mem, m': Mem, cookie: nat, b: Block)
    requires BlockOk(m, cookie, b) && SameBlock(m, m', b)
    ensures SameData(m, m', b)
  {
    forall u | b.Data() <= u < b.End()
      ensures m'[u] == m[u]
    {
      assert SameBody(m[u], m'[u]);
    }
  }

  lemma SpliceKeepsOthers(m: Mem, s: State, m': Mem, s': State, lo: nat, hi: nat, nb: seq<Block>, a: int)
    requires Tiled(s.blocks, s.base, s.limit) && s.limit == |m| && AllOk(m, s.cookie, s.blocks) && lo < hi <= |s.blocks|
    requires s'.blocks == Splice(s.blocks, lo, hi, nb)
    requires SameOutside(m, m', s.blocks[lo].addr, s.blocks[hi - 1].End())
    requires forall i :: lo <= i < hi && s.blocks[i].Live() ==> s.blocks[i].addr == a
    ensures OthersKept(m, s, m', s', a)
  {
    forall i | 0 <= i < |s.blocks| && s.blocks[i].Live() && s.blocks[i].addr != a
      ensures s.blocks[i] in s'.blocks && SameData(m, m', s.blocks[i])
    {
      assert s'.blocks[if i < lo then i else i - hi + lo + |nb|] == s.blocks[i];
      SameBlockOutside(m, m', s.blocks, s.base, s.limit, lo, hi, i);
      SameDataOf(m, m', s.cookie, s.blocks[i]);
    }
  }

  lemma OthersKeptThen(m: Mem, s: State, m1: Mem, s1: State, m2: Mem, s2: State, a: int)
    requires OthersKept(m, s, m1, s1, a) && OthersKept(m1, s1, m2, s2, -1)
    ensures OthersKept(m, s, m2, s2, a)
  {
    forall i | 0 <= i < |s.blocks| && s.blocks[i].Live() && s.blocks[i].addr != a
      ensures s.blocks[i] in s2.blocks && SameData(m, m2, s.blocks[i])
    {
      assert s.blocks[i] in s1.blocks;
      var k :| 0 <= k < |s1.blocks| && s1.blocks[k] == s.blocks[i];
      assert s1.blocks[k] in s2.blocks && SameData(m1, m2, s1.blocks[k]);
    }
  }

  lemma NothingMoved(m: Mem, s: State)
    requires Core(m, s)
    ensures OthersKept(m, s, m, s, -1)
  {
    forall i | 0 <= i < |s.blocks|
      ensures SameData(m, m, s.blocks[i])
    {
      assert BlockOk(m, s.cookie, s.blocks[i]);
    }
  }

  lemma OthersKeptTwice(m: Mem, s: State, m1: Mem, s1: State, m2: Mem, s2: State, a: int)
    requires OthersKept(m, s, m1, s1, -1) && OthersKept(m1, s1, m2, s2, a)
    ensures OthersKept(m, s, m2, s2, a)
  {
    forall i | 0 <= i < |s.blocks| && s.blocks[i].Live() && s.blocks[i].addr != a
      ensures s.blocks[i] in s2.blocks && SameData(m, m2, s.blocks[i])
    {
      assert s.blocks[i] in s1.blocks;
      var k :| 0 <= k < |s1.blocks| && s1.blocks[k] == s.blocks[i];
      assert s1.blocks[k] in s2.blocks && SameData(m1, m2, s1.blocks[k]);
    }
  }

  /** The first t bytes of two paragraphs are the same. */
  ghost predicate SamePrefix(p: Para, q: Para, t: int) {
    p.Bytes16() && q.Bytes16() && forall k :: 0 <= k < PARAGRAPH && k < t ==> q.b[k] == p.b[k]
  }

  /** The first n data bytes of b in m and of b' in m' are the same. */
  ghost predicate BytesKept(m: Mem, b: Block, m': Mem, b': Block, n: int) {
    && b.End() <= |m| && b'.End() <= |m'|
    && n <= PARAGRAPH * b.size && n <= PARAGRAPH * b'.size
    && (forall j {:trigger ParagraphKept(m, b, m', b', j, n)} :: 0 <= j < b.size && j < b'.size ==>
      ParagraphKept(m, b, m', b', j, n))
  }

  ghost predicate ParagraphKept(m: Mem, b: Block, m': Mem, b': Block, j: int, n: int)
    requires 0 <= j < b.size && j < b'.size && b.End() <= |m| && b'.End() <= |m'|
  {
    SamePrefix(m[b.Data() + j], m'[b'.Data() + j], n - PARAGRAPH * j)
  }

  // ---------------------------------------------------------------- memory order of the new blocks

  lemma OrderRingKept(bs: seq<Block>, i: nat, b: Block)
    requires i < |bs| && b.addr == bs[i].addr
    ensures OrderRing(Splice(bs, i, i + 1, [b])) == OrderRing(bs)
  {
  }

  lemma OrderRingSplit(bs: seq<Block>, i: nat, b: Block, c: Block)
    requires i < |bs| && b.addr == bs[i].addr
    ensures OrderRing(Splice(bs, i, i + 1, [b, c])) == WithAfter(OrderRing(bs), i + 1, c.addr + 1)
  {
    hide OrderRing;
    var t := Splice(bs, i, i + 1, [b, c]);
    var x, y := OrderRing(t), WithAfter(OrderRing(bs), i + 1, c.addr + 1);
    forall j | 0 <= j < |y|
      ensures x[j] == y[j]
    {
      assert j > 0 ==> x[j] == t[j - 1].addr + 1;
      assert 0 < j <= i + 1 ==> y[j] == bs[j - 1].addr + 1;
      assert j > i + 2 ==> y[j] == bs[j - 2].addr + 1;
    }
  }

  lemma OrderRingMerged(bs: seq<Block>, i: nat, b: Block)
    requires i + 1 < |bs| && b.addr == bs[i].addr
    ensures OrderRing(Splice(bs, i, i + 2, [b])) == Without(OrderRing(bs), i + 2)
  {
    hide OrderRing, Splice;
    var r, w := OrderRing(Splice(bs, i, i + 2, [b])), Without(OrderRing(bs), i + 2);
    forall k | 0 <= k < |r|
      ensures r[k] == w[k]
    {
      assert k > 0 ==> r[k] == Splice(bs, i, i + 2, [b])[k - 1].addr + 1;
    }
  }

  lemma OrderRingShifted(bs: seq<Block>, i: nat, b: Block, c: Block)
    requires i + 1 < |bs| && b.addr == bs[i].addr
    ensures OrderRing(Splice(bs, i, i + 2, [b, c])) == OrderRing(bs)[i + 2 := c.addr + 1]
  {
    hide OrderRing;
    var x, y := OrderRing(Splice(bs, i, i + 2, [b, c])), OrderRing(bs)[i + 2 := c.addr + 1];
    forall j | 0 <= j < |y|
      ensures x[j] == y[j]
    {
      assert j > 0 ==> x[j] == Splice(bs, i, i + 2, [b, c])[j - 1].addr + 1;
      assert j > 0 && j != i + 2 ==> y[j] == bs[j - 1].addr + 1;
    }
  }
}
