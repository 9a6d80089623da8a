/** Changing a block in place: its label, its padding, the border to its free neighbour, a cut; and
    writes by the block's owner. */
module HeapResize {
  import opened Common
  import opened HeapMemory
  import opened HeapState
  import opened HeapSplice
  import opened HeapSteps

  // ---------------------------------------------------------------- labels

  function Relabeled(s: State, i: nat, kind: nat, pad: nat): (s': State)
    requires i < |s.blocks|
    ensures s' == s.(blocks := s'.blocks) && |s'.blocks| == |s.blocks|
  {
    s.(blocks := Splice(s.blocks, i, i + 1, [s.blocks[i].(kind := kind, pad := pad)]))
  }

  lemma RelabeledCore(m0: Mem, s: State, i: nat, b: Block, m2: Mem)
    requires Core(m0, s) && i < |s.blocks| && s.blocks[i].kind != FREE && b.kind != FREE
    requires b == s.blocks[i].(kind := b.kind, pad := b.pad)
    requires Rings(m2, FreeRing(s), UsedRing(s), OrderRing(s.blocks))
    requires BlockOk(m2, s.cookie, b) && SameOutside(m0, m2, b.addr, b.End())
    ensures Core(m2, Relabeled(s, i, b.kind, b.pad)) && OthersKept(m0, s, m2, Relabeled(s, i, b.kind, b.pad), b.addr)
  {
    hide Core, Rings, AllOk, Listed, Layout, Tiled, BlockOk, SameOutside, ListsFollow, OthersKept, OrderRing, Splice;
    CoreNamed(m0, s);
    OrderRingKept(s.blocks, i, b);
    var s' := Relabeled(s, i, b.kind, b.pad);
    RelabeledFollows(s, i, b);
    OneTiles(b);
    OneOk(m2, s.cookie, b);
    SpliceCore(m0, s, m2, s', i, i + 1, [b]);
    LayoutLimit(m0, s);
    SpliceKeepsOthers(m0, s, m2, s', i, i + 1, [b], b.addr);
  }

  lemma RelabeledFollows(s: State, i: nat, b: Block)
    requires Tiled(s.blocks, s.base, s.limit) && Listed(s) && i < |s.blocks|
    requires s.blocks[i].kind != FREE && b.kind != FREE && b == s.blocks[i].(kind := b.kind, pad := b.pad)
    ensures ListsFollow(s, Relabeled(s, i, b.kind, b.pad), i, i + 1, [b])
  {
    forall a | b.addr <= a < b.End() && (a in s.free || a in s.used)
      ensures a == b.addr
    {
      OnlyOwnAddress(s.blocks, s.base, s.limit, i, a);
    }
    assert [b][0].addr == b.addr;
  }

  lemma RelabeledNoAdjacent(s: State, i: nat, kind: nat, pad: nat)
    requires NoAdjacentFree(s.blocks) && i < |s.blocks| && kind != FREE
    ensures NoAdjacentFree(Relabeled(s, i, kind, pad).blocks)
  {
    var r := Relabeled(s, i, kind, pad).blocks;
    forall j | 0 <= j < |r| - 1
      ensures !BothFree(r, j)
    {
      assert !BothFree(s.blocks, j);
    }
  }

  /** A used block's header stored with another used type. */
  lemma RetypedOk(m0: Mem, s: State, i: nat, b: Block, m1: Mem)
    requires Core(m0, s) && i < |s.blocks| && s.blocks[i].Live() && b.Live() && b == s.blocks[i].(kind := b.kind)
    requires b.End() <= |m0| && m1 == HeaderStored(m0, s.cookie, b)
    ensures Rings(m1, FreeRing(s), UsedRing(s), OrderRing(s.blocks))
    ensures BlockOk(m1, s.cookie, b) && SameOutside(m0, m1, b.addr, b.End())
    ensures SameData(m0, m1, b)
  {
    hide Core, Rings;
    CoreNamedRings(m0, s);
    HeapBlockOk(m0, s, i);
    HeaderStoredRings(m0, m1, s.cookie, b, FreeRing(s), UsedRing(s), OrderRing(s.blocks));
  }

  lemma CoreNamedRings(m: Mem, s: State)
    requires Core(m, s)
    ensures Rings(m, FreeRing(s), UsedRing(s), OrderRing(s.blocks))
  {
  }

  lemma KindStores(m: Mem, u: nat, kind: nat, b: Block, cookie: nat)
    requires u + 1 < |m| && b == HeaderRead(m, u).0.(kind := kind) && cookie == HeaderRead(m, u).1 && b.End() <= |m|
    ensures Summed(KindSet(m, u, kind), u) == HeaderStored(m, cookie, b)
  {
    hide Summed, KindSet, HeaderStored, HeaderRead;
    FieldStores(m, u, kind);
    SummedIsStored(KindSet(m, u, kind), u);
    StoredAbsorbs(m, u, kind, cookie, b);
  }

  lemma PadStores(m: Mem, u: nat, pad: nat, b: Block, cookie: nat)
    requires u + 1 < |m| && b == HeaderRead(m, u).0.(pad := pad) && cookie == HeaderRead(m, u).1 && b.End() <= |m|
    ensures Summed(PadSet(m, u, pad), u) == HeaderStored(m, cookie, b)
  {
    hide Summed, PadSet, HeaderStored, HeaderRead;
    FieldStores(m, u, pad);
    SummedIsStored(PadSet(m, u, pad), u);
    StoredAbsorbs(m, u, pad, cookie, b);
  }

  /** The bytes in front of the padding are those the block held before. */
  lemma PaddedKeeps(m0: Mem, s: State, i: nat, b: Block, m1: Mem, m2: Mem)
    requires Core(m0, s) && i < |s.blocks| && b.addr == s.blocks[i].addr && b.size <= s.blocks[i].size
    requires b.End() <= |m0| && m1 == HeaderStored(m0, s.cookie, b) && PaddingWritten(m1, m2, b)
    ensures BytesKept(m0, s.blocks[i], m2, b, b.UserSize())
  {
    hide Core, BlockOk;
    HeapBlockOk(m0, s, i);
    var o := s.blocks[i];
    BlockExtent(m0, s.cookie, o);
    forall j | 0 <= j < o.size && j < b.size
      ensures ParagraphKept(m0, o, m2, b, j, b.UserSize())
    {
      PaddedParagraph(m0, s.cookie, o, b, m1, m2, j);
    }
  }

  lemma BlockExtent(m: Mem, cookie: nat, b: Block)
    requires BlockOk(m, cookie, b)
    ensures b.End() <= |m| && DataBytes(m, b)
  {
  }

  lemma PaddedParagraph(m0: Mem, cookie: nat, o: Block, b: Block, m1: Mem, m2: Mem, j: int)
    requires o.End() <= |m0| && DataBytes(m0, o) && b.addr == o.addr && b.size <= o.size && 0 <= j < b.size
    requires m1 == HeaderStored(m0, cookie, b) && PaddingWritten(m1, m2, b)
    ensures ParagraphKept(m0, o, m2, b, j, b.UserSize())
  {
    var u := b.Data() + j;
    assert m1[u] == m0[u] && m0[u].Bytes16() && m2[u].Bytes16();
    forall k | 0 <= k < PARAGRAPH && k < b.UserSize() - PARAGRAPH * j
      ensures m2[u].b[k] == m0[u].b[k]
    {
      assert m2[u].b[k] == m1[u].b[k];
    }
  }

  lemma BytesKeptLess(m: Mem, b: Block, m': Mem, b': Block, n: int, k: int)
    requires BytesKept(m, b, m', b', n) && k <= n
    ensures BytesKept(m, b, m', b', k)
  {
    forall j | 0 <= j < b.size && j < b'.size
      ensures ParagraphKept(m, b, m', b', j, k)
    {
      assert ParagraphKept(m, b, m', b', j, n);
    }
  }

  // ---------------------------------------------------------------- writes by the owner

  /** Only bytes the owner of b may write have changed. */
  ghost predicate OwnerWrote(m: Mem, m': Mem, b: Block) {
    && b.End() <= |m| == |m'|
    && (forall u {:trigger m'[u]} :: 0 <= u < |m| && !(b.Data() <= u < b.End()) ==> m'[u] == m[u])
    && (forall u :: b.Data() <= u < b.End() ==> m[u].Bytes16() && m'[u].Bytes16())
    && (forall u, k {:trigger m'[u].b[k]} ::
      b.Data() <= u < b.End() && 0 <= k < PARAGRAPH && b.UserSize() <= PARAGRAPH * (u - b.Data()) + k
      ==> m'[u].b[k] == m[u].b[k])
  }

  lemma OwnerWriteOk(m: Mem, m': Mem, cookie: nat, b: Block)
    requires BlockOk(m, cookie, b) && b.Live() && OwnerWrote(m, m', b)
    ensures BlockOk(m', cookie, b) && SameOutside(m, m', b.addr, b.End())
  {
    forall u, k | b.Data() <= u < b.End() && 0 <= k < PARAGRAPH && b.UserSize() <= PARAGRAPH * (u - b.Data()) + k
      ensures m'[u].b[k] == ALLOCATED_PADDING
    {
      assert m[u].b[k] == ALLOCATED_PADDING;
    }
  }

  lemma RelabeledSame(s: State, i: nat)
    requires i < |s.blocks|
    ensures Relabeled(s, i, s.blocks[i].kind, s.blocks[i].pad) == s
  {
    assert Splice(s.blocks, i, i + 1, [s.blocks[i]]) == s.blocks;
  }

  /** Whatever the owner of a block writes into its own bytes, the heap stays consistent and no
      other block changes. */
  lemma OwnerMayWrite(m: Mem, s: State, i: nat, m': Mem)
    requires Core(m, s) && i < |s.blocks| && s.blocks[i].Live() && OwnerWrote(m, m', s.blocks[i])
    ensures Core(m', s) && OthersKept(m, s, m', s, s.blocks[i].addr)
  {
    hide Core, Rings, BlockOk, SameOutside, OwnerWrote, OthersKept, Relabeled;
    var b := s.blocks[i];
    CoreNamedRings(m, s);
    HeapBlockOk(m, s, i);
    OwnerWriteOk(m, m', s.cookie, b);
    OwnerWriteRings(m, m', b, FreeRing(s), UsedRing(s), OrderRing(s.blocks));
    RelabeledCore(m, s, i, b, m');
    RelabeledSame(s, i);
  }

  lemma OwnerWriteRings(m: Mem, m': Mem, b: Block, x: seq<int>, y: seq<int>, z: seq<int>)
    requires OwnerWrote(m, m', b) && Rings(m, x, y, z)
    ensures Rings(m', x, y, z)
  {
    hide Rings;
    DataWrittenRings(m, m', b.Data(), b.End(), x, y, z);
  }

  // ---------------------------------------------------------------- moving a border

  /** The border between used block i and free block i + 1 moved so that block i has k paragraphs. */
  function Shifted(s: State, i: nat, k: nat, pad: nat): (s': State)
    requires i + 1 < |s.blocks| && k < s.blocks[i].size + s.blocks[i + 1].size
    ensures s' == s.(blocks := s'.blocks, free := s'.free) && |s'.blocks| == |s.blocks|
  {
    var b, c := s.blocks[i], s.blocks[i + 1];
    var q := b.addr + HEADER + k;
    s.(blocks := Splice(s.blocks, i, i + 2, [b.(size := k, pad := pad), MovedFree(s.blocks, i, k)]),
       free := Replaced(s.free, c.addr, q))
  }

  function MovedFree(bs: seq<Block>, i: nat, k: nat): Block
    requires i + 1 < |bs| && k < bs[i].size + bs[i + 1].size
  {
    Block(bs[i].addr + HEADER + k, bs[i].size + bs[i + 1].size - k, bs[i + 1].kind, bs[i + 1].pad)
  }

  /** The list with x replaced by q. */
  function Replaced(r: seq<int>, x: int, q: int): (s: seq<int>)
    ensures |s| == |r|
    ensures forall k :: 0 <= k < |r| ==> s[k] == if r[k] == x then q else r[k]
  {
    seq(|r|, k requires 0 <= k < |r| => if r[k] == x then q else r[k])
  }

  // The pointer corrections of ExReallocHeap for the entry at v, which is about to move by d.

  ghost predicate CanNudge(m: Mem, v: int) {
    CanUnlink(m, v) && m[v].flink != v && m[v].blink != v
  }

  function Nudged(m: Mem, v: int, d: int): (m': Mem)
    requires CanNudge(m, v)
    ensures |m'| == |m|
  {
    var b, f := m[v].blink, m[v].flink;
    var m1 := m[b := m[b].(flink := m[b].flink + d)];
    m1[f := m1[f].(blink := m1[f].blink + d)]
  }

  lemma NudgedRing(m: Mem, r: seq<int>, i: nat, d: int)
    requires Ring(m, r) && 0 < i < |r|
    ensures CanNudge(m, r[i])
    ensures var (v, m') := (r[i], Nudged(m, r[i], d)); var (b, f) := (m[v].blink, m[v].flink);
      && b in r && f in r && b != v && f != v
      && (forall w {:trigger m'[w]} :: 0 <= w < |m| && w != b && w != f ==> m'[w] == m[w])
      && (forall w {:trigger m'[w]} :: 0 <= w < |m| ==> SameBody(m[w], m'[w]))
      && m'[b].Entry? && m'[b].flink == v + d && (b != f ==> m'[b].blink == m[b].blink)
      && m'[f].Entry? && m'[f].blink == v + d && (b != f ==> m'[f].flink == m[f].flink)
  {
    var p := if i + 1 == |r| then 0 else i + 1;
    assert m[r[i - 1]].flink == Succ(r, i - 1) && m[r[p]].blink == Pred(r, p);
    assert m[r[i]].flink == Succ(r, i) && m[r[i]].blink == Pred(r, i);
    assert r[i - 1] in r && r[p] in r;
  }

  /** The header at v copied to q, both halves read before either is written. */
  function HeaderMoved(m: Mem, v: nat, q: nat): (m': Mem)
    requires v + 1 < |m| && q + 1 < |m|
    ensures |m'| == |m|
  {
    m[q := m[v]][q + 1 := m[v + 1]]
  }

  lemma NudgeApart(m: Mem, x: seq<int>, i: nat, y: seq<int>, d: int)
    requires Ring(m, x) && Ring(m, y) && Apart(x, y) && 0 < i < |x|
    ensures CanNudge(m, x[i])
    ensures Ring(Nudged(m, x[i], d), y)
    ensures forall w :: w in y ==> 0 <= w < |m| && Nudged(m, x[i], d)[w] == m[w]
  {
    NudgedRing(m, x, i, d);
    MembersInRange(m, y);
    RingFrame(m, Nudged(m, x[i], d), y);
  }

  lemma NudgedAt(m: Mem, r: seq<int>, i: nat, d: int, j: nat)
    requires Ring(m, r) && 0 < i < |r| && j < |r| && j != i
    ensures CanNudge(m, r[i]) && 0 <= r[j] < |m|
    ensures var (v, w, m1) := (r[i], r[j], Nudged(m, r[i], d));
      && m[w].Entry? && m1[w].Entry?
      && m1[w].flink == (if w == m[v].blink then v + d else m[w].flink)
      && m1[w].blink == (if w == m[v].flink then v + d else m[w].blink)
  {
    NudgedRing(m, r, i, d);
    MembersInRange(m, r);
    assert r[j] in r;
  }

  /** One list of a moved header: neighbours pointed to the new place, entry copied there. */
  lemma MovedEntry(m: Mem, m3: Mem, r: seq<int>, i: nat, d: int)
    requires Ring(m, r) && 0 < i < |r| && |m3| == |m| && CanNudge(m, r[i])
    requires var v := r[i]; 0 <= v + d < |m| && m3[v + d] == m[v] && v + d !in r
    requires forall j {:trigger r[j]} :: 0 <= j < |r| && j != i && 0 <= r[j] < |m| ==>
      m3[r[j]].Entry? && SameLinks(m3[r[j]], Nudged(m, r[i], d)[r[j]])
    ensures Ring(m3, r[i := r[i] + d])
  {
    hide Nudged, CanNudge, Ring;
    var v := r[i];
    RingEntries(m, r);
    forall j | 0 <= j < |r| && j != i
      ensures m3[r[j]].Entry? && m3[r[j]].flink == (if r[j] == m[v].blink then v + d else m[r[j]].flink)
      ensures m3[r[j]].blink == (if r[j] == m[v].flink then v + d else m[r[j]].blink)
    {
      NudgedAt(m, r, i, d, j);
    }
    NotInParts(r, i, v + d);
    MovedRing(m, m3, r, i, v + d);
  }

  lemma NotInParts(r: seq<int>, i: nat, q: int)
    requires i < |r| && q !in r
    ensures q !in r[..i] && q !in r[i + 1..]
  {
  }

  ghost predicate SameLinks(p: Para, q: Para) {
    p.Entry? && q.Entry? ==> p.flink == q.flink && p.blink == q.blink
  }

  lemma RingEntries(m: Mem, r: seq<int>)
    requires Ring(m, r)
    ensures forall i {:trigger r[i]} :: 0 <= i < |r| ==> 0 <= r[i] < |m| && m[r[i]].Entry?
  {
  }

  /** The header at v moved by d: both its list entries re-pointed to, then copied. */
  ghost predicate CanMove(m: Mem, v: nat, d: int) {
    && v + 1 < |m| && 0 <= v + d && v + d + 1 < |m|
    && CanNudge(m, v) && CanNudge(Nudged(m, v, d), v + 1)
  }

  function Moved(m: Mem, v: nat, d: int): (m': Mem)
    requires CanMove(m, v, d)
    ensures |m'| == |m|
  {
    HeaderMoved(Nudged(Nudged(m, v, d), v + 1, d), v, v + d)
  }

  lemma ReplacedApart(x: seq<int>, i: nat, q: int, y: seq<int>)
    requires Apart(x, y) && i < |x| && q !in y
    ensures Apart(x[i := q], y) && Apart(y, x[i := q])
  {
  }

  lemma NudgeOthers(m: Mem, x: seq<int>, i: nat, d: int, w: int)
    requires Ring(m, x) && 0 < i < |x| && 0 <= w < |m| && (w !in x || w == x[i])
    ensures CanNudge(m, x[i]) && Nudged(m, x[i], d)[w] == m[w]
  {
    NudgedRing(m, x, i, d);
  }

  lemma MoveRings(m: Mem, x: seq<int>, px: nat, y: seq<int>, z: seq<int>, pz: nat, v: nat, d: int)
    requires Rings(m, x, y, z) && 0 < px < |x| && x[px] == v && 0 < pz < |z| && z[pz] == v + 1
    requires 0 <= v + d && v + d + 1 < |m| && v + 1 < |m|
    requires v + d !in x && v + d !in y && (v + d !in z || d == 1)
    requires v + d + 1 !in x && v + d + 1 !in y && v + d + 1 !in z
    ensures CanMove(m, v, d)
    ensures Rings(Moved(m, v, d), x[px := v + d], y, z[pz := v + d + 1])
  {
    hide Nudged, CanNudge, Ring;
    var q := v + d;
    NudgeApart(m, x, px, z, d);
    NudgeApart(m, x, px, y, d);
    var m1 := Nudged(m, v, d);
    ApartTurned(y, z);
    NudgeApart(m1, z, pz, y, d);
    var m2 := Nudged(m1, v + 1, d);
    var m3 := HeaderMoved(m2, v, q);
    assert v in x && v + 1 in z;
    MoveFirst(m, m1, m2, m3, x, px, z, pz, v, d);
    MoveSecond(m1, m2, m3, z, pz, v, d);
    MembersInRange(m2, y);
    RingFrame(m2, m3, y);
    ReplacedApart(x, px, q, y);
    ReplacedApart(z, pz, q + 1, y);
    MoveApart(m, x, px, z, pz, v, d);
  }

  lemma ApartTurned(x: seq<int>, y: seq<int>)
    requires Apart(x, y)
    ensures Apart(y, x)
  {
  }

  lemma ReplacedMembers(r: seq<int>, i: nat, q: int)
    requires i < |r| && Distinct(r)
    ensures forall u :: u in r[i := q] ==> u == q || (u in r && u != r[i])
  {
    var s := r[i := q];
    forall u | u in s && u != q
      ensures u in r && u != r[i]
    {
      var j :| 0 <= j < |s| && s[j] == u;
      assert j != i && r[j] == u;
    }
  }

  lemma MoveApart(m: Mem, x: seq<int>, px: nat, z: seq<int>, pz: nat, v: nat, d: int)
    requires Apart(x, z) && Ring(m, x) && Ring(m, z) && px < |x| && 0 < pz < |z| && z[pz] == v + 1
    requires (v + d !in z || d == 1) && v + d + 1 !in x
    ensures Apart(x[px := v + d], z[pz := v + d + 1])
  {
    ReplacedMembers(x, px, v + d);
    ReplacedMembers(z, pz, v + d + 1);
    var x', z' := x[px := v + d], z[pz := v + d + 1];
    forall u | u in x'
      ensures u !in z'
    {
      assert u == v + d || u in x;
    }
  }

  lemma MoveFirst(m: Mem, m1: Mem, m2: Mem, m3: Mem, x: seq<int>, px: nat, z: seq<int>, pz: nat, v: nat, d: int)
    requires Ring(m, x) && Ring(m1, z) && Apart(x, z) && 0 < px < |x| && x[px] == v && 0 < pz < |z| && z[pz] == v + 1
    requires CanNudge(m, v) && m1 == Nudged(m, v, d) && CanNudge(m1, v + 1) && m2 == Nudged(m1, v + 1, d)
    requires v + 1 < |m| && 0 <= v + d && v + d + 1 < |m| && m3 == HeaderMoved(m2, v, v + d)
    requires v + d !in x && v + d + 1 !in x
    ensures Ring(m3, x[px := v + d])
  {
    hide Nudged, CanNudge, Ring;
    assert v in x;
    NudgeOthers(m, x, px, d, v);
    NudgeOthers(m1, z, pz, d, v);
    forall j {:trigger x[j]} | 0 <= j < |x| && j != px && 0 <= x[j] < |m|
      ensures m3[x[j]].Entry? && SameLinks(m3[x[j]], m1[x[j]])
    {
      assert x[j] in x;
      NudgeOthers(m1, z, pz, d, x[j]);
      NudgedAt(m, x, px, d, j);
    }
    MovedEntry(m, m3, x, px, d);
  }

  lemma MoveSecond(m1: Mem, m2: Mem, m3: Mem, z: seq<int>, pz: nat, v: nat, d: int)
    requires Ring(m1, z) && 0 < pz < |z| && z[pz] == v + 1
    requires CanNudge(m1, v + 1) && m2 == Nudged(m1, v + 1, d)
    requires v + 1 < |m1| && 0 <= v + d && v + d + 1 < |m1| && m3 == HeaderMoved(m2, v, v + d)
    requires (v + d !in z || d == 1) && v + d + 1 !in z
    ensures Ring(m3, z[pz := v + d + 1])
  {
    hide Nudged, CanNudge;
    NudgeOthers(m1, z, pz, d, v + 1);
    forall j {:trigger z[j]} | 0 <= j < |z| && j != pz && 0 <= z[j] < |m1|
      ensures m3[z[j]].Entry? && SameLinks(m3[z[j]], m2[z[j]])
    {
      assert z[j] in z && z[j] != z[pz];
      NudgedAt(m1, z, pz, d, j);
    }
    MovedEntry(m1, m3, z, pz, d);
  }

  // ---------------------------------------------------------------- a border moved, step by step

  /** The heap m, with used block i and free block i + 1, has had the second header moved so that
      block i may be given k paragraphs: mA is what ExReallocHeap has once the old header's place
      is filled. */
  ghost predicate BorderMoved(m: Mem, s: State, i: nat, k: nat, mA: Mem)
    requires i + 1 < |s.blocks| && k < s.blocks[i].size + s.blocks[i + 1].size
  {
    var b, c := s.blocks[i], MovedFree(s.blocks, i, k);
    var z := OrderRing(s.blocks);
    && |mA| == |m| && c.End() <= |m|
    && i + 2 < |z|
    && Rings(mA, [FREE_HEAD] + Replaced(s.free, s.blocks[i + 1].addr, c.addr), UsedRing(s), z[i + 2 := c.addr + 1])
    && HeaderTypedAt(mA, b.addr) && HeaderRead(mA, b.addr) == (b, s.cookie)
    && HeaderTypedAt(mA, c.addr) && HeaderRead(mA, c.addr).0.kind == FREE && HeaderRead(mA, c.addr).0.pad == c.pad < 256
    && HeaderRead(mA, c.addr).1 == s.cookie
    && DataBytes(mA, b.(size := k)) && FreedAt(mA, c.Data(), c.End())
    && SameOutside(m, mA, b.addr, c.End())
    && (forall u {:trigger mA[u]} :: b.Data() <= u < b.End() && u < c.addr ==> mA[u] == m[u])
  }

  lemma BorderRings(m: Mem, cookie: nat, b: Block, c: Block, mB: Mem, mF: Mem, x: seq<int>, y: seq<int>, z: seq<int>)
    requires Rings(m, x, y, z) && c.addr == b.End() && c.End() <= |m|
    requires HeaderTypedAt(m, b.addr) && HeaderTypedAt(m, c.addr) && DataBytes(m, b)
    requires mB == HeaderStored(HeaderStored(m, cookie, b), cookie, c) && PaddingWritten(mB, mF, b)
    ensures Rings(mF, x, y, z)
  {
    hide Rings;
    var m1 := HeaderStored(m, cookie, b);
    HeaderStoredRings(m, m1, cookie, b, x, y, z);
    HeaderStoredRings(m1, mB, cookie, c, x, y, z);
    DataWrittenRings(mB, mF, b.Data(), b.End(), x, y, z);
  }

  lemma BorderBlocks(m: Mem, cookie: nat, b: Block, c: Block, mB: Mem, mF: Mem)
    requires c.addr == b.End() && c.End() <= |m| && DataBytes(m, b) && FreedAt(m, c.Data(), c.End())
    requires b.Live() && b.pad < 256 && b.pad <= PARAGRAPH * b.size && c.kind == FREE && c.pad < 256
    requires mB == HeaderStored(HeaderStored(m, cookie, b), cookie, c) && PaddingWritten(mB, mF, b)
    ensures AllOk(mF, cookie, [b, c])
  {
    hide Checksum;
    assert mF[b.addr] == mB[b.addr] && mF[b.addr + 1] == mB[b.addr + 1];
    assert mF[c.addr] == mB[c.addr] && mF[c.addr + 1] == mB[c.addr + 1];
    forall u | c.Data() <= u < c.End()
      ensures mF[u] == Fill(FREED_PADDING)
    {
      assert m[u] == Fill(FREED_PADDING);
    }
    assert BlockOk(mF, cookie, b);
    assert BlockOk(mF, cookie, c);
  }

  lemma BorderOutside(m: Mem, mA: Mem, cookie: nat, b: Block, c: Block, mB: Mem, mF: Mem)
    requires c.addr == b.End() && c.End() <= |mA| && SameOutside(m, mA, b.addr, c.End())
    requires mB == HeaderStored(HeaderStored(mA, cookie, b), cookie, c) && PaddingWritten(mB, mF, b)
    ensures SameOutside(m, mF, b.addr, c.End())
  {
    forall u | 0 <= u < |m| && !(b.addr <= u < c.End())
      ensures SameBody(m[u], mF[u])
    {
      assert SameBody(m[u], mA[u]);
    }
  }

  lemma BorderBytes(m: Mem, o: Block, mA: Mem, cookie: nat, b: Block, c: Block, mB: Mem, mF: Mem)
    requires o.addr == b.addr && c.addr == b.End() && c.End() <= |mA| == |m| && o.End() <= |m|
    requires DataBytes(m, o) && DataBytes(mA, b)
    requires forall u {:trigger mA[u]} :: o.Data() <= u < o.End() && u < c.addr ==> mA[u] == m[u]
    requires mB == HeaderStored(HeaderStored(mA, cookie, b), cookie, c) && PaddingWritten(mB, mF, b)
    ensures BytesKept(m, o, mF, b, Min(o.UserSize(), b.UserSize()))
  {
    var n := Min(o.UserSize(), b.UserSize());
    forall j | 0 <= j < o.size && j < b.size
      ensures ParagraphKept(m, o, mF, b, j, n)
    {
      var u := b.Data() + j;
      assert mA[u] == m[u] && mB[u] == mA[u];
      forall k | 0 <= k < PARAGRAPH && k < n - PARAGRAPH * j
        ensures mF[u].b[k] == m[u].b[k]
      {
        assert mF[u].b[k] == mB[u].b[k];
      }
    }
  }

  lemma ReplacedRing(h: int, r: seq<int>, p: nat, q: int)
    requires 0 < p <= |r| && Distinct([h] + r)
    ensures ([h] + r)[p := q] == [h] + Replaced(r, r[p - 1], q)
  {
    DistinctTail(h, r);
    var s := ([h] + r)[p := q];
    assert forall j :: 0 < j <= |r| ==> ([h] + r)[j] == r[j - 1];
  }

  lemma ShiftedShape(s: State, i: nat, k: nat, pad: nat)
    requires i + 1 < |s.blocks| && k < s.blocks[i].size + s.blocks[i + 1].size && Tiled(s.blocks, s.base, s.limit)
    ensures var (b, c) := (s.blocks[i].(size := k, pad := pad), MovedFree(s.blocks, i, k)); var s' := Shifted(s, i, k, pad);
      && s' == s.(blocks := Splice(s.blocks, i, i + 2, [b, c]), free := s'.free)
      && c.addr == b.End() && c.End() == s.blocks[i + 1].End()
      && FreeRing(s') == [FREE_HEAD] + Replaced(s.free, s.blocks[i + 1].addr, c.addr)
      && UsedRing(s') == UsedRing(s)
      && OrderRing(s'.blocks) == OrderRing(s.blocks)[i + 2 := c.addr + 1]
      && Tiled([b, c], s.blocks[i].addr, s.blocks[i + 1].End())
  {
    var b, c := s.blocks[i].(size := k, pad := pad), MovedFree(s.blocks, i, k);
    OrderRingShifted(s.blocks, i, b, c);
    MergedExtent(s, i);
    TwoTile(b, c);
  }

  lemma ReplacedIn(r: seq<int>, x: int, q: int)
    ensures forall u :: u in Replaced(r, x, q) <==> (u in r && u != x) || (u == q && x in r)
  {
    var t := Replaced(r, x, q);
    forall u | (u in r && u != x) || (u == q && x in r)
      ensures u in t
    {
      if u in r && u != x {
        var k :| 0 <= k < |r| && r[k] == u;
        assert t[k] == u;
      } else {
        var k :| 0 <= k < |r| && r[k] == x;
        assert t[k] == u;
      }
    }
  }

  lemma ShiftedFollows(s: State, i: nat, k: nat, pad: nat)
    requires Tiled(s.blocks, s.base, s.limit) && Listed(s)
    requires i + 1 < |s.blocks| && s.blocks[i].kind != FREE && s.blocks[i + 1].kind == FREE
    requires k < s.blocks[i].size + s.blocks[i + 1].size
    ensures ListsFollow(s, Shifted(s, i, k, pad), i, i + 2, [s.blocks[i].(size := k, pad := pad), MovedFree(s.blocks, i, k)])
  {
    hide Replaced;
    MergedExtent(s, i);
    var b, c, v := s.blocks[i].(size := k, pad := pad), MovedFree(s.blocks, i, k), s.blocks[i + 1].addr;
    var s' := Shifted(s, i, k, pad);
    ReplacedIn(s.free, v, c.addr);
    forall a | b.addr <= a < s.blocks[i + 1].End() && (a in s.free || a in s.used)
      ensures a == b.addr || a == v
    {
      if a < v {
        OnlyOwnAddress(s.blocks, s.base, s.limit, i, a);
      } else {
        OnlyOwnAddress(s.blocks, s.base, s.limit, i + 1, a);
      }
    }
    assert v in s.free && v !in s.used && b.addr !in s.free && b.addr in s.used;
    assert [b, c][0].addr == b.addr && [b, c][1].addr == c.addr;
    assert b.addr <= c.addr < s.blocks[i + 1].End();
  }

  /** The headers of both blocks rewritten and the padding filled, in whatever order. */
  lemma BorderFinished(m: Mem, s: State, i: nat, k: nat, pad: nat, mA: Mem, mB: Mem, mF: Mem)
    requires Core(m, s) && i + 1 < |s.blocks| && s.blocks[i].Live() && s.blocks[i + 1].kind == FREE
    requires k < s.blocks[i].size + s.blocks[i + 1].size && pad < 256 && pad <= PARAGRAPH * k
    requires BorderMoved(m, s, i, k, mA)
    requires var (b, c) := (s.blocks[i].(size := k, pad := pad), MovedFree(s.blocks, i, k));
      && c.addr == b.End()
      && mB == HeaderStored(HeaderStored(mA, s.cookie, b), s.cookie, c)
      && PaddingWritten(mB, mF, b)
    ensures Core(mF, Shifted(s, i, k, pad))
    ensures OthersKept(m, s, mF, Shifted(s, i, k, pad), s.blocks[i].addr)
    ensures BytesKept(m, s.blocks[i], mF, s.blocks[i].(size := k, pad := pad), Min(s.blocks[i].UserSize(), PARAGRAPH * k - pad))
  {
    hide Core, Rings, AllOk, Listed, Layout, Tiled, BlockOk, SameOutside, ListsFollow, OthersKept, Shifted,
      OrderRing, Splice, FreeRing, UsedRing, HeaderStored, PaddingWritten, BytesKept, HeaderTypedAt, FreedAt, Replaced, DataBytes;
    CoreNamed(m, s);
    var b, c := s.blocks[i].(size := k, pad := pad), MovedFree(s.blocks, i, k);
    var x, y, z := [FREE_HEAD] + Replaced(s.free, s.blocks[i + 1].addr, c.addr), UsedRing(s), OrderRing(s.blocks)[i + 2 := c.addr + 1];
    SameDataBytes(mA, s.blocks[i].(size := k), b);
    BorderRings(mA, s.cookie, b, c, mB, mF, x, y, z);
    BorderBlocks(mA, s.cookie, b, c, mB, mF);
    BorderOutside(m, mA, s.cookie, b, c, mB, mF);
    HeapBlockOk(m, s, i);
    BlockExtent(m, s.cookie, s.blocks[i]);
    BorderBytes(m, s.blocks[i], mA, s.cookie, b, c, mB, mF);
    ShiftedShape(s, i, k, pad);
    ShiftedFollows(s, i, k, pad);
    SpliceCore(m, s, mF, Shifted(s, i, k, pad), i, i + 2, [b, c]);
    LayoutLimit(m, s);
    SpliceKeepsOthers(m, s, mF, Shifted(s, i, k, pad), i, i + 2, [b, c], b.addr);
  }

  lemma SameDataBytes(m: Mem, b: Block, b': Block)
    requires b.End() <= |m| && DataBytes(m, b) && b'.addr == b.addr && b'.size == b.size
    ensures DataBytes(m, b')
  {
  }

  lemma SizePadStores(m: Mem, u: nat, size: nat, pad: nat, b: Block, cookie: nat)
    requires u + 1 < |m| && b == HeaderRead(m, u).0.(size := size, pad := pad) && cookie == HeaderRead(m, u).1 && b.End() <= |m|
    ensures Summed(PadSet(SizeSet(m, u, size), u, pad), u) == HeaderStored(m, cookie, b)
    ensures HeaderRead(PadSet(SizeSet(m, u, size), u, pad), u) == (b, cookie)
  {
    hide Summed, PadSet, SizeSet, HeaderStored, HeaderRead;
    FieldStores(m, u, size);
    var m1 := SizeSet(m, u, size);
    FieldStores(m1, u, pad);
    PadStores(m1, u, pad, b, cookie);
    StoredAbsorbs(m, u, size, cookie, b);
  }

  /** A header elsewhere reads the same. */
  lemma HeaderElsewhere(m: Mem, m': Mem, u: nat)
    requires u + 1 < |m| == |m'| && m'[u] == m[u] && m'[u + 1] == m[u + 1]
    ensures HeaderRead(m', u) == HeaderRead(m, u)
  {
  }

  /** Growing: the free block's size, then block i's size and padding, then both checksums. */
  lemma GrowStores(mA: Mem, b: Block, c: Block, cookie: nat, o: Block)
    requires c.addr == b.End() && c.End() <= |mA| && o.addr == b.addr && b == o.(size := b.size, pad := b.pad)
    requires HeaderTypedAt(mA, b.addr) && HeaderRead(mA, b.addr) == (o, cookie)
    requires HeaderTypedAt(mA, c.addr) && HeaderRead(mA, c.addr) == (c.(size := HeaderRead(mA, c.addr).0.size), cookie)
    ensures Summed(Summed(PadSet(SizeSet(SizeSet(mA, c.addr, c.size), b.addr, b.size), b.addr, b.pad), b.addr), c.addr)
      == HeaderStored(HeaderStored(mA, cookie, b), cookie, c)
  {
    hide Checksum, Summed, PadSet;
    var m1 := SizeSet(mA, c.addr, c.size);
    FieldStores(mA, c.addr, c.size);
    HeaderElsewhere(mA, m1, b.addr);
    SizePadStores(m1, b.addr, b.size, b.pad, b, cookie);
    var m4 := HeaderStored(m1, cookie, b);
    HeaderElsewhere(m1, m4, c.addr);
    SummedIsStored(m4, c.addr);
    StoresCommute(mA, b, c, cookie);
  }

  lemma StoresCommute(mA: Mem, b: Block, c: Block, cookie: nat)
    requires c.addr == b.End() && c.End() <= |mA| && HeaderTypedAt(mA, c.addr)
    ensures HeaderStored(HeaderStored(SizeSet(mA, c.addr, c.size), cookie, b), cookie, c)
      == HeaderStored(HeaderStored(mA, cookie, b), cookie, c)
  {
    hide Checksum;
  }

  /** Shrinking: block i's size and padding, the padding bytes, then both checksums. */
  lemma ShrinkStores(mA: Mem, b: Block, c: Block, cookie: nat, o: Block, m3: Mem)
    requires c.addr == b.End() && c.End() <= |mA| && o.addr == b.addr && b == o.(size := b.size, pad := b.pad)
    requires HeaderTypedAt(mA, b.addr) && HeaderRead(mA, b.addr) == (o, cookie)
    requires HeaderTypedAt(mA, c.addr) && HeaderRead(mA, c.addr) == (c, cookie)
    requires PaddingWritten(PadSet(SizeSet(mA, b.addr, b.size), b.addr, b.pad), m3, b)
    ensures PaddingWritten(HeaderStored(HeaderStored(mA, cookie, b), cookie, c), Summed(Summed(m3, b.addr), c.addr), b)
  {
    hide Checksum, Summed;
    var m2 := PadSet(SizeSet(mA, b.addr, b.size), b.addr, b.pad);
    SizePadStores(mA, b.addr, b.size, b.pad, b, cookie);
    HeaderElsewhere(m2, m3, b.addr);
    SummedIsStored(m3, b.addr);
    var m4 := HeaderStored(m3, cookie, b);
    HeaderElsewhere(mA, m4, c.addr);
    SummedIsStored(m4, c.addr);
    var m5 := HeaderStored(m4, cookie, c);
    var mB := HeaderStored(HeaderStored(mA, cookie, b), cookie, c);
    forall u | 0 <= u < |mA| && !(b.Data() <= u < b.End())
      ensures m5[u] == mB[u]
    {
      assert m3[u] == m2[u];
    }
    forall u | b.Data() <= u < b.End()
      ensures m5[u] == m3[u] && mB[u] == m2[u]
    {
    }
  }

  // ---------------------------------------------------------------- the two moves

  /** Bodies travel with the header; nothing else but pointers changes. */
  ghost predicate BodiesMoved(m: Mem, m': Mem, v: int, q: int) {
    && |m'| == |m| && 0 <= v && v + 1 < |m| && 0 <= q && q + 1 < |m|
    && SameBody(m[v], m'[q]) && SameBody(m[v + 1], m'[q + 1])
    && (forall w {:trigger m'[w]} :: 0 <= w < |m| && w != q && w != q + 1 ==> SameBody(m[w], m'[w]))
  }

  lemma MoveBodies(m: Mem, x: seq<int>, px: nat, z: seq<int>, pz: nat, v: nat, d: int)
    requires Ring(m, x) && Ring(m, z) && Apart(x, z) && 0 < px < |x| && x[px] == v && 0 < pz < |z| && z[pz] == v + 1
    requires CanMove(m, v, d)
    ensures BodiesMoved(m, Moved(m, v, d), v, v + d)
  {
    hide Nudged, CanNudge, Ring;
    NudgedRing(m, x, px, d);
    var m1 := Nudged(m, v, d);
    NudgeApart(m, x, px, z, d);
    NudgedRing(m1, z, pz, d);
    var m2 := Nudged(m1, v + 1, d);
    forall w | 0 <= w < |m|
      ensures SameBody(m[w], m2[w])
    {
      assert SameBody(m[w], m1[w]) && SameBody(m1[w], m2[w]);
    }
  }

  /** The header of free block i + 1 has gone from m1 to paragraph q of m3, and with it its places on
      the free list and in memory order. */
  ghost predicate HeaderTravelled(s: State, i: nat, q: int, m1: Mem, m3: Mem)
    requires i + 1 < |s.blocks|
  {
    var v := s.blocks[i + 1].addr;
    var z := OrderRing(s.blocks);
    && i + 2 < |z|
    && Rings(m3, [FREE_HEAD] + Replaced(s.free, v, q), UsedRing(s), z[i + 2 := q + 1])
    && BodiesMoved(m1, m3, v, q)
    && OnNone(v, s, i, q) && (q != v + 1 ==> OnNone(v + 1, s, i, q))
  }

  /** The header of free block i + 1 can be moved to q, and the lists then lead there. */
  ghost predicate Travels(s: State, i: nat, q: int, m: Mem)
    requires i + 1 < |s.blocks|
  {
    var v := s.blocks[i + 1].addr;
    CanMove(m, v, q - v) && HeaderTravelled(s, i, q, m, Moved(m, v, q - v))
  }

  /** Paragraph w is an entry of none of the lists once the header has gone to q. */
  ghost predicate OnNone(w: int, s: State, i: nat, q: int)
    requires i + 1 < |s.blocks|
  {
    var z := OrderRing(s.blocks);
    w !in [FREE_HEAD] + Replaced(s.free, s.blocks[i + 1].addr, q) && w !in UsedRing(s) && i + 2 < |z| && w !in z[i + 2 := q + 1]
  }

  /** MoveRings for the header of the free block behind block i. */
  lemma MoveFreeHeader(m: Mem, s: State, i: nat, m1: Mem, d: int) returns (px: nat)
    requires Core(m, s) && i + 1 < |s.blocks| && s.blocks[i + 1].kind == FREE && |m1| == |m|
    requires Rings(m1, FreeRing(s), UsedRing(s), OrderRing(s.blocks))
    requires d != 0
    requires var q := s.blocks[i + 1].addr + d; 0 <= q && q + 1 < |m| && (!m1[q].Entry? || d == 1) && !m1[q + 1].Entry?
    ensures Travels(s, i, s.blocks[i + 1].addr + d, m1)
  {
    hide Core, Rings, Moved, CanMove, Replaced, OrderRing, FreeRing, UsedRing, HeaderTypedAt, Travels, Distinct, BodiesMoved;
    var v, F, U, O := s.blocks[i + 1].addr, FreeRing(s), UsedRing(s), OrderRing(s.blocks);
    var q := v + d;
    px := FreePosition(m, s, i + 1);
    OrderEntry(m, s, i + 1);
    ListsDistinct(m, s, i);
    HeaderIn(m, s, i + 1);
    HeaderApart(m1, F, px, U, O, i + 2, v, d);
    PlaceFree(m1, F, U, O, q, d);
    assert v in F && q + 1 !in F;
    MoveRings(m1, F, px, U, O, i + 2, v, d);
    RingsParts(m1, F, U, O);
    MoveBodies(m1, F, px, O, i + 2, v, d);
    TravelsFrom(s, i, q, m1, px);
  }

  lemma HeaderIn(m: Mem, s: State, i: nat)
    requires Core(m, s) && i < |s.blocks|
    ensures s.blocks[i].addr + 1 < |m|
  {
    hide Core;
    HeaderTyped(m, s, i);
  }

  lemma RingsParts(m: Mem, x: seq<int>, y: seq<int>, z: seq<int>)
    requires Rings(m, x, y, z)
    ensures Ring(m, x) && Ring(m, z) && Apart(x, z)
  {
  }

  /** The two entries of a header are on two lists and on no other; moved by one paragraph, the first comes
      where the second was. */
  lemma HeaderApart(m: Mem, x: seq<int>, px: nat, y: seq<int>, z: seq<int>, pz: nat, v: nat, d: int)
    requires Rings(m, x, y, z) && px < |x| && x[px] == v && pz < |z| && z[pz] == v + 1
    ensures v !in y && v !in z && v + 1 !in x && v + 1 !in y
    ensures d == 1 ==> v + d !in x && v + d !in y
  {
    hide Ring;
    assert v in x && v + 1 in z;
  }

  lemma NotAnyMore(r: seq<int>, i: nat, q: int)
    requires i < |r| && Distinct(r) && r[i] != q
    ensures r[i] !in r[i := q]
  {
    ReplacedMembers(r, i, q);
  }

  lemma TravelsFrom(s: State, i: nat, q: int, m: Mem, px: nat)
    requires i + 1 < |s.blocks| && 0 < px < |FreeRing(s)| && FreeRing(s)[px] == s.blocks[i + 1].addr
    requires i + 2 < |OrderRing(s.blocks)| && OrderRing(s.blocks)[i + 2] == s.blocks[i + 1].addr + 1
    requires Distinct(FreeRing(s)) && Distinct(OrderRing(s.blocks))
    requires var v := s.blocks[i + 1].addr;
      && v !in UsedRing(s) && v !in OrderRing(s.blocks) && v + 1 !in FreeRing(s) && v + 1 !in UsedRing(s)
      && q != v && q + 1 != v && CanMove(m, v, q - v) && BodiesMoved(m, Moved(m, v, q - v), v, q)
      && Rings(Moved(m, v, q - v), FreeRing(s)[px := q], UsedRing(s), OrderRing(s.blocks)[i + 2 := q + 1])
    ensures Travels(s, i, q, m)
  {
    hide Rings, Moved, CanMove, Replaced, OrderRing, UsedRing, BodiesMoved, Distinct;
    var v := s.blocks[i + 1].addr;
    assert FreeRing(s)[px] == s.free[px - 1];
    ReplacedRing(FREE_HEAD, s.free, px, q);
    ReplacedMembers(FreeRing(s), px, q);
    ReplacedMembers(OrderRing(s.blocks), i + 2, q + 1);
    assert FreeRing(s)[px := q] == [FREE_HEAD] + Replaced(s.free, v, q);
    assert OnNone(v, s, i, q);
    if q != v + 1 {
      NotAnyMore(OrderRing(s.blocks), i + 2, q + 1);
      assert OnNone(v + 1, s, i, q);
    }
    assert HeaderTravelled(s, i, q, m, Moved(m, v, q - v));
  }

  /** No list has an entry where no LIST_ENTRY lies. */
  lemma PlaceFree(m: Mem, x: seq<int>, y: seq<int>, z: seq<int>, q: int, d: int)
    requires Rings(m, x, y, z) && 0 <= q && q + 1 < |m| && !m[q + 1].Entry?
    requires !m[q].Entry? || (d == 1 && q !in x && q !in y)
    ensures q !in x && q !in y && (q !in z || d == 1)
    ensures q + 1 !in x && q + 1 !in y && q + 1 !in z
  {
    hide Ring, Apart;
    MembersInRange(m, x);
    MembersInRange(m, y);
    MembersInRange(m, z);
  }

  lemma SizeStoredRings(m: Mem, u: nat, size: nat, x: seq<int>, y: seq<int>, z: seq<int>)
    requires Rings(m, x, y, z) && HeaderTypedAt(m, u)
    ensures Rings(SizeSet(m, u, size), x, y, z)
  {
    RingsFrame(m, SizeSet(m, u, size), x, y, z);
  }

  lemma FreedRings(m: Mem, m': Mem, lo: int, hi: int, x: seq<int>, y: seq<int>, z: seq<int>)
    requires Rings(m, x, y, z) && FreedWritten(m, m', lo, hi)
    requires forall w :: lo <= w < hi ==> w !in x && w !in y && w !in z
    ensures Rings(m', x, y, z)
  {
    hide Ring;
    FreedRing(m, m', lo, hi, x);
    FreedRing(m, m', lo, hi, y);
    FreedRing(m, m', lo, hi, z);
  }

  lemma FreedRing(m: Mem, m': Mem, lo: int, hi: int, r: seq<int>)
    requires Ring(m, r) && FreedWritten(m, m', lo, hi) && forall w :: lo <= w < hi ==> w !in r
    ensures Ring(m', r)
  {
    MembersInRange(m, r);
    RingFrame(m, m', r);
  }

  /** What a used block and the free block behind it look like in memory. */
  ghost predicate UsedThenFree(m: Mem, s: State, i: nat)
    requires i + 1 < |s.blocks|
  {
    var b, c := s.blocks[i], s.blocks[i + 1];
    && c.addr == b.End() && c.End() <= |m| && c.kind == FREE && c.pad < 256
    && HeaderTypedAt(m, b.addr) && HeaderRead(m, b.addr) == (b, s.cookie)
    && HeaderTypedAt(m, c.addr) && HeaderRead(m, c.addr) == (c, s.cookie)
    && DataBytes(m, b) && FreedAt(m, c.Data(), c.End())
  }

  lemma HeapUsedThenFree(m: Mem, s: State, i: nat)
    requires Core(m, s) && i + 1 < |s.blocks| && s.blocks[i + 1].kind == FREE
    ensures UsedThenFree(m, s, i)
  {
    hide Core, BlockOk, Tiled, Layout;
    CoreNamedTiled(m, s);
    MergedExtent(s, i);
    HeaderTyped(m, s, i);
    HeaderTyped(m, s, i + 1);
    HeaderReads(m, s, i);
    HeaderReads(m, s, i + 1);
    HeapBlockOk(m, s, i);
    BlockExtent(m, s.cookie, s.blocks[i]);
    FreeBlockFreed(m, s, i + 1);
  }

  /** The facts of BorderMoved that are not about lists, for a block that shrinks. */
  lemma ShrinkFacts(m: Mem, s: State, i: nat, k: nat, m1: Mem, m3: Mem, m4: Mem, mA: Mem)
    requires i + 1 < |s.blocks| && UsedThenFree(m, s, i) && k + HEADER <= s.blocks[i].size
    requires var (b, c) := (s.blocks[i], MovedFree(s.blocks, i, k)); var v := s.blocks[i + 1].addr;
      && m1 == SizeSet(m, v, c.size) && BodiesMoved(m1, m3, v, c.addr)
      && FreedWritten(m3, m4, v, v + HEADER) && FreedWritten(m4, mA, c.Data(), v + HEADER)
    ensures var (b, c) := (s.blocks[i], MovedFree(s.blocks, i, k));
      && HeaderTypedAt(mA, b.addr) && HeaderRead(mA, b.addr) == (b, s.cookie)
      && HeaderTypedAt(mA, c.addr) && HeaderRead(mA, c.addr) == (c, s.cookie)
      && DataBytes(mA, b.(size := k)) && FreedAt(mA, c.Data(), c.End())
      && SameOutside(m, mA, b.addr, c.End())
      && (forall u {:trigger mA[u]} :: b.Data() <= u < b.End() && u < c.addr ==> mA[u] == m[u])
      && (forall u :: c.Data() <= u < s.blocks[i + 1].Data() ==> !m4[u].Entry?)
  {
    var b, c, o := s.blocks[i], MovedFree(s.blocks, i, k), s.blocks[i + 1];
    var v := o.addr;
    FieldStores(m, v, c.size);
    HeaderElsewhere(m, m1, b.addr);
    assert SameBody(m1[b.addr], m3[b.addr]) && SameBody(m1[b.addr + 1], m3[b.addr + 1]);
    HeaderKept(m1, m3, mA, b.addr, b.addr);
    HeaderKept(m1, m3, mA, v, c.addr);
    hide HeaderRead, HeaderTypedAt;
    forall u | b.Data() <= u < b.End() && u < c.addr
      ensures mA[u] == m[u]
    {
      assert m[u].Bytes16() && m1[u] == m[u] && SameBody(m1[u], m3[u]);
    }
    forall u | c.Data() <= u < c.End()
      ensures mA[u] == Fill(FREED_PADDING)
    {
      if u >= v + HEADER {
        assert m[u] == Fill(FREED_PADDING) && m1[u] == m[u] && SameBody(m1[u], m3[u]);
      }
    }
    forall u | c.Data() <= u < o.Data()
      ensures !m4[u].Entry?
    {
      if u < v {
        assert m[u].Bytes16() && SameBody(m1[u], m3[u]);
      }
    }
    forall u | 0 <= u < |m| && !(b.addr <= u < c.End())
      ensures SameBody(m[u], mA[u])
    {
      assert SameBody(m1[u], m3[u]);
    }
  }

  lemma ShrinkCanMove(m: Mem, s: State, i: nat, k: nat, c: Block, v: nat, m1: Mem)
    requires Core(m, s) && i + 1 < |s.blocks| && s.blocks[i + 1].kind == FREE && k + HEADER <= s.blocks[i].size
    requires c == MovedFree(s.blocks, i, k) && v == s.blocks[i + 1].addr && v + 1 < |m| && m1 == SizeSet(m, v, c.size)
    ensures Travels(s, i, c.addr, m1)
  {
    hide Core, Rings, SizeSet, CanMove, Moved, BodiesMoved, FreedAt, DataBytes, HeaderRead, OrderRing, FreeRing, UsedRing,
      Replaced, Travels;
    HeapUsedThenFree(m, s, i);
    CoreNamedRings(m, s);
    SizeStoredRings(m, v, c.size, FreeRing(s), UsedRing(s), OrderRing(s.blocks));
    ShrinkRoom(m, s, i, k);
    var px := MoveFreeHeader(m, s, i, m1, c.addr - v);
  }

  lemma ShrinkMoved(m: Mem, s: State, i: nat, k: nat, c: Block, v: nat, m1: Mem, m3: Mem, m4: Mem, mA: Mem)
    requires i + 1 < |s.blocks| && s.blocks[i].kind != FREE && s.blocks[i + 1].kind == FREE
    requires k + HEADER <= s.blocks[i].size
    requires c == MovedFree(s.blocks, i, k) && v == s.blocks[i + 1].addr && v + 1 < |m| && m1 == SizeSet(m, v, c.size)
    requires HeaderTravelled(s, i, c.addr, m1, m3)
    requires FreedWritten(m3, m4, v, v + HEADER) && FreedWritten(m4, mA, c.Data(), v + HEADER)
    requires Core(m, s)
    ensures BorderMoved(m, s, i, k, mA) && HeaderIs(mA, c, s.cookie)
  {
    hide Core, Rings, SizeSet, BodiesMoved, FreedAt, DataBytes, HeaderRead, OrderRing, FreeRing, UsedRing, Replaced;
    HeapUsedThenFree(m, s, i);
    var x, y, z := [FREE_HEAD] + Replaced(s.free, v, c.addr), UsedRing(s), OrderRing(s.blocks)[i + 2 := c.addr + 1];
    ShrinkFacts(m, s, i, k, m1, m3, m4, mA);
    FreedRings(m3, m4, v, v + HEADER, x, y, z);
    DataWrittenRings(m4, mA, c.Data(), v + HEADER, x, y, z);
  }

  lemma ShrinkRoom(m: Mem, s: State, i: nat, k: nat)
    requires i + 1 < |s.blocks| && UsedThenFree(m, s, i) && k + HEADER <= s.blocks[i].size
    ensures var (c, v) := (MovedFree(s.blocks, i, k), s.blocks[i + 1].addr); var m1 := SizeSet(m, v, c.size);
      !m1[c.addr].Entry? && !m1[c.addr + 1].Entry?
  {
    var b, c := s.blocks[i], MovedFree(s.blocks, i, k);
    assert m[c.addr].Bytes16() && m[c.addr + 1].Bytes16();
  }

  /** A header whose halves went from v to q reads there as it did. */
  lemma HeaderKept(m: Mem, m3: Mem, mA: Mem, v: nat, q: nat)
    requires v + 1 < |m| && q + 1 < |m3| == |mA| && HeaderTypedAt(m, v)
    requires SameBody(m[v], m3[q]) && SameBody(m[v + 1], m3[q + 1]) && mA[q] == m3[q] && mA[q + 1] == m3[q + 1]
    ensures HeaderTypedAt(mA, q) && HeaderRead(mA, q) == (HeaderRead(m, v).0.(addr := q), HeaderRead(m, v).1)
  {
  }

  /** The facts of BorderMoved that are not about lists, for a block that grows. */
  lemma GrowFacts(m: Mem, s: State, i: nat, k: nat, m3: Mem, mA: Mem)
    requires i + 1 < |s.blocks| && UsedThenFree(m, s, i)
    requires s.blocks[i].size < k && k + HEADER < s.blocks[i].size + s.blocks[i + 1].size
    requires var (v, d) := (s.blocks[i + 1].addr, k - s.blocks[i].size);
      && BodiesMoved(m, m3, v, v + d)
      && FreedWritten(m3, mA, v, if d == 1 then v + 1 else v + HEADER)
    ensures var (b, c) := (s.blocks[i], MovedFree(s.blocks, i, k));
      && HeaderTypedAt(mA, b.addr) && HeaderRead(mA, b.addr) == (b, s.cookie)
      && HeaderTypedAt(mA, c.addr) && HeaderRead(mA, c.addr) == (c.(size := s.blocks[i + 1].size), s.cookie)
      && DataBytes(mA, b.(size := k)) && FreedAt(mA, c.Data(), c.End())
      && SameOutside(m, mA, b.addr, c.End())
      && (forall u {:trigger mA[u]} :: b.Data() <= u < b.End() && u < c.addr ==> mA[u] == m[u])
  {
    var b, c, o := s.blocks[i], MovedFree(s.blocks, i, k), s.blocks[i + 1];
    var v := o.addr;
    var d := k - b.size;
    assert SameBody(m[b.addr], m3[b.addr]) && SameBody(m[b.addr + 1], m3[b.addr + 1]);
    HeaderKept(m, m3, mA, b.addr, b.addr);
    HeaderKept(m, m3, mA, v, c.addr);
    hide HeaderRead, HeaderTypedAt;
    forall u | b.Data() <= u < b.End() && u < c.addr
      ensures mA[u] == m[u]
    {
      assert m[u].Bytes16() && SameBody(m[u], m3[u]);
    }
    forall u | b.End() <= u < c.addr
      ensures mA[u].Bytes16()
    {
      if u >= v + HEADER {
        assert m[u] == Fill(FREED_PADDING) && SameBody(m[u], m3[u]);
      }
    }
    forall u | c.Data() <= u < c.End()
      ensures mA[u] == Fill(FREED_PADDING)
    {
      assert m[u] == Fill(FREED_PADDING) && SameBody(m[u], m3[u]);
    }
    forall u | 0 <= u < |m| && !(b.addr <= u < c.End())
      ensures SameBody(m[u], mA[u])
    {
      assert SameBody(m[u], m3[u]);
    }
  }

  lemma GrowRoom(m: Mem, s: State, i: nat, k: nat)
    requires i + 1 < |s.blocks| && UsedThenFree(m, s, i)
    requires s.blocks[i].size < k && k + HEADER < s.blocks[i].size + s.blocks[i + 1].size
    ensures var (q, d) := (MovedFree(s.blocks, i, k).addr, k - s.blocks[i].size);
      && q == s.blocks[i + 1].addr + d && (!m[q].Entry? || d == 1) && !m[q + 1].Entry?
  {
    var q, o := MovedFree(s.blocks, i, k).addr, s.blocks[i + 1];
    assert m[q + 1] == Fill(FREED_PADDING);
    if q > o.addr + 1 {
      assert m[q] == Fill(FREED_PADDING);
    }
  }

  lemma GrowCanMove(m: Mem, s: State, i: nat, k: nat, c: Block, v: nat)
    requires Core(m, s) && i + 1 < |s.blocks| && s.blocks[i + 1].kind == FREE
    requires s.blocks[i].size < k && k + HEADER < s.blocks[i].size + s.blocks[i + 1].size
    requires c == MovedFree(s.blocks, i, k) && v == s.blocks[i + 1].addr
    ensures Travels(s, i, c.addr, m)
  {
    hide Core, Rings, CanMove, Moved, BodiesMoved, FreedAt, DataBytes, HeaderRead, OrderRing, FreeRing, UsedRing, Replaced,
      Travels;
    HeapUsedThenFree(m, s, i);
    CoreNamedRings(m, s);
    GrowRoom(m, s, i, k);
    var px := MoveFreeHeader(m, s, i, m, c.addr - v);
  }

  lemma GrowMoved(m: Mem, s: State, i: nat, k: nat, c: Block, v: nat, m3: Mem, mA: Mem)
    requires Core(m, s) && i + 1 < |s.blocks| && s.blocks[i].kind != FREE && s.blocks[i + 1].kind == FREE
    requires s.blocks[i].size < k && k + HEADER < s.blocks[i].size + s.blocks[i + 1].size
    requires c == MovedFree(s.blocks, i, k) && v == s.blocks[i + 1].addr
    requires HeaderTravelled(s, i, c.addr, m, m3)
    requires FreedWritten(m3, mA, v, if c.addr == v + 1 then v + 1 else v + HEADER)
    ensures BorderMoved(m, s, i, k, mA) && HeaderIs(mA, c.(size := s.blocks[i + 1].size), s.cookie)
  {
    hide Core, Rings, BodiesMoved, FreedAt, DataBytes, HeaderRead, OrderRing, FreeRing, UsedRing, Replaced;
    HeapUsedThenFree(m, s, i);
    var x, y, z := [FREE_HEAD] + Replaced(s.free, v, c.addr), UsedRing(s), OrderRing(s.blocks)[i + 2 := c.addr + 1];
    GrowFacts(m, s, i, k, m3, mA);
    FreedRings(m3, mA, v, if c.addr == v + 1 then v + 1 else v + HEADER, x, y, z);
  }

  // ---------------------------------------------------------------- a used block cut in two

  function CutBlock(bs: seq<Block>, i: nat, k: nat, junk: nat): Block
    requires i < |bs| && k + HEADER <= bs[i].size
  {
    Block(bs[i].addr + HEADER + k, bs[i].size - k - HEADER, FREE, junk)
  }

  /** Used block i cut to k paragraphs; the rest becomes a free block with an arbitrary PaddingSize. */
  function CutOff(s: State, i: nat, k: nat, pad: nat, junk: nat): (s': State)
    requires i < |s.blocks| && k + HEADER <= s.blocks[i].size
    ensures s' == s.(blocks := s'.blocks, free := s'.free) && |s'.blocks| == |s.blocks| + 1
  {
    var c := CutBlock(s.blocks, i, k, junk);
    s.(blocks := Splice(s.blocks, i, i + 1, [s.blocks[i].(size := k, pad := pad), c]), free := s.free + [c.addr])
  }

  /** InsertHeadList (block u in memory order, block c), then InsertTailList (free list, block c). */
  ghost predicate CanLinkCut(m: Mem, u: int, c: int) {
    CanInsertAfter(m, c + 1, u + 1) && CanAppend(LinkedBetween(m, u + 1, c + 1, m[u + 1].flink), c, FREE_HEAD)
  }

  function CutLinked(m: Mem, u: int, c: int): (m': Mem)
    requires CanLinkCut(m, u, c)
    ensures |m'| == |m|
  {
    var m1 := LinkedBetween(m, u + 1, c + 1, m[u + 1].flink);
    LinkedBetween(m1, m1[FREE_HEAD].blink, c, FREE_HEAD)
  }

  lemma OrderAndAppend(m: Mem, x: seq<int>, p: int, y: seq<int>, z: seq<int>, i: nat, u: int)
    requires Rings(m, x, y, z) && p !in x && p !in y && p !in z && i < |z| && z[i] == u + 1 && x[0] == FREE_HEAD
    requires p + 1 !in x && p + 1 !in y && p + 1 !in z
    requires 0 <= p && p + 1 < |m| && m[p].Entry? && m[p + 1].Entry?
    ensures CanLinkCut(m, u, p)
    ensures Rings(CutLinked(m, u, p), x + [p], y, WithAfter(z, i, p + 1)) && SameBodies(m, CutLinked(m, u, p))
  {
    hide Rings;
    InsertOne(m, z, i, p + 1, x, y);
    var m1 := LinkedBetween(m, z[i], p + 1, m[z[i]].flink);
    WithAfterMembers(z, i, p + 1);
    assert SameBody(m[p], m1[p]);
    AppendOne(m1, x, p, y, WithAfter(z, i, p + 1));
    SameBodiesTwice(m, m1, CutLinked(m, u, p));
  }

  /** Block i's bytes as far as the cut, and room for a header and data behind it. */
  lemma CutRoom(m: Mem, s: State, i: nat, k: nat, junk: nat)
    requires Core(m, s) && i < |s.blocks| && k + HEADER <= s.blocks[i].size
    ensures var c := CutBlock(s.blocks, i, k, junk);
      && c.End() == s.blocks[i].End() <= |m| && !m[c.addr].Entry? && !m[c.addr + 1].Entry?
      && m[c.addr + 1].Bytes16() && HeaderRead(m, c.addr).0.pad < 256
  {
    hide Core;
    HeapBlockOk(m, s, i);
    var c := CutBlock(s.blocks, i, k, junk);
    assert m[c.addr].Bytes16() && m[c.addr + 1].Bytes16();
  }

  lemma CutListed(m0: Mem, s: State, i: nat, k: nat, junk: nat, m1: Mem)
    requires Core(m0, s) && i < |s.blocks| && k + HEADER <= s.blocks[i].size
    requires var c := CutBlock(s.blocks, i, k, junk); c.End() <= |m0| && m1 == HeaderStored(m0, s.cookie, c)
    ensures var (u, c) := (s.blocks[i].addr, CutBlock(s.blocks, i, k, junk));
      && CanLinkCut(m1, u, c.addr)
      && i + 1 < |OrderRing(s.blocks)|
      && Rings(CutLinked(m1, u, c.addr), FreeRing(s) + [c.addr], UsedRing(s), WithAfter(OrderRing(s.blocks), i + 1, c.addr + 1))
      && SameBodies(m1, CutLinked(m1, u, c.addr))
  {
    hide Core, Rings, OrderRing, FreeRing, UsedRing, SameBodies, HeaderStored, CanLinkCut, CutLinked, SameOutside;
    var u, c := s.blocks[i].addr, CutBlock(s.blocks, i, k, junk);
    CoreNamedRings(m0, s);
    CutRoom(m0, s, i, k, junk);
    FreshHeader(m0, s.cookie, c, FreeRing(s), UsedRing(s), OrderRing(s.blocks));
    OrderEntry(m0, s, i);
    OrderAndAppend(m1, FreeRing(s), c.addr, UsedRing(s), OrderRing(s.blocks), i + 1, u);
  }

  /** Size and padding size stored, padding bytes written, checksum last: as if the header came
      first. */
  lemma PadThenSum(m: Mem, b: Block, cookie: nat, o: Block, m5: Mem)
    requires b.End() <= |m| && o.addr == b.addr && b == o.(size := b.size, pad := b.pad)
    requires HeaderTypedAt(m, b.addr) && HeaderRead(m, b.addr) == (o, cookie)
    requires PaddingWritten(PadSet(SizeSet(m, b.addr, b.size), b.addr, b.pad), m5, b)
    ensures PaddingWritten(HeaderStored(m, cookie, b), Summed(m5, b.addr), b)
  {
    hide Checksum, Summed;
    var m4 := PadSet(SizeSet(m, b.addr, b.size), b.addr, b.pad);
    SizePadStores(m, b.addr, b.size, b.pad, b, cookie);
    HeaderElsewhere(m4, m5, b.addr);
    SummedIsStored(m5, b.addr);
    var m6 := HeaderStored(m5, cookie, b);
    var mB := HeaderStored(m, cookie, b);
    forall u | 0 <= u < |m| && !(b.Data() <= u < b.End())
      ensures m6[u] == mB[u]
    {
      assert m5[u] == m4[u];
    }
    forall u | b.Data() <= u < b.End()
      ensures m6[u] == m5[u] && mB[u] == m4[u]
    {
    }
  }

  lemma CutFacts(m0: Mem, cookie: nat, o: Block, b: Block, c: Block, m1: Mem, m3: Mem, mB: Mem, m6: Mem, m7: Mem)
    requires BlockOk(m0, cookie, o) && o.addr == b.addr && c.addr == b.End() && c.End() == o.End()
    requires b.Live() && b.pad < 256 && b.pad <= PARAGRAPH * b.size && c.kind == FREE && c.pad < 256
    requires m1 == HeaderStored(m0, cookie, c) && SameBodies(m1, m3)
    requires mB == HeaderStored(m3, cookie, b) && PaddingWritten(mB, m6, b) && FreedWritten(m6, m7, c.Data(), c.End())
    ensures AllOk(m7, cookie, [b, c]) && SameOutside(m0, m7, b.addr, c.End())
    ensures BytesKept(m0, o, m7, b, Min(o.UserSize(), b.UserSize()))
    ensures forall u :: c.Data() <= u < c.End() ==> !m6[u].Entry?
    ensures DataBytes(m3, b)
  {
    hide Checksum;
    forall u | 0 <= u < |m0| && !(c.addr <= u < c.Data())
      ensures SameBody(m0[u], m3[u])
    {
      assert SameBody(m1[u], m3[u]);
    }
    CutB(m0, cookie, o, b, m3, mB, m6, m7, c);
    assert m7[c.addr] == m3[c.addr] && m7[c.addr + 1] == m3[c.addr + 1];
    CutC(m0, cookie, c, m1, m3, m7);
  }

  /** The rest of a cut block is a good free block once its data is filled. */
  lemma CutC(m0: Mem, cookie: nat, c: Block, m1: Mem, m3: Mem, m7: Mem)
    requires c.End() <= |m0| == |m7| && c.kind == FREE && c.pad < 256
    requires m1 == HeaderStored(m0, cookie, c) && SameBodies(m1, m3) && |m3| == |m0|
    requires m7[c.addr] == m3[c.addr] && m7[c.addr + 1] == m3[c.addr + 1]
    requires forall u :: c.Data() <= u < c.End() ==> m7[u] == Fill(FREED_PADDING)
    ensures BlockOk(m7, cookie, c)
  {
    hide Checksum;
    assert SameBody(m1[c.addr], m3[c.addr]) && SameBody(m1[c.addr + 1], m3[c.addr + 1]);
  }

  lemma CutB(m0: Mem, cookie: nat, o: Block, b: Block, m3: Mem, mB: Mem, m6: Mem, m7: Mem, c: Block)
    requires BlockOk(m0, cookie, o) && o.addr == b.addr && c.addr == b.End() && c.End() == o.End() <= |m0| == |m3|
    requires b.Live() && b.pad < 256 && b.pad <= PARAGRAPH * b.size
    requires forall u {:trigger m3[u]} :: 0 <= u < |m0| && !(c.addr <= u < c.Data()) ==> SameBody(m0[u], m3[u])
    requires mB == HeaderStored(m3, cookie, b) && PaddingWritten(mB, m6, b) && FreedWritten(m6, m7, c.Data(), c.End())
    ensures BlockOk(m7, cookie, b) && SameOutside(m0, m7, b.addr, c.End())
    ensures BytesKept(m0, o, m7, b, Min(o.UserSize(), b.UserSize()))
    ensures forall u :: c.Data() <= u < c.End() ==> !m6[u].Entry?
    ensures DataBytes(m3, b)
  {
    hide Checksum;
    forall u | o.Data() <= u < o.End() && !(c.addr <= u < c.Data())
      ensures m3[u] == m0[u] && m0[u].Bytes16()
    {
      assert SameBody(m0[u], m3[u]);
    }
    StoredBlockOk(m3, mB, m6, cookie, b);
    BlockFrame(m6, m7, cookie, b);
    forall u | 0 <= u < |m0| && !(b.addr <= u < c.End())
      ensures SameBody(m0[u], m7[u])
    {
      assert SameBody(m0[u], m3[u]);
    }
    var n := Min(o.UserSize(), b.UserSize());
    forall j | 0 <= j < o.size && j < b.size
      ensures ParagraphKept(m0, o, m7, b, j, n)
    {
      var u := b.Data() + j;
      assert m3[u] == m0[u] && mB[u] == m3[u] && m7[u] == m6[u];
      forall k | 0 <= k < PARAGRAPH && k < n - PARAGRAPH * j
        ensures m7[u].b[k] == m0[u].b[k]
      {
        assert m6[u].b[k] == mB[u].b[k];
      }
    }
  }

  lemma CutShape(s: State, i: nat, k: nat, pad: nat, junk: nat, b: Block, c: Block)
    requires i < |s.blocks| && k + HEADER <= s.blocks[i].size
    requires b == s.blocks[i].(size := k, pad := pad) && c == CutBlock(s.blocks, i, k, junk)
    ensures var s' := CutOff(s, i, k, pad, junk);
      && s' == s.(blocks := Splice(s.blocks, i, i + 1, [b, c]), free := s'.free)
      && FreeRing(s') == FreeRing(s) + [c.addr]
      && UsedRing(s') == UsedRing(s)
      && i + 1 < |OrderRing(s.blocks)|
      && OrderRing(s'.blocks) == WithAfter(OrderRing(s.blocks), i + 1, c.addr + 1)
      && Tiled([b, c], s.blocks[i].addr, s.blocks[i].End())
  {
    OrderRingSplit(s.blocks, i, b, c);
    TwoTile(b, c);
  }

  lemma CutFollows(s: State, i: nat, k: nat, pad: nat, junk: nat, b: Block, c: Block)
    requires Tiled(s.blocks, s.base, s.limit) && Listed(s)
    requires i < |s.blocks| && k + HEADER <= s.blocks[i].size && s.blocks[i].kind != FREE
    requires b == s.blocks[i].(size := k, pad := pad) && c == CutBlock(s.blocks, i, k, junk)
    ensures ListsFollow(s, CutOff(s, i, k, pad, junk), i, i + 1, [b, c])
  {
    var s', o := CutOff(s, i, k, pad, junk), s.blocks[i];
    forall a | o.addr <= a < o.End() && (a in s.free || a in s.used)
      ensures a == o.addr
    {
      OnlyOwnAddress(s.blocks, s.base, s.limit, i, a);
    }
    assert [b, c][0].addr == b.addr && [b, c][1].addr == c.addr;
    assert c.addr !in s.free && c.addr !in s.used;
  }

  lemma CutCore(m0: Mem, s: State, i: nat, b: Block, c: Block, m1: Mem, m3: Mem, m5: Mem, m6: Mem, m7: Mem)
    requires Core(m0, s) && i < |s.blocks| && s.blocks[i].Live() && b.size + HEADER <= s.blocks[i].size
    requires b == s.blocks[i].(size := b.size, pad := b.pad) && c == CutBlock(s.blocks, i, b.size, c.pad)
    requires b.pad < 256 && b.pad <= PARAGRAPH * b.size && c.pad < 256 && c.End() <= |m0|
    requires m1 == HeaderStored(m0, s.cookie, c)
    requires CanLinkCut(m1, b.addr, c.addr) && m3 == CutLinked(m1, b.addr, c.addr)
    requires PaddingWritten(PadSet(SizeSet(m3, b.addr, b.size), b.addr, b.pad), m5, b)
    requires m6 == Summed(m5, b.addr) && FreedWritten(m6, m7, c.Data(), c.End())
    ensures Core(m7, CutOff(s, i, b.size, b.pad, c.pad))
    ensures OthersKept(m0, s, m7, CutOff(s, i, b.size, b.pad, c.pad), b.addr)
    ensures BytesKept(m0, s.blocks[i], m7, b, Min(s.blocks[i].UserSize(), b.UserSize()))
  {
    hide Core, Rings, AllOk, Listed, Layout, Tiled, BlockOk, SameOutside, SameBodies, ListsFollow, OthersKept, CutOff,
      OrderRing, Splice, FreeRing, UsedRing, HeaderStored, PaddingWritten, FreedWritten, BytesKept, CanLinkCut, CutLinked,
      HeaderTypedAt, HeaderRead, Summed, PadSet, SizeSet, DataBytes;
    var o := s.blocks[i];
    CoreNamed(m0, s);
    HeapBlockOk(m0, s, i);
    CutListed(m0, s, i, b.size, c.pad, m1);
    CutHeader(m0, s, i, c, m1, m3);
    PadThenSum(m3, b, s.cookie, o, m5);
    var mB := HeaderStored(m3, s.cookie, b);
    CutFacts(m0, s.cookie, o, b, c, m1, m3, mB, m6, m7);
    var x, y, z := FreeRing(s) + [c.addr], UsedRing(s), WithAfter(OrderRing(s.blocks), i + 1, c.addr + 1);
    CutRings(m3, s.cookie, b, c, mB, m6, m7, x, y, z);
    CutShape(s, i, b.size, b.pad, c.pad, b, c);
    CutFollows(s, i, b.size, b.pad, c.pad, b, c);
    var s' := CutOff(s, i, b.size, b.pad, c.pad);
    SpliceCore(m0, s, m7, s', i, i + 1, [b, c]);
    LayoutLimit(m0, s);
    SpliceKeepsOthers(m0, s, m7, s', i, i + 1, [b, c], b.addr);
  }

  lemma CutRings(m3: Mem, cookie: nat, b: Block, c: Block, mB: Mem, m6: Mem, m7: Mem, x: seq<int>, y: seq<int>, z: seq<int>)
    requires Rings(m3, x, y, z) && HeaderTypedAt(m3, b.addr) && b.End() <= |m3| && DataBytes(m3, b)
    requires mB == HeaderStored(m3, cookie, b) && PaddingWritten(mB, m6, b) && FreedWritten(m6, m7, c.Data(), c.End())
    requires forall u :: c.Data() <= u < c.End() ==> !m6[u].Entry?
    ensures Rings(m7, x, y, z)
  {
    hide Rings;
    HeaderStoredRings(m3, mB, cookie, b, x, y, z);
    DataWrittenRings(mB, m6, b.Data(), b.End(), x, y, z);
    DataWrittenRings(m6, m7, c.Data(), c.End(), x, y, z);
  }

  lemma CutHeader(m0: Mem, s: State, i: nat, c: Block, m1: Mem, m3: Mem)
    requires Core(m0, s) && i < |s.blocks| && s.blocks[i].Data() <= c.addr && c.End() <= |m0|
    requires m1 == HeaderStored(m0, s.cookie, c) && SameBodies(m1, m3)
    ensures HeaderTypedAt(m3, s.blocks[i].addr) && HeaderRead(m3, s.blocks[i].addr) == (s.blocks[i], s.cookie)
  {
    hide Core, Checksum;
    HeaderTyped(m0, s, i);
    HeaderReads(m0, s, i);
    HeaderElsewhere(m0, m1, s.blocks[i].addr);
    SameHeaderRead(m1, m3, s.blocks[i].addr);
  }

  // ---------------------------------------------------------------- neighbours stay apart

  lemma ShiftedNoAdjacent(s: State, i: nat, k: nat, pad: nat)
    requires NoAdjacentFree(s.blocks) && i + 1 < |s.blocks| && k < s.blocks[i].size + s.blocks[i + 1].size
    requires s.blocks[i].kind != FREE
    ensures NoAdjacentFree(Shifted(s, i, k, pad).blocks)
  {
    var r := Shifted(s, i, k, pad).blocks;
    forall j | 0 <= j < |r| - 1
      ensures !BothFree(r, j)
    {
      assert !BothFree(s.blocks, j);
    }
  }

  lemma CutOffNoAdjacent(s: State, i: nat, k: nat, pad: nat, junk: nat)
    requires NoAdjacentFree(s.blocks) && i < |s.blocks| && k + HEADER <= s.blocks[i].size
    requires s.blocks[i].kind != FREE && (i + 1 < |s.blocks| ==> s.blocks[i + 1].kind != FREE)
    ensures NoAdjacentFree(CutOff(s, i, k, pad, junk).blocks)
  {
    var r := CutOff(s, i, k, pad, junk).blocks;
    forall j | 0 <= j < |r| - 1
      ensures !BothFree(r, j)
    {
      assert j < i ==> !BothFree(s.blocks, j);
      assert j > i + 1 ==> !BothFree(s.blocks, j - 1);
    }
  }

  lemma ShiftedAt(s: State, i: nat, k: nat, pad: nat)
    requires i + 1 < |s.blocks| && k < s.blocks[i].size + s.blocks[i + 1].size
    ensures Shifted(s, i, k, pad).blocks[i] == s.blocks[i].(size := k, pad := pad)
  {
  }

  lemma BorderDataRaw(mA: Mem, s: State, i: nat, k: nat, b: Block, m: Mem)
    requires i < |s.blocks| && b.addr == s.blocks[i].addr && b.size == k && b.End() <= |mA|
    requires DataBytes(mA, s.blocks[i].(size := k))
    requires m == PadSet(SizeSet(mA, b.addr, k), b.addr, b.pad)
    ensures DataBytes(m, b)
  {
  }

  ghost predicate HeaderIs(m: Mem, b: Block, cookie: nat) {
    HeaderTypedAt(m, b.addr) && HeaderRead(m, b.addr) == (b, cookie)
  }

  lemma BorderParts(m: Mem, s: State, i: nat, k: nat, mA: Mem)
    requires Core(m, s) && i + 1 < |s.blocks| && k < s.blocks[i].size + s.blocks[i + 1].size
    requires BorderMoved(m, s, i, k, mA)
    ensures HeaderTypedAt(mA, s.blocks[i].addr) && HeaderRead(mA, s.blocks[i].addr) == (s.blocks[i], s.cookie)
    ensures HeaderTypedAt(mA, MovedFree(s.blocks, i, k).addr) && MovedFree(s.blocks, i, k).End() <= |mA| == |m|
    ensures DataBytes(mA, s.blocks[i].(size := k))
  {
  }

  /** The border moved, and the free block's header already tells its new size. */
  ghost predicate BorderBack(m: Mem, s: State, i: nat, k: nat, mA: Mem) {
    && i + 1 < |s.blocks| && k < s.blocks[i].size + s.blocks[i + 1].size
    && BorderMoved(m, s, i, k, mA) && HeaderIs(mA, MovedFree(s.blocks, i, k), s.cookie)
  }

  /** The border moved, and the free block's header still tells its old size. */
  ghost predicate BorderAhead(m: Mem, s: State, i: nat, k: nat, mA: Mem) {
    && i + 1 < |s.blocks| && k < s.blocks[i].size + s.blocks[i + 1].size
    && BorderMoved(m, s, i, k, mA) && HeaderIs(mA, MovedFree(s.blocks, i, k).(size := s.blocks[i + 1].size), s.cookie)
  }

  lemma GrownDataRaw(mA: Mem, b: Block, c: Block, cookie: nat, o: Block, mB: Mem)
    requires c.addr == b.End() && c.End() <= |mA| && o.addr == b.addr
    requires DataBytes(mA, o.(size := b.size))
    requires mB == HeaderStored(HeaderStored(mA, cookie, b), cookie, c)
    ensures DataBytes(mB, b)
  {
    hide Checksum;
    forall v | b.Data() <= v < b.End()
      ensures mB[v].Bytes16()
    {
      assert mA[v].Bytes16();
    }
  }

  lemma CutDataRaw(m0: Mem, s: State, i: nat, b: Block, c: Block, m1: Mem, m3: Mem, m4: Mem)
    requires Core(m0, s) && i < |s.blocks| && b.addr == s.blocks[i].addr && c.addr == b.End() && c.End() == s.blocks[i].End() <= |m0|
    requires m1 == HeaderStored(m0, s.cookie, c) && SameBodies(m1, m3)
    requires m4 == PadSet(SizeSet(m3, b.addr, b.size), b.addr, b.pad)
    ensures DataBytes(m4, b)
  {
    hide Core, Checksum;
    HeapBlockOk(m0, s, i);
    forall v | b.Data() <= v < b.End()
      ensures m4[v].Bytes16()
    {
      assert m0[v].Bytes16() && m1[v] == m0[v] && SameBody(m1[v], m3[v]);
    }
  }

  lemma CutOffAt(s: State, i: nat, k: nat, pad: nat, junk: nat)
    requires i < |s.blocks| && k + HEADER <= s.blocks[i].size
    ensures CutOff(s, i, k, pad, junk).blocks[i] == s.blocks[i].(size := k, pad := pad)
  {
  }

  // ---------------------------------------------------------------- set-up

  ghost predicate FreshLists(m: Mem, base: nat) {
    && ORDER_HEAD < base && base + HEADER < |m|
    && (forall h :: 0 <= h <= ORDER_HEAD ==> m[h] == Entry(Anchor, h, h))
    && HeaderTypedAt(m, base)
  }

  /** The three list heads empty, then the one block entered in two of them. */
  lemma EmptyLists(m: Mem, base: nat)
    requires FreshLists(m, base)
    ensures CanAppend(m, base, FREE_HEAD)
    ensures var m1 := LinkedBetween(m, m[FREE_HEAD].blink, base, FREE_HEAD);
      && CanAppend(m1, base + 1, ORDER_HEAD)
      && var m2 := LinkedBetween(m1, m1[ORDER_HEAD].blink, base + 1, ORDER_HEAD);
         Rings(m2, [FREE_HEAD, base], [USED_HEAD], [ORDER_HEAD, base + 1]) && SameBodies(m, m2)
  {
    hide Ring;
    OneRing(m, FREE_HEAD);
    OneRing(m, USED_HEAD);
    OneRing(m, ORDER_HEAD);
    AppendOne(m, [FREE_HEAD], base, [USED_HEAD], [ORDER_HEAD]);
    var m1 := LinkedBetween(m, m[FREE_HEAD].blink, base, FREE_HEAD);
    assert [FREE_HEAD] + [base] == [FREE_HEAD, base];
    assert SameBody(m[base + 1], m1[base + 1]);
    RingsRolled(m1, [FREE_HEAD, base], [USED_HEAD], [ORDER_HEAD]);
    AppendOne(m1, [ORDER_HEAD], base + 1, [FREE_HEAD, base], [USED_HEAD]);
    var m2 := LinkedBetween(m1, m1[ORDER_HEAD].blink, base + 1, ORDER_HEAD);
    assert [ORDER_HEAD] + [base + 1] == [ORDER_HEAD, base + 1];
    RingsRolled(m2, [ORDER_HEAD, base + 1], [FREE_HEAD, base], [USED_HEAD]);
    SameBodiesTwice(m, m1, m2);
  }

  lemma OneRing(m: Mem, h: int)
    requires 0 <= h < |m| && m[h] == Entry(Anchor, h, h)
    ensures Ring(m, [h])
  {
  }

  lemma FirstStores(m: Mem, u: nat, size: nat, cookie: nat, b: Block)
    requires u + 1 < |m| && b == Block(u, size, FREE, HeaderRead(m, u).0.pad) && b.End() <= |m|
    ensures Summed(CookieSet(SizeSet(KindSet(m, u, FREE), u, size), u, cookie), u) == HeaderStored(m, cookie, b)
  {
    hide Summed, CookieSet, KindSet, SizeSet, HeaderStored, HeaderRead;
    FieldStores(m, u, FREE);
    var m1 := KindSet(m, u, FREE);
    FieldStores(m1, u, size);
    var m2 := SizeSet(m1, u, size);
    FieldStores(m2, u, cookie);
    var m3 := CookieSet(m2, u, cookie);
    assert HeaderRead(m3, u) == (b, cookie);
    SummedIsStored(m3, u);
    StoredAbsorbs(m2, u, cookie, cookie, b);
    StoredAbsorbs(m1, u, size, cookie, b);
    StoredAbsorbs(m, u, FREE, cookie, b);
  }

  lemma FirstCore(m0: Mem, m1: Mem, m2: Mem, m3: Mem, b: Block, s: State)
    requires FreshLists(m0, b.addr) && |m0| == b.End() <= 0x1000_0000 && SameBodies(m0, m1)
    requires Rings(m1, [FREE_HEAD, b.addr], [USED_HEAD], [ORDER_HEAD, b.addr + 1])
    requires b.kind == FREE && b.pad < 256 && HeaderTypedAt(m1, b.addr)
    requires forall u :: b.Data() <= u < b.End() ==> !m1[u].Entry?
    requires s == State(b.addr, |m0|, s.cookie, [b], [b.addr], [])
    requires m2 == HeaderStored(m1, s.cookie, b) && FreedWritten(m2, m3, b.Data(), b.End())
    ensures Inv(m3, s)
  {
    hide Rings, Checksum;
    HeaderStoredRings(m1, m2, s.cookie, b, [FREE_HEAD, b.addr], [USED_HEAD], [ORDER_HEAD, b.addr + 1]);
    DataWrittenRings(m2, m3, b.Data(), b.End(), [FREE_HEAD, b.addr], [USED_HEAD], [ORDER_HEAD, b.addr + 1]);
    assert FreeRing(s) == [FREE_HEAD, b.addr] && UsedRing(s) == [USED_HEAD];
    assert OrderRing(s.blocks) == [ORDER_HEAD, b.addr + 1];
    assert BlockOk(m3, s.cookie, b);
    OneTiles(b);
    assert s.blocks[0] == b;
    assert b.addr in s.free && IsBlock(s.blocks, b.addr) by {
      assert s.free[0] == b.addr;
    }
    forall h | 0 <= h <= ORDER_HEAD
      ensures m3[h].Entry? && m3[h].body == Anchor
    {
      assert SameBody(m0[h], m1[h]);
    }
  }

  lemma OwnedByte(m: Mem, cookie: nat, b: Block, k: nat, c: Byte)
    requires BlockOk(m, cookie, b) && b.Live() && k < b.UserSize()
    ensures var v := b.Data() + k / PARAGRAPH;
      && b.Data() <= v < b.End() <= |m| && m[v].Bytes16()
      && OwnerWrote(m, m[v := Raw(m[v].b[k % PARAGRAPH := c])], b)
  {
    var v, q := b.Data() + k / PARAGRAPH, k % PARAGRAPH;
    assert PARAGRAPH * (k / PARAGRAPH) + q == k;
    assert k < PARAGRAPH * b.size;
    assert m[v].Bytes16();
  }

  lemma PadTravels(m0: Mem, m1: Mem, u: nat)
    requires HeaderTypedAt(m0, u) && SameBodies(m0, m1)
    ensures u + 1 < |m1| && HeaderTypedAt(m1, u) && HeaderRead(m1, u).0.pad == m0[u + 1].body.pad
  {
    SameHeaderRead(m0, m1, u);
  }
}
