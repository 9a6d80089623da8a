/** The kernel heap of kernel/ex.cpp: allocation, freeing, reallocation, locking. */
module KernelHeap {
  import opened Common
  import opened HeapMemory
  import opened HeapState
  import opened HeapSplice
  import opened HeapSteps
  import opened HeapResize

  const ULONG := 0x1_0000_0000
  /** The largest request ALIGN_UP can round without wrapping. */
  const MAX_REQUEST := 0xFFFF_FFF0

  type Ulong = x: int | 0 <= x < ULONG

  /** ALIGN_UP (Size, EX_HEAP_ALIGN) / EX_HEAP_ALIGN in 32-bit arithmetic. */
  function Units(n: Ulong): nat {
    (if n % PARAGRAPH != 0 then (n / PARAGRAPH * PARAGRAPH + PARAGRAPH) % ULONG else n) / PARAGRAPH
  }

  /** Rounding a request up leaves room for it exactly when the rounding does not wrap. */
  lemma UnitsHoldRequest(n: Ulong)
    ensures PARAGRAPH * Units(n) >= n <==> n <= MAX_REQUEST
    ensures n <= MAX_REQUEST ==> PARAGRAPH * Units(n) < n + PARAGRAPH
    ensures n > MAX_REQUEST ==> Units(n) == 0
  {
  }

  /** The padding byte of a block of Units(n) paragraphs: what rounding adds, unless it wraps. */
  lemma PadOf(n: Ulong)
    ensures var pad := (PARAGRAPH * Units(n) - n) % 256;
      && pad < PARAGRAPH && (pad > PARAGRAPH * Units(n) <==> n > MAX_REQUEST)
      && (n <= MAX_REQUEST ==> pad == PARAGRAPH * Units(n) - n)
  {
    hide Units;
    UnitsHoldRequest(n);
    var x := PARAGRAPH * Units(n) - n;
    if n <= MAX_REQUEST {
      ByteIsRest(x, 0, x);
    } else {
      ByteIsRest(x, -(ULONG / 256), x + ULONG);
    }
  }

  lemma ByteIsRest(x: int, q: int, r: int)
    requires x == 256 * q + r && 0 <= r < 256
    ensures x % 256 == r
  {
  }

  datatype Failure = COOKIE_MISMATCH | CHECKSUM_MISMATCH | OVERFLOW_DETECTED | NO_FREE_PATTERN
    | LOCKED_FREEING | DOUBLE_FREEING | FREE_REALLOCATING | LOCKED_REALLOCATING
    | DOUBLE_LOCKING | FREE_LOCKING | NOT_LOCKED

  /** The failures ExpCheckBlockValid reports. */
  const VALIDATION := {COOKIE_MISMATCH, CHECKSUM_MISMATCH, OVERFLOW_DETECTED, NO_FREE_PATTERN}

  datatype Verdict = Passed | Failed(why: Failure)

  /** What a call ends in: a data pointer (the paragraph after the header), NULL, a plain return, a
      system stop, or a padding fill that would start before the block's own data. */
  datatype Outcome = Ptr(u: nat) | Null | Done | Bugcheck(why: Failure) | Overrun

  /** ExpCheckBlockValid does not stop the system on the block whose header starts at u. */
  ghost predicate Passes(m: Mem, cookie: nat, u: nat)
    requires u + HEADER <= |m|
  {
    var f, k := ViewFront(m[u]).body, ViewBack(m[u + 1]).body;
    var b := Block(u, f.size, k.kind, k.pad);
    && k.cookie == cookie
    && f.magic1 == b.Magic(k.cookie) && k.magic2 == b.Magic(k.cookie)
    && b.End() <= |m|
    && (k.kind == ALLOCATED ==> PaddingPattern(m, b))
    && (k.kind == FREE && f.size < 65536 ==> FreePattern(m, b))
  }

  /** If the checksums of the header at u are right, the block lies in memory, data and padding. */
  ghost predicate Readable(m: Mem, cookie: nat, u: nat)
    requires u + HEADER <= |m|
  {
    var f, k := ViewFront(m[u]).body, ViewBack(m[u + 1]).body;
    var b := Block(u, f.size, k.kind, k.pad);
    k.cookie == cookie && f.magic1 == b.Magic(k.cookie) && k.magic2 == b.Magic(k.cookie) ==>
      b.End() <= |m| && (k.kind == ALLOCATED ==> k.pad <= PARAGRAPH * f.size) && DataBytes(m, b)
  }

  lemma GoodBlockPasses(m: Mem, cookie: nat, b: Block)
    requires BlockOk(m, cookie, b)
    ensures Passes(m, cookie, b.addr) && Readable(m, cookie, b.addr)
  {
  }

  /** Block i is a least sufficient free block, and the first such on the free list. */
  ghost predicate BestFit(s: State, i: nat, k: nat) {
    && i < |s.blocks| && s.blocks[i].kind == FREE && s.blocks[i].size >= k
    && (forall j :: 0 <= j < |s.blocks| && s.blocks[j].kind == FREE && s.blocks[j].size >= k ==>
      s.blocks[i].size <= s.blocks[j].size)
    && (exists p :: 0 <= p < |s.free| && s.free[p] == s.blocks[i].addr && NoneAsGood(s, p, k, s.blocks[i].size))
  }

  /** No block among the first p on the free list holds k and is no larger than size. */
  ghost predicate NoneAsGood(s: State, p: nat, k: nat, size: nat)
    requires p <= |s.free|
  {
    forall j :: 0 <= j < |s.blocks| && s.blocks[j].addr in s.free[..p] ==> !(k <= s.blocks[j].size <= size)
  }

  lemma SameAddressSameBlock(bs: seq<Block>, base: nat, limit: nat, i: nat, j: nat)
    requires Tiled(bs, base, limit) && i < |bs| && j < |bs| && bs[i].addr == bs[j].addr
    ensures i == j
  {
    if i < j {
      TiledOrder(bs, base, limit, i, j);
    } else if j < i {
      TiledOrder(bs, base, limit, j, i);
    }
  }

  /** The entry after the head, and after each listed block, leads to the next listed block. */
  lemma FreeListWalk(m: Mem, s: State, p: nat)
    requires Core(m, s) && p <= |s.free|
    ensures var u := if p == 0 then FREE_HEAD else s.free[p - 1];
      && 0 <= u < |m| && m[u].Entry?
      && m[u].flink == (if p < |s.free| then s.free[p] else FREE_HEAD)
    ensures p < |s.free| ==> s.free[p] != FREE_HEAD && IsBlock(s.blocks, s.free[p])
  {
    var F := FreeRing(s);
    assert m[F[p]].flink == Succ(F, p);
    assert F[p] == if p == 0 then FREE_HEAD else s.free[p - 1];
    if p < |s.free| {
      assert F[p + 1] == s.free[p] && F[0] == FREE_HEAD;
      assert s.free[p] in s.free;
    }
  }

  /** The p-th block on the free list, as its header tells. */
  lemma FreeListVisit(m: Mem, s: State, p: nat) returns (here: nat)
    requires Core(m, s) && p < |s.free|
    ensures var u := s.free[p];
      && u != FREE_HEAD && 0 <= u && u + HEADER <= |m|
      && Readable(m, s.cookie, u) && Passes(m, s.cookie, u) && IdealAt(m, s, u, here)
      && m[u].flink == (if p + 1 < |s.free| then s.free[p + 1] else FREE_HEAD)
  {
    hide Core, Passes, Readable, BlockOk;
    FreeListWalk(m, s, p);
    FreeListWalk(m, s, p + 1);
    here :| 0 <= here < |s.blocks| && s.blocks[here].addr == s.free[p];
    FreeHeader(m, s, p, here);
    BlockOfHeap(m, s, here);
  }

  lemma FreeHeader(m: Mem, s: State, p: nat, here: nat)
    requires Core(m, s) && p < |s.free| && here < |s.blocks| && s.blocks[here].addr == s.free[p]
    ensures IdealAt(m, s, s.free[p], here) && s.free[p] + HEADER <= |m|
  {
    hide Core, Rings, Tiled, Layout;
    CoreNamed(m, s);
    assert s.free[p] in s.free;
    HeapBlockOk(m, s, here);
  }

  /** The free block i starts at u, and its header tells its size. */
  ghost predicate IdealAt(m: Mem, s: State, u: nat, i: nat) {
    && i < |s.blocks| && s.blocks[i].addr == u && s.blocks[i].kind == FREE
    && u < |m| && m[u].Entry? && m[u].body.Front? && m[u].body.size == s.blocks[i].size
  }

  /** Of the first pos blocks on the free list, block i (found at position at) is the one
      ExpFindIdealBlock would keep; found is false when none is large enough. */
  ghost predicate Scanned(s: State, k: nat, pos: nat, found: bool, i: nat, at: nat) {
    && pos <= |s.free|
    && (!found ==> forall j :: 0 <= j < |s.blocks| && s.blocks[j].addr in s.free[..pos] ==> s.blocks[j].size < k)
    && (found ==>
      && i < |s.blocks| && s.blocks[i].size >= k && at < pos && s.free[at] == s.blocks[i].addr
      && (forall j :: 0 <= j < |s.blocks| && s.blocks[j].addr in s.free[..pos] && s.blocks[j].size >= k ==>
        s.blocks[i].size <= s.blocks[j].size)
      && NoneAsGood(s, at, k, s.blocks[i].size))
  }

  lemma ScanStart(s: State, k: nat)
    ensures Scanned(s, k, 0, false, 0, 0)
  {
  }

  lemma CoreParts(m: Mem, s: State)
    requires Core(m, s)
    ensures Tiled(s.blocks, s.base, s.limit) && Listed(s)
    ensures forall p :: 0 <= p < |s.free| ==> s.free[p] != FREE_HEAD
  {
    hide Core, Tiled, AllOk, Listed, Layout;
    CoreNamed(m, s);
    var F := FreeRing(s);
    forall p | 0 <= p < |s.free|
      ensures s.free[p] != FREE_HEAD
    {
      assert F[p + 1] == s.free[p] && F[0] == FREE_HEAD;
    }
  }

  lemma ScanStep(s: State, k: nat, pos: nat, found: bool, i: nat, at: nat, here: nat)
    requires Tiled(s.blocks, s.base, s.limit) && Scanned(s, k, pos, found, i, at)
    requires pos < |s.free| && here < |s.blocks| && s.free[pos] == s.blocks[here].addr
    ensures if s.blocks[here].size >= k && (!found || s.blocks[here].size < s.blocks[i].size)
      then Scanned(s, k, pos + 1, true, here, pos)
      else Scanned(s, k, pos + 1, found, i, at)
  {
    forall j | 0 <= j < |s.blocks| && s.blocks[j].addr in s.free[..pos + 1]
      ensures j == here || s.blocks[j].addr in s.free[..pos]
    {
      if s.blocks[j].addr == s.blocks[here].addr {
        SameAddressSameBlock(s.blocks, s.base, s.limit, j, here);
      }
    }
  }

  lemma ScanEnd(s: State, k: nat, found: bool, i: nat, at: nat)
    requires Listed(s) && Scanned(s, k, |s.free|, found, i, at)
    ensures !found ==> forall j :: 0 <= j < |s.blocks| && s.blocks[j].kind == FREE ==> s.blocks[j].size < k
    ensures found ==> BestFit(s, i, k)
  {
    assert s.free[..|s.free|] == s.free;
    if found {
      assert s.blocks[i].addr in s.free;
    }
  }

  lemma BlockOfHeap(m: Mem, s: State, i: nat)
    requires Core(m, s) && i < |s.blocks|
    ensures var b := s.blocks[i]; s.base <= b.addr && BlockOk(m, s.cookie, b)
    ensures Passes(m, s.cookie, s.blocks[i].addr) && Readable(m, s.cookie, s.blocks[i].addr)
  {
    TiledApart(s.blocks, s.base, s.limit);
    GoodBlockPasses(m, s.cookie, s.blocks[i]);
  }

  /** The heap after a request of n bytes is served from free block i. */
  function Taken(s: State, i: nat, n: Ulong): State
    requires n <= MAX_REQUEST && i < |s.blocks| && Units(n) <= s.blocks[i].size
  {
    UnitsHoldRequest(n);
    if s.blocks[i].size - Units(n) <= HEADER then TakenWhole(s, i, n) else TakenPart(s, i, n, Units(n))
  }

  /** No block starts at u any more, and what lies there does not pass for a header. */
  ghost predicate Stale(m: Mem, s: State, u: nat) {
    u + HEADER <= |m| && !IsBlock(s.blocks, u) && Readable(m, s.cookie, u) && !Passes(m, s.cookie, u)
  }

  /** The erased header of a block that was merged away is such a place. */
  lemma ErasedIsStale(m: Mem, s: State, u: nat)
    requires Core(m, s) && Erased(m, u)
    ensures Stale(m, s, u) && HeaderRead(m, u).0.kind == FREED_PADDING
  {
    hide Core, Erased, FreedAt;
    ErasedFails(m, u);
    ErasedReads(m, u);
    ErasedIsNoBlock(m, s, u);
  }

  lemma ErasedIsNoBlock(m: Mem, s: State, u: nat)
    requires Core(m, s) && Erased(m, u)
    ensures u + HEADER <= |m| && !IsBlock(s.blocks, u)
  {
    hide Core, BlockOk;
    if IsBlock(s.blocks, u) {
      var i :| 0 <= i < |s.blocks| && s.blocks[i].addr == u;
      HeaderTyped(m, s, i);
    }
  }

  /** The block that starts at u, if one does; otherwise what lies there fails the test. */
  lemma FindBlock(m: Mem, s: State, u: nat) returns (i: nat)
    requires Core(m, s) && (IsBlock(s.blocks, u) || Stale(m, s, u))
    ensures u + HEADER <= |m| && Readable(m, s.cookie, u)
    ensures IsBlock(s.blocks, u) ==>
      && i < |s.blocks| && s.blocks[i].addr == u && Passes(m, s.cookie, u)
      && ViewBack(m[u + 1]).body.kind == s.blocks[i].kind
      && s.blocks[i].kind in {FREE, ALLOCATED, LOCKED}
      && (forall j :: 0 <= j < |s.blocks| && s.blocks[j].addr == u ==> j == i)
    ensures !IsBlock(s.blocks, u) ==> !Passes(m, s.cookie, u)
  {
    hide Core;
    i := 0;
    if IsBlock(s.blocks, u) {
      i :| 0 <= i < |s.blocks| && s.blocks[i].addr == u;
      BlockOfHeap(m, s, i);
      CoreParts(m, s);
      forall j | 0 <= j < |s.blocks| && s.blocks[j].addr == u
        ensures j == i
      {
        SameAddressSameBlock(s.blocks, s.base, s.limit, i, j);
      }
    }
  }

  /** Block i now holds n bytes, the border to the free block behind it moved to fit; its bytes and
      all other blocks are kept. */
  ghost predicate ResizedByBorder(m: Mem, s: State, i: nat, n: Ulong, m': Mem, s': State) {
    && n <= PARAGRAPH * Units(n)
    && i + 1 < |s.blocks| && Units(n) < s.blocks[i].size + s.blocks[i + 1].size
    && s' == Shifted(s, i, Units(n), PARAGRAPH * Units(n) - n)
    && OthersKept(m, s, m', s', s.blocks[i].addr)
    && BytesKept(m, s.blocks[i], m', s'.blocks[i], Min(s.blocks[i].UserSize(), n))
  }

  /** Block i now holds n bytes and the rest of it is a free block; its bytes and all other blocks
      are kept.  The PaddingSize of the free block is the byte that lay there. */
  ghost predicate ResizedByCut(m: Mem, s: State, i: nat, n: Ulong, m': Mem, s': State) {
    && n <= PARAGRAPH * Units(n)
    && i < |s.blocks| && Units(n) + HEADER <= s.blocks[i].size && s.blocks[i].End() <= |m|
    && s' == CutOff(s, i, Units(n), PARAGRAPH * Units(n) - n, HeaderRead(m, s.blocks[i].Data() + Units(n)).0.pad)
    && OthersKept(m, s, m', s', s.blocks[i].addr)
    && BytesKept(m, s.blocks[i], m', s'.blocks[i], Min(s.blocks[i].UserSize(), n))
  }

  lemma ByBorder(m: Mem, s: State, i: nat, n: Ulong, pad: nat, m': Mem, s': State)
    requires n <= MAX_REQUEST && pad == PARAGRAPH * Units(n) - n
    requires i + 1 < |s.blocks| && Units(n) < s.blocks[i].size + s.blocks[i + 1].size && s' == Shifted(s, i, Units(n), pad)
    requires OthersKept(m, s, m', s', s.blocks[i].addr)
    requires var b := s.blocks[i].(size := Units(n), pad := pad);
      BytesKept(m, s.blocks[i], m', b, Min(s.blocks[i].UserSize(), b.UserSize()))
    requires s.blocks[i].UserSize() >= 0
    ensures ResizedByBorder(m, s, i, n, m', s')
  {
    hide Units, OthersKept, BytesKept, Shifted;
    ShiftedAt(s, i, Units(n), pad);
  }

  /** The rest behind the first k paragraphs of block i has its header in m1 and is on its lists in m3. */
  ghost predicate RestLaid(m0: Mem, s: State, i: nat, k: nat, m1: Mem, m3: Mem) {
    && i < |s.blocks| && k + HEADER <= s.blocks[i].size && s.blocks[i].End() <= |m0|
    && var c := CutBlock(s.blocks, i, k, HeaderRead(m0, s.blocks[i].Data() + k).0.pad);
    && c.End() <= |m0| && m1 == HeaderStored(m0, s.cookie, c)
    && CanLinkCut(m1, s.blocks[i].addr, c.addr) && m3 == CutLinked(m1, s.blocks[i].addr, c.addr) && SameBodies(m1, m3)
  }

  lemma ByCut(m: Mem, s: State, i: nat, n: Ulong, pad: nat, m': Mem, s': State)
    requires n <= MAX_REQUEST && pad == PARAGRAPH * Units(n) - n
    requires i < |s.blocks| && Units(n) + HEADER <= s.blocks[i].size && s.blocks[i].End() <= |m|
    requires s' == CutOff(s, i, Units(n), pad, HeaderRead(m, s.blocks[i].Data() + Units(n)).0.pad)
    requires OthersKept(m, s, m', s', s.blocks[i].addr)
    requires var b := s.blocks[i].(size := Units(n), pad := pad);
      BytesKept(m, s.blocks[i], m', b, Min(s.blocks[i].UserSize(), b.UserSize()))
    requires s.blocks[i].UserSize() >= 0
    ensures ResizedByCut(m, s, i, n, m', s')
  {
    hide Units, OthersKept, BytesKept, CutOff, HeaderRead;
    CutOffAt(s, i, Units(n), pad, HeaderRead(m, s.blocks[i].Data() + Units(n)).0.pad);
  }

  // ---------------------------------------------------------------- what a reallocation comes to

  ghost predicate NextIsFree(s: State, i: nat) {
    i + 1 < |s.blocks| && s.blocks[i + 1].kind == FREE
  }

  /** The case in which the block is two paragraphs too large and the next block is in use. */
  ghost predicate TightCase(s: State, i: nat, n: Ulong)
    requires i < |s.blocks|
  {
    s.blocks[i].size == Units(n) + HEADER && !NextIsFree(s, i)
  }

  /** The PaddingSize stored in that case: the old one plus (UCHAR)(NewSize - nSize * 16), as a byte. */
  function TightPad(pad: nat, n: Ulong): nat {
    (pad + (n - PARAGRAPH * Units(n)) % 256) % 256
  }

  /** The padding would be written in front of the block's data. */
  ghost predicate ReallocOverruns(s: State, i: nat, n: Ulong)
    requires i < |s.blocks|
  {
    if TightCase(s, i, n) then TightPad(s.blocks[i].pad, n) > PARAGRAPH * s.blocks[i].size
    else n > MAX_REQUEST
  }

  /** Block i keeps its place and size and now has pad padding bytes in front of which its bytes are
      kept. */
  ghost predicate Repadded(m: Mem, s: State, i: nat, pad: int, m': Mem, s': State) {
    && i < |s.blocks| && 0 <= pad <= PARAGRAPH * s.blocks[i].size
    && s' == Relabeled(s, i, ALLOCATED, pad)
    && BytesKept(m, s.blocks[i], m', s.blocks[i].(pad := pad), PARAGRAPH * s.blocks[i].size - pad)
    && OthersKept(m, s, m', s', s.blocks[i].addr)
  }

  /** The six ways ExReallocHeap ends for an allocated block, and which is taken when. */
  ghost predicate Reallocated(m: Mem, s: State, i: nat, j: nat, n: Ulong, r: Outcome, m': Mem, s': State)
    requires i < |s.blocks|
  {
    var b, k := s.blocks[i], Units(n);
    if k <= b.size < k + HEADER then
      r == Ptr(b.Data()) && Repadded(m, s, i, PARAGRAPH * b.size - n, m', s')
    else if TightCase(s, i, n) then
      r == Ptr(b.Data()) && Repadded(m, s, i, TightPad(b.pad, n), m', s')
    else if k <= b.size then
      r == Ptr(b.Data()) && if NextIsFree(s, i) then ResizedByBorder(m, s, i, n, m', s') else ResizedByCut(m, s, i, n, m', s')
    else if NextIsFree(s, i) && s.blocks[i + 1].size + b.size > k + HEADER then
      r == Ptr(b.Data()) && ResizedByBorder(m, s, i, n, m', s')
    else if forall q :: 0 <= q < |s.blocks| && s.blocks[q].kind == FREE ==> s.blocks[q].size < k then
      r == Null && m' == m && s' == s
    else
      j < |s.blocks| && r == Ptr(s.blocks[j].Data()) && Relocated(m, s, i, j, n, m', s')
  }

  /** The ways a request that fits into block i ends, told apart by sizes and neighbour. */
  lemma SmallerBy(m: Mem, s: State, i: nat, n: Ulong, m': Mem, s': State)
    requires i < |s.blocks| && Units(n) <= s.blocks[i].size
    requires
      || (s.blocks[i].size < Units(n) + HEADER && Repadded(m, s, i, PARAGRAPH * s.blocks[i].size - n, m', s'))
      || (TightCase(s, i, n) && Repadded(m, s, i, TightPad(s.blocks[i].pad, n), m', s'))
      || (s.blocks[i].size >= Units(n) + HEADER && NextIsFree(s, i) && ResizedByBorder(m, s, i, n, m', s'))
      || (s.blocks[i].size > Units(n) + HEADER && !NextIsFree(s, i) && ResizedByCut(m, s, i, n, m', s'))
    ensures Reallocated(m, s, i, 0, n, Ptr(s.blocks[i].Data()), m', s')
  {
    hide Units, TightPad, Repadded, ResizedByBorder, ResizedByCut, Relocated;
  }

  lemma OverrunsWhen(s: State, i: nat, n: Ulong)
    requires i < |s.blocks|
    ensures TightCase(s, i, n) ==> (ReallocOverruns(s, i, n) <==> TightPad(s.blocks[i].pad, n) > PARAGRAPH * s.blocks[i].size)
    ensures !TightCase(s, i, n) ==> (ReallocOverruns(s, i, n) <==> n > MAX_REQUEST)
    ensures TightPad(s.blocks[i].pad, n) == (s.blocks[i].pad + (n - PARAGRAPH * Units(n)) % 256) % 256
  {
  }

  lemma PadOfBlock(size: nat, n: Ulong)
    requires Units(n) <= size < Units(n) + HEADER
    ensures var pad := (PARAGRAPH * size - n) % 256;
      (pad > PARAGRAPH * size <==> n > MAX_REQUEST) && (n <= MAX_REQUEST ==> pad == PARAGRAPH * size - n)
  {
    hide Units;
    UnitsHoldRequest(n);
    var x := PARAGRAPH * size - n;
    if n <= MAX_REQUEST {
      ByteIsRest(x, 0, x);
    } else {
      ByteIsRest(x, -(ULONG / 256), x + ULONG);
    }
  }

  /** How ExReallocHeap ends for the pointer p, which leads to block i or is stale. */
  ghost predicate ReallocEnded(m: Mem, s: State, p: nat, n: Ulong, i: nat, j: nat, r: Outcome, m': Mem, s': State)
    requires p >= HEADER
  {
    && (!IsBlock(s.blocks, p - HEADER) ==> r.Bugcheck? && r.why in VALIDATION + {FREE_REALLOCATING, LOCKED_REALLOCATING})
    && (Erased(m, p - HEADER) ==> r in {Bugcheck(COOKIE_MISMATCH), Bugcheck(CHECKSUM_MISMATCH)})
    && (IsBlock(s.blocks, p - HEADER) ==>
         && i < |s.blocks| && s.blocks[i].Data() == p
         && (s.blocks[i].kind == FREE ==> r == Bugcheck(FREE_REALLOCATING))
         && (s.blocks[i].kind == LOCKED ==> r == Bugcheck(LOCKED_REALLOCATING))
         && (s.blocks[i].kind == ALLOCATED ==>
              && (r == Overrun <==> ReallocOverruns(s, i, n))
              && (r != Overrun ==> Reallocated(m, s, i, j, n, r, m', s'))))
  }

  /** Where block i is once block j has been taken. */
  function TakenIndex(s: State, i: nat, j: nat, n: Ulong): nat
    requires j < |s.blocks|
  {
    if j < i && s.blocks[j].size - Units(n) > HEADER then i + 1 else i
  }

  /** Block i's bytes now live in block j, which was the best fit, and block i is free. */
  ghost predicate Relocated(m: Mem, s: State, i: nat, j: nat, n: Ulong, m': Mem, s': State) {
    && n <= MAX_REQUEST && i < |s.blocks| && BestFit(s, j, Units(n))
    && TakenIndex(s, i, j, n) < |Taken(s, j, n).blocks|
    && s' == Freed(Taken(s, j, n), TakenIndex(s, i, j, n))
    && j < |Taken(s, j, n).blocks|
    && var b := Taken(s, j, n).blocks[j];
    && b in s'.blocks && b.kind == ALLOCATED && b.UserSize() == n
    && BytesKept(m, s.blocks[i], m', b, s.blocks[i].UserSize())
    && OthersKept(m, s, m', s', s.blocks[i].addr)
  }

  lemma BestFitHolds(s: State, j: nat, k: nat)
    requires BestFit(s, j, k)
    ensures j < |s.blocks| && s.blocks[j].kind == FREE && s.blocks[j].size >= k
  {
  }

  /** The blocks i and j after block j has been taken. */
  lemma TakenBlocks(s: State, i: nat, j: nat, n: Ulong)
    requires n <= MAX_REQUEST && i < |s.blocks| && j < |s.blocks| && i != j && Units(n) <= s.blocks[j].size
    ensures var (s1, i1) := (Taken(s, j, n), TakenIndex(s, i, j, n));
      && s1 == s.(blocks := s1.blocks, free := s1.free, used := s1.used)
      && i1 < |s1.blocks| && s1.blocks[i1] == s.blocks[i] && i1 != j && j < |s1.blocks|
      && s1.blocks[j].addr == s.blocks[j].addr && s1.blocks[j].kind == ALLOCATED && s1.blocks[j].UserSize() == n
      && s1.blocks[j].pad <= PARAGRAPH * s1.blocks[j].size
  {
    UnitsHoldRequest(n);
  }

  lemma TakenApart(m0: Mem, s: State, m1: Mem, i: nat, j: nat, n: Ulong)
    requires n <= MAX_REQUEST && i < |s.blocks| && j < |s.blocks| && i != j && Units(n) <= s.blocks[j].size
    requires Core(m1, Taken(s, j, n))
    ensures var (s1, i1) := (Taken(s, j, n), TakenIndex(s, i, j, n)); i1 < |s1.blocks| && j < |s1.blocks|
    ensures var (s1, i1) := (Taken(s, j, n), TakenIndex(s, i, j, n)); var (b, o) := (s1.blocks[j], s1.blocks[i1]);
      && b.End() <= |m1| && o.End() <= |m1| && (b.End() <= o.addr || o.End() <= b.addr)
      && DataBytes(m1, b) && DataBytes(m1, o)
  {
    hide Core, Taken;
    var s1, i1 := Taken(s, j, n), TakenIndex(s, i, j, n);
    TakenBlocks(s, i, j, n);
    HeapBlockOk(m1, s1, j);
    HeapBlockOk(m1, s1, i1);
    BlockExtent(m1, s1.cookie, s1.blocks[j]);
    BlockExtent(m1, s1.cookie, s1.blocks[i1]);
    CoreParts(m1, s1);
    if i1 < j {
      TiledOrder(s1.blocks, s1.base, s1.limit, i1, j);
    } else {
      TiledOrder(s1.blocks, s1.base, s1.limit, j, i1);
    }
  }

  /** Paragraph q is d with its first t bytes replaced by those of p. */
  ghost predicate CopiedParagraph(p: Para, d: Para, q: Para, t: int) {
    && p.Bytes16() && d.Bytes16() && q.Bytes16()
    && forall k :: 0 <= k < PARAGRAPH ==> q.b[k] == if k < t then p.b[k] else d.b[k]
  }

  function CopyOf(p: Para, d: Para, t: int): (q: Para)
    ensures p.Bytes16() && d.Bytes16() ==> CopiedParagraph(p, d, q, t)
  {
    if p.Bytes16() && d.Bytes16()
    then Raw(seq(PARAGRAPH, k requires 0 <= k < PARAGRAPH => if k < t then p.b[k] else d.b[k]))
    else d
  }

  /** The first j paragraphs of a copy of n bytes are done. */
  ghost predicate CopiedUpTo(m0: Mem, m1: Mem, b: Block, o: Block, n: nat, j: nat) {
    && b.End() <= |m0| == |m1| && o.End() <= |m0| && (b.End() <= o.addr || o.End() <= b.addr)
    && DataBytes(m0, b) && DataBytes(m0, o)
    && j <= b.size && j <= o.size
    && (forall u :: 0 <= u < |m0| && !(b.Data() <= u < b.Data() + j) ==> m1[u] == m0[u])
    && (forall u :: b.Data() <= u < b.Data() + j ==>
      CopiedParagraph(m0[o.Data() + u - b.Data()], m0[u], m1[u], n - PARAGRAPH * (u - b.Data())))
  }

  lemma CopyStart(m: Mem, b: Block, o: Block, n: nat)
    requires b.End() <= |m| && o.End() <= |m| && (b.End() <= o.addr || o.End() <= b.addr)
    requires DataBytes(m, b) && DataBytes(m, o)
    ensures CopiedUpTo(m, m, b, o, n, 0)
  {
  }

  lemma CopyStep(m0: Mem, m1: Mem, m2: Mem, b: Block, o: Block, n: nat, j: nat)
    requires CopiedUpTo(m0, m1, b, o, n, j) && j < b.size && j < o.size
    requires var (d, p) := (b.Data() + j, o.Data() + j);
      m2 == m1[d := CopyOf(m1[p], m1[d], n - PARAGRAPH * j)]
    ensures CopiedUpTo(m0, m2, b, o, n, j + 1)
  {
    hide CopiedParagraph;
    var d, p := b.Data() + j, o.Data() + j;
    assert m1[p] == m0[p] && m1[d] == m0[d];
  }

  lemma UserSizeIsNat(m: Mem, s: State, i: nat)
    requires Core(m, s) && i < |s.blocks| && s.blocks[i].Live()
    ensures s.blocks[i].pad <= PARAGRAPH * s.blocks[i].size
  {
    assert BlockOk(m, s.cookie, s.blocks[i]);
  }

  lemma CopiedAll(m0: Mem, m1: Mem, b: Block, o: Block, n: nat, j: nat)
    requires CopiedUpTo(m0, m1, b, o, n, j)
    requires n <= b.UserSize() && n <= PARAGRAPH * o.size && b.UserSize() <= PARAGRAPH * b.size
    requires PARAGRAPH * (j - 1) < n <= PARAGRAPH * j
    ensures OwnerWrote(m0, m1, b) && BytesKept(m0, o, m1, b, n)
  {
    forall u | b.Data() <= u < b.End()
      ensures m1[u].Bytes16()
      ensures forall k :: 0 <= k < PARAGRAPH && b.UserSize() <= PARAGRAPH * (u - b.Data()) + k ==> m1[u].b[k] == m0[u].b[k]
    {
      if u >= b.Data() + j {
        assert m1[u] == m0[u] && m0[u].Bytes16();
      } else {
        assert CopiedParagraph(m0[o.Data() + u - b.Data()], m0[u], m1[u], n - PARAGRAPH * (u - b.Data()));
      }
    }
    forall q | 0 <= q < o.size && q < b.size
      ensures ParagraphKept(m0, o, m1, b, q, n)
    {
      var u := b.Data() + q;
      assert m0[o.Data() + q].Bytes16();
      if q >= j {
        assert m1[u] == m0[u] && m0[u].Bytes16();
      }
    }
  }

  lemma RelocatedHolds(m0: Mem, s: State, i: nat, j: nat, n: Ulong, m1: Mem, m2: Mem, m3: Mem, s': State)
    requires Core(m0, s) && n <= MAX_REQUEST && i < |s.blocks| && s.blocks[i].kind == ALLOCATED
    requires BestFit(s, j, Units(n))
    requires OthersKept(m0, s, m1, Taken(s, j, n), -1) && Core(m1, Taken(s, j, n))
    requires TakenIndex(s, i, j, n) < |Taken(s, j, n).blocks| && j < |Taken(s, j, n).blocks|
    requires OthersKept(m1, Taken(s, j, n), m2, Taken(s, j, n), s.blocks[j].addr)
    requires Core(m2, Taken(s, j, n))
    requires BytesKept(m1, s.blocks[i], m2, Taken(s, j, n).blocks[j], s.blocks[i].UserSize())
    requires s' == Freed(Taken(s, j, n), TakenIndex(s, i, j, n))
    requires OthersKept(m2, Taken(s, j, n), m3, s', s.blocks[i].addr)
    ensures Relocated(m0, s, i, j, n, m3, s')
  {
    hide Core, Taken, Freed, BytesKept, BestFit, OthersKept;
    BestFitHolds(s, j, Units(n));
    TakenBlocks(s, i, j, n);
    var s1, i1 := Taken(s, j, n), TakenIndex(s, i, j, n);
    DistinctAddresses(m1, s1, j, i1);
    KeptFrom(m2, s1, m3, s', s.blocks[i].addr, j);
    HeapBlockOk(m0, s, i);
    KeptFrom(m0, s, m1, s1, -1, i);
    HeapBlockOk(m2, s1, j);
    MovedBytes(m0, m1, m2, m3, s.cookie, s.blocks[i], s1.blocks[j], s.blocks[i].UserSize());
    ThreeSteps(m0, s, m1, s1, m2, m3, s', s.blocks[j].addr, s.blocks[i].addr, j);
  }

  lemma DistinctAddresses(m: Mem, s: State, i: nat, j: nat)
    requires Core(m, s) && i < |s.blocks| && j < |s.blocks| && i != j
    ensures s.blocks[i].addr != s.blocks[j].addr
  {
    hide Core;
    CoreParts(m, s);
    if s.blocks[i].addr == s.blocks[j].addr {
      SameAddressSameBlock(s.blocks, s.base, s.limit, i, j);
    }
  }

  lemma KeptFrom(m: Mem, s: State, m': Mem, s': State, a: int, i: nat)
    requires OthersKept(m, s, m', s', a) && i < |s.blocks| && s.blocks[i].Live() && s.blocks[i].addr != a
    ensures s.blocks[i] in s'.blocks && SameData(m, m', s.blocks[i])
  {
  }

  lemma MovedBytes(m0: Mem, m1: Mem, m2: Mem, m3: Mem, cookie: nat, o: Block, b: Block, n: int)
    requires BlockOk(m0, cookie, o) && SameData(m0, m1, o) && BytesKept(m1, o, m2, b, n)
    requires BlockOk(m2, cookie, b) && SameData(m2, m3, b)
    ensures BytesKept(m0, o, m3, b, n)
  {
    forall j | 0 <= j < o.size && j < b.size
      ensures ParagraphKept(m0, o, m3, b, j, n)
    {
      assert ParagraphKept(m1, o, m2, b, j, n);
      assert m1[o.Data() + j] == m0[o.Data() + j] && m3[b.Data() + j] == m2[b.Data() + j];
    }
  }

  /** Blocks of s survive the taking of block j, a write into it, and the freeing of block a. */
  lemma ThreeSteps(m0: Mem, s: State, m1: Mem, s1: State, m2: Mem, m3: Mem, s': State, x: int, a: int, j: nat)
    requires OthersKept(m0, s, m1, s1, -1) && OthersKept(m1, s1, m2, s1, x) && OthersKept(m2, s1, m3, s', a)
    requires Core(m0, s) && j < |s.blocks| && s.blocks[j].addr == x && s.blocks[j].kind == FREE
    ensures OthersKept(m0, s, m3, s', a)
  {
    hide Core;
    forall i | 0 <= i < |s.blocks| && s.blocks[i].Live() && s.blocks[i].addr != a
      ensures s.blocks[i] in s'.blocks && SameData(m0, m3, s.blocks[i])
    {
      DistinctAddresses(m0, s, i, j);
      var k :| 0 <= k < |s1.blocks| && s1.blocks[k] == s.blocks[i];
      KeptFrom(m1, s1, m2, s1, x, k);
      KeptFrom(m2, s1, m3, s', a, k);
    }
  }

  /** Byte k counted from paragraph p belongs to the caller that holds block i. */
  ghost predicate Owns(s: State, i: nat, p: nat, k: nat) {
    i < |s.blocks| && s.blocks[i].Data() == p && s.blocks[i].Live() && k < s.blocks[i].UserSize()
  }

  ghost predicate OnlyOwnerWrote(m: Mem, m': Mem, s: State, i: nat) {
    i < |s.blocks| && OwnerWrote(m, m', s.blocks[i]) && OthersKept(m, s, m', s, s.blocks[i].addr)
  }

  /** The byte at offset k from paragraph p is c. */
  ghost predicate ByteIs(m: Mem, p: nat, k: nat, c: Byte) {
    p + k / PARAGRAPH < |m| && m[p + k / PARAGRAPH].Bytes16() && m[p + k / PARAGRAPH].b[k % PARAGRAPH] == c
  }

  /** Only the byte at offset k from paragraph p changed, to c. */
  ghost predicate OneByteWritten(m: Mem, m': Mem, p: nat, k: nat, c: Byte) {
    var v := p + k / PARAGRAPH;
    v < |m| && m[v].Bytes16() && m' == m[v := Raw(m[v].b[k % PARAGRAPH := c])]
  }

  class Heap {
    var mem: array<Para>
    var cookie: nat
    ghost var st: State

    ghost predicate Valid()
      reads this, mem
    {
      Inv(mem[..], st) && st.cookie == cookie
    }

    // -------------------------------------------------------------- stores

    method RemoveEntryList(p: int)
      requires CanUnlink(mem[..], p)
      modifies mem
      ensures mem[..] == Unlinked(old(mem[..]), p)
    {
      var flink := mem[p].flink;
      var blink := mem[p].blink;
      mem[blink] := mem[blink].(flink := flink);
      mem[flink] := mem[flink].(blink := blink);
    }

    method InsertTailList(head: int, p: int)
      requires CanAppend(mem[..], p, head)
      modifies mem
      ensures mem[..] == LinkedBetween(old(mem[..]), old(mem[..])[head].blink, p, head)
    {
      var blink := mem[head].blink;
      mem[p] := mem[p].(flink := head);
      mem[p] := mem[p].(blink := blink);
      mem[blink] := mem[blink].(flink := p);
      mem[head] := mem[head].(blink := p);
    }

    method InsertHeadList(head: int, p: int)
      requires CanInsertAfter(mem[..], p, head)
      modifies mem
      ensures mem[..] == LinkedBetween(old(mem[..]), head, p, old(mem[..])[head].flink)
    {
      var flink := mem[head].flink;
      mem[p] := mem[p].(flink := flink);
      mem[p] := mem[p].(blink := head);
      mem[flink] := mem[flink].(blink := p);
      mem[head] := mem[head].(flink := p);
    }

    method SetSize(u: nat, size: nat)
      requires u + 1 < mem.Length
      modifies mem
      ensures mem[..] == SizeSet(old(mem[..]), u, size)
    {
      var p := ViewFront(mem[u]);
      mem[u] := p.(body := p.body.(size := size));
    }

    method SetBlockType(u: nat, kind: nat)
      requires u + 1 < mem.Length
      modifies mem
      ensures mem[..] == KindSet(old(mem[..]), u, kind)
    {
      var p := ViewBack(mem[u + 1]);
      mem[u + 1] := p.(body := p.body.(kind := kind));
    }

    method SetPaddingSize(u: nat, pad: nat)
      requires u + 1 < mem.Length
      modifies mem
      ensures mem[..] == PadSet(old(mem[..]), u, pad)
    {
      var p := ViewBack(mem[u + 1]);
      mem[u + 1] := p.(body := p.body.(pad := pad));
    }

    method SetCookie(u: nat, c: nat)
      requires u + 1 < mem.Length
      modifies mem
      ensures mem[..] == CookieSet(old(mem[..]), u, c)
    {
      var p := ViewBack(mem[u + 1]);
      mem[u + 1] := p.(body := p.body.(cookie := c));
    }

    /** ExpRecalculateChecksumBlock. */
    method RecalculateChecksum(u: nat)
      requires u + 1 < mem.Length
      modifies mem
      ensures mem[..] == Summed(old(mem[..]), u)
    {
      var f, k := ViewFront(mem[u]), ViewBack(mem[u + 1]);
      var sum := Checksum(u, f.body.size, k.body.kind, k.body.pad, k.body.cookie);
      mem[u] := f.(body := f.body.(magic1 := sum));
      mem[u + 1] := k.(body := k.body.(magic2 := sum));
    }

    /** EXP_WRITE_BLOCK_ALLOC_PADDING for a block whose padding lies inside its data. */
    method WriteAllocPadding(ghost b: Block, u: nat, size: nat, pad: nat)
      requires u == b.addr && size == b.size && pad == b.pad <= PARAGRAPH * size && b.End() <= mem.Length
      requires DataBytes(mem[..], b)
      modifies mem
      ensures PaddingWritten(old(mem[..]), mem[..], b)
    {
      var user := PARAGRAPH * size - pad;
      var v := u + HEADER;
      while v < u + HEADER + size
        invariant b.Data() <= v <= b.End()
        invariant forall w :: 0 <= w < mem.Length && !(b.Data() <= w < v) ==> mem[w] == old(mem[w])
        invariant forall w :: b.Data() <= w < v ==> mem[w].Bytes16()
        invariant forall w, k {:trigger mem[w].b[k]} :: b.Data() <= w < v && 0 <= k < PARAGRAPH ==>
          mem[w].b[k] == if PARAGRAPH * (w - b.Data()) + k < b.UserSize() then old(mem[w]).b[k] else ALLOCATED_PADDING
      {
        var at := PARAGRAPH * (v - u - HEADER);
        var bytes := mem[v].b;
        mem[v] := Raw(seq(PARAGRAPH, k requires 0 <= k < PARAGRAPH =>
          if at + k < user then bytes[k] else ALLOCATED_PADDING));
        v := v + 1;
      }
    }

    /** memset (.., FREED_PADDING, ..) over whole paragraphs. */
    method WriteFreed(lo: nat, hi: nat)
      requires lo <= hi <= mem.Length
      modifies mem
      ensures FreedWritten(old(mem[..]), mem[..], lo, hi)
    {
      var v := lo;
      while v < hi
        invariant lo <= v <= hi
        invariant forall w :: 0 <= w < mem.Length ==>
          mem[w] == if lo <= w < v then Fill(FREED_PADDING) else old(mem[w])
      {
        mem[v] := Fill(FREED_PADDING);
        v := v + 1;
      }
    }

    // -------------------------------------------------------------- ExpCheckBlockValid

    /** Every byte of the data from the lo-th on is c; size is the size of the block at u. */
    method AllBytesFrom(u: nat, size: nat, lo: nat, c: Byte) returns (ok: bool)
      requires lo <= PARAGRAPH * size && u + HEADER + size <= mem.Length
      requires DataBytes(mem[..], Block(u, size, 0, 0))
      ensures ok <==> forall v, k {:trigger mem[v].b[k]} ::
        u + HEADER <= v < u + HEADER + size && 0 <= k < PARAGRAPH && mem[v].Bytes16()
        && lo <= PARAGRAPH * (v - u - HEADER) + k
        ==> mem[v].b[k] == c
    {
      var i := lo;
      while i < PARAGRAPH * size
        invariant lo <= i <= PARAGRAPH * size
        invariant forall v, k {:trigger mem[v].b[k]} ::
          u + HEADER <= v < u + HEADER + size && 0 <= k < PARAGRAPH && mem[v].Bytes16()
          && lo <= PARAGRAPH * (v - u - HEADER) + k < i
          ==> mem[v].b[k] == c
      {
        var v, k := u + HEADER + i / PARAGRAPH, i % PARAGRAPH;
        assert u + HEADER <= v < u + HEADER + size;
        assert PARAGRAPH * (v - u - HEADER) + k == i;
        if mem[v].b[k] != c {
          return false;
        }
        i := i + 1;
      }
      return true;
    }

    /** Read the block at u as ExpCheckBlockValid does.  A block that passes the checksum test is
        taken to lie in memory, its padding inside its data. */
    method CheckBlockValid(u: nat) returns (v: Verdict)
      requires u + HEADER <= mem.Length
      requires Readable(mem[..], cookie, u)
      ensures v.Passed? <==> Passes(mem[..], cookie, u)
      ensures v.Failed? ==> v.why in VALIDATION
      ensures v.Failed? && v.why !in {COOKIE_MISMATCH, CHECKSUM_MISMATCH} ==> HeaderRead(mem[..], u).0.kind in {FREE, ALLOCATED}
      ensures v == Failed(COOKIE_MISMATCH) <==> ViewBack(mem[u + 1]).body.cookie != cookie
    {
      var f, k := ViewFront(mem[u]).body, ViewBack(mem[u + 1]).body;
      if k.cookie != cookie {
        return Failed(COOKIE_MISMATCH);
      }
      var valid := Checksum(u, f.size, k.kind, k.pad, k.cookie);
      if f.magic1 != valid || k.magic2 != valid {
        return Failed(CHECKSUM_MISMATCH);
      }
      ghost var b := Block(u, f.size, k.kind, k.pad);
      if k.kind == ALLOCATED {
        var ok := AllBytesFrom(u, f.size, PARAGRAPH * f.size - k.pad, ALLOCATED_PADDING);
        assert ok <==> PaddingPattern(mem[..], b);
        if !ok {
          return Failed(OVERFLOW_DETECTED);
        }
      } else if k.kind == FREE && f.size < 65536 {
        var ok := AllBytesFrom(u, f.size, 0, FREED_PADDING);
        assert ok <==> FreePattern(mem[..], b);
        if !ok {
          return Failed(NO_FREE_PATTERN);
        }
      }
      return Passed;
    }

    // -------------------------------------------------------------- ExpFindIdealBlock

    method FindIdealBlock(n: Ulong) returns (ideal: Option<nat>, ghost i: nat)
      requires Valid()
      ensures ideal == None ==> forall j :: 0 <= j < |st.blocks| && st.blocks[j].kind == FREE ==> st.blocks[j].size < Units(n)
      ensures ideal.Some? ==> BestFit(st, i, Units(n)) && st.blocks[i].addr == ideal.value
    {
      hide Core, Tiled, Listed, Scanned, Readable, Passes, BestFit;
      ideal, i := None, 0;
      var nSize := Units(n);
      CoreParts(mem[..], st);
      ScanStart(st, nSize);
      ghost var pos := 0;       // position of the block on the free list
      ghost var at := 0;        // position of the ideal block
      ghost var m := mem[..];
      FreeListWalk(m, st, 0);
      var u := mem[FREE_HEAD].flink;
      while u != FREE_HEAD
        invariant mem[..] == m
        invariant 0 <= pos <= |st.free| && u == if pos < |st.free| then st.free[pos] else FREE_HEAD
        invariant Scanned(st, nSize, pos, ideal.Some?, i, at)
        invariant ideal.Some? ==> IdealAt(m, st, ideal.value, i)
        decreases |st.free| - pos
      {
        ghost var here := FreeListVisit(m, st, pos);
        ScanStep(st, nSize, pos, ideal.Some?, i, at, here);
        var verdict := CheckBlockValid(u);
        assert verdict == Passed;
        if mem[u].body.size >= nSize {
          if ideal == None || mem[u].body.size < mem[ideal.value].body.size {
            ideal, i, at := Some(u), here, pos;
          }
        }
        u := mem[u].flink;
        pos := pos + 1;
      }
      ScanEnd(st, nSize, ideal.Some?, i, at);
    }

    // -------------------------------------------------------------- allocation

    /** ExpAllocateHeapInBlock on free block i, whose header starts at u. */
    method AllocateInBlock(u: nat, n: Ulong, ghost i: nat) returns (r: Outcome)
      requires Valid()
      requires i < |st.blocks| && st.blocks[i].addr == u && st.blocks[i].kind == FREE && Units(n) <= st.blocks[i].size
      modifies this`st, mem
      ensures n > MAX_REQUEST <==> r == Overrun
      ensures n <= MAX_REQUEST ==>
        && r == Ptr(u + HEADER) && Valid() && st == Taken(old(st), i, n)
        && OthersKept(old(mem[..]), old(st), mem[..], st, -1)
    {
      hide Core, NoAdjacentFree, OthersKept, TakenWhole, TakenPart, HeaderRead;
      UnitsHoldRequest(n);
      HeaderReads(mem[..], st, i);
      var size := HeaderRead(mem[..], u).0.size;
      if size - Units(n) <= HEADER {
        r := TakeWhole(u, size, n, i);
      } else {
        r := TakePart(u, size, n, i);
      }
    }

    method TakeWhole(u: nat, size: nat, n: Ulong, ghost i: nat) returns (r: Outcome)
      requires Valid()
      requires i < |st.blocks| && st.blocks[i].addr == u && st.blocks[i].kind == FREE && st.blocks[i].size == size
      requires Units(n) <= size <= Units(n) + HEADER
      modifies this`st, mem
      ensures n > MAX_REQUEST <==> r == Overrun
      ensures n <= MAX_REQUEST ==>
        && n <= PARAGRAPH * size && r == Ptr(u + HEADER) && Valid() && st == TakenWhole(old(st), i, n)
        && OthersKept(old(mem[..]), old(st), mem[..], st, -1)
    {
      hide Core, Rings, BlockOk, SameOutside, HeaderRead, HeaderStored, Summed, PadSet, KindSet,
        PaddingWritten, CanRelist, Relisted, OthersKept, TakenWhole, Remove, NoAdjacentFree, FreeRing, UsedRing, OrderRing;
      UnitsHoldRequest(n);
      ghost var m0 := mem[..];
      HeaderReads(m0, st, i);
      var pad := (PARAGRAPH * size - n) % 256;
      ghost var b := st.blocks[i].(kind := ALLOCATED, pad := pad);
      SetBlockType(u, ALLOCATED);
      SetPaddingSize(u, pad);
      RecalculateChecksum(u);
      TagStores(m0, u, ALLOCATED, pad, b, cookie);
      ghost var m1 := mem[..];
      if pad > PARAGRAPH * size {
        return Overrun;
      }
      AllocatedDataRaw(m0, st, i, b, m1);
      WriteAllocPadding(b, u, size, pad);
      Claimed(m0, st, i, b, m1, mem[..]);
      TakenWholeCore(m0, st, i, n, b, mem[..]);
      Relist(u, USED_HEAD);
      TakenWholeNoAdjacent(st, i, n);
      st := TakenWhole(st, i, n);
      return Ptr(u + HEADER);
    }

    method TakePart(u: nat, size: nat, n: Ulong, ghost i: nat) returns (r: Outcome)
      requires Valid()
      requires i < |st.blocks| && st.blocks[i].addr == u && st.blocks[i].kind == FREE && st.blocks[i].size == size
      requires Units(n) + HEADER < size
      modifies this`st, mem
      ensures n > MAX_REQUEST <==> r == Overrun
      ensures n <= MAX_REQUEST ==>
        && n <= PARAGRAPH * Units(n) && r == Ptr(u + HEADER) && Valid() && st == TakenPart(old(st), i, n, Units(n))
        && OthersKept(old(mem[..]), old(st), mem[..], st, -1)
    {
      hide Core, Rings, BlockOk, SameOutside, FreedAt, HeaderRead, HeaderStored, Summed, PadSet, KindSet, CookieSet,
        SizeSet, PaddingWritten, CanRelist, Relisted, CanLinkRest, RestLinked, OthersKept, TakenPart, Remove,
        NoAdjacentFree, FreeRing, UsedRing, OrderRing;
      UnitsHoldRequest(n);
      ghost var m0 := mem[..];
      HeaderReads(m0, st, i);
      var nSize := Units(n);
      var diff := size - nSize - HEADER;
      var next := u + HEADER + nSize;
      var pad := (PARAGRAPH * nSize - n) % 256;
      ghost var b := Block(u, nSize, ALLOCATED, pad);
      SetSize(u, nSize);
      SetBlockType(u, ALLOCATED);
      SetPaddingSize(u, pad);
      RecalculateChecksum(u);
      ResizeStores(m0, u, nSize, ALLOCATED, pad, b, cookie);
      ghost var m1 := mem[..];
      if pad > PARAGRAPH * nSize {
        return Overrun;
      }
      AllocatedDataRaw(m0, st, i, b, m1);
      WriteAllocPadding(b, u, nSize, pad);
      Claimed(m0, st, i, b, m1, mem[..]);
      TakenPartRelisted(m0, st, i, b, mem[..]);
      Relist(u, USED_HEAD);
      ghost var m4 := mem[..];
      ghost var c := Block(next, diff, FREE, FREED_PADDING);
      FreedPadding(m4, next, c.End());
      TakenPartCore(m0, st, i, n, b, c, m4);
      SetSize(next, diff);
      SetCookie(next, cookie);
      SetBlockType(next, FREE);
      RecalculateChecksum(next);
      NewFreeStores(m4, next, diff, cookie, c);
      LinkRest(u, next);
      TakenPartNoAdjacent(st, i, n, nSize);
      st := TakenPart(st, i, n, nSize);
      return Ptr(u + HEADER);
    }

    /** Enter the block at c, which follows the block at u, in the free list and in memory order. */
    method LinkRest(u: nat, c: nat)
      requires CanLinkRest(mem[..], u, c)
      modifies mem
      ensures mem[..] == RestLinked(old(mem[..]), u, c)
    {
      InsertTailList(FREE_HEAD, c);
      InsertHeadList(u + 1, c + 1);
    }

    /** RemoveEntryList from the list the block is on; InsertTailList into the list at head. */
    method Relist(u: nat, head: nat)
      requires CanRelist(mem[..], u, head)
      modifies mem
      ensures mem[..] == Relisted(old(mem[..]), u, head)
    {
      RemoveEntryList(u);
      InsertTailList(head, u);
    }

    /** ExAllocateHeap: NULL exactly when no free block is large enough; otherwise the best one. */
    method AllocateHeap(n: Ulong) returns (r: Outcome, ghost i: nat)
      requires Valid()
      modifies this`st, mem
      ensures r == Null <==> forall j :: 0 <= j < |old(st).blocks| && old(st).blocks[j].kind == FREE ==> old(st).blocks[j].size < Units(n)
      ensures r == Null ==> Valid() && mem[..] == old(mem[..]) && st == old(st)
      ensures r == Overrun <==> r != Null && n > MAX_REQUEST
      ensures r != Null ==> BestFit(old(st), i, Units(n))
      ensures r != Null && r != Overrun ==>
        && r == Ptr(old(st).blocks[i].Data()) && Valid() && st == Taken(old(st), i, n)
        && OthersKept(old(mem[..]), old(st), mem[..], st, -1)
    {
      hide Core, NoAdjacentFree, OthersKept, Taken;
      var ideal;
      ideal, i := FindIdealBlock(n);
      if ideal == None {
        return Null, i;
      }
      r := AllocateInBlock(ideal.value, n, i);
    }

    // -------------------------------------------------------------- freeing

    /** ExpFreeHeapBlock up to its call of ExpRebuildFreeBlocks. */
    method ReleaseBlock(u: nat, ghost i: nat)
      requires Core(mem[..], st) && st.cookie == cookie
      requires i < |st.blocks| && st.blocks[i].addr == u && st.blocks[i].kind != FREE
      modifies this`st, mem
      ensures Core(mem[..], st) && st == Released(old(st), i)
      ensures OthersKept(old(mem[..]), old(st), mem[..], st, u)
    {
      hide Core, Rings, BlockOk, SameOutside, HeaderRead, Summed, KindSet, FreedWritten, CanRelist, Relisted, OthersKept,
        Released, Remove, FreeRing, OrderRing;
      ghost var m0 := mem[..];
      ghost var b := st.blocks[i].(kind := FREE);
      HeaderReads(m0, st, i);
      var size := HeaderRead(mem[..], u).0.size;
      ReleasedListed(m0, st, i);
      SetBlockType(u, FREE);
      Relist(u, FREE_HEAD);
      ghost var m2 := mem[..];
      RecalculateChecksum(u);
      ghost var m3 := mem[..];
      WriteFreed(u + HEADER, u + HEADER + size);
      ReleasedDataRaw(m0, st, i, m2);
      ReleasedFilled(m2, cookie, b, m3, mem[..], FreeRing(st) + [u], [USED_HEAD] + Remove(st.used, u), OrderRing(st.blocks));
      OutsideTwice(m0, m2, mem[..], u, u + HEADER, u, b.End());
      ReleasedCore(m0, st, i, b, mem[..]);
      st := Released(st, i);
    }

    /** The merge step of ExpRebuildFreeBlocks: the block at v joins the block at u before it. */
    method MergeBlocks(u: nat, v: nat, ghost i: nat)
      requires Core(mem[..], st) && st.cookie == cookie
      requires i + 1 < |st.blocks| && st.blocks[i].addr == u && st.blocks[i + 1].addr == v
      requires st.blocks[i].kind == FREE && st.blocks[i + 1].kind == FREE
      modifies this`st, mem
      ensures Core(mem[..], st) && st == Merged(old(st), i)
      ensures OthersKept(old(mem[..]), old(st), mem[..], st, -1)
    {
      hide Core, Rings, BlockOk, SameOutside, SameBodies, HeaderRead, HeaderStored, Summed, SizeSet, FreedWritten, CanUnlink,
        Unlinked, OthersKept, Merged, Remove, FreeRing, UsedRing, OrderRing, FreedAt, Without, Tiled;
      ghost var m0 := mem[..];
      ghost var b := MergedBlock(st.blocks, i);
      HeaderReads(m0, st, i);
      HeaderReads(m0, st, i + 1);
      MergedListed(m0, st, i);
      var size := HeaderRead(mem[..], u).0.size + HeaderRead(mem[..], v).0.size + HEADER;
      SetSize(u, size);
      RecalculateChecksum(u);
      RemoveEntryList(v);
      RemoveEntryList(v + 1);
      ghost var m4 := mem[..];
      WriteFreed(v, v + HEADER);
      FreeBlockFreed(m0, st, i);
      FreeBlockFreed(m0, st, i + 1);
      CoreNamedTiled(m0, st);
      MergedExtent(st, i);
      MergedFilled(m0, cookie, b, m4, mem[..], v,
        [FREE_HEAD] + Remove(st.free, v), UsedRing(st), Without(OrderRing(st.blocks), i + 2));
      MergedCore(m0, st, i, b, mem[..]);
      st := Merged(st, i);
    }

    /** ExpRebuildFreeBlocks: join a freed block with its free neighbours.  The walk back never
        advances the block it joins, so it must not go round twice, and does not. */
    method RebuildFreeBlocks(u: nat, ghost i: nat)
      requires Core(mem[..], st) && st.cookie == cookie
      requires i < |st.blocks| && st.blocks[i].addr == u && st.blocks[i].kind == FREE && AdjacentOnlyAt(st.blocks, i)
      modifies this`st, mem
      ensures Valid() && st == Rebuilt(old(st), i)
      ensures OthersKept(old(mem[..]), old(st), mem[..], st, -1)
    {
      hide Core, OthersKept, Merged, BothFree, AdjacentOnlyAt, Passes, Readable;
      BlockOfHeap(mem[..], st, i);
      var verdict := CheckBlockValid(u);
      assert verdict == Passed;
      MergeForward(u, i);
      ghost var m1, s1 := mem[..], st;
      ForwardAdjacency(old(st), i);
      MergeBackward(u, i);
      OthersKeptTwice(old(mem[..]), old(st), m1, s1, mem[..], st, -1);
      BackwardAdjacency(s1, i);
    }

    method MergeForward(u: nat, ghost i: nat)
      requires Core(mem[..], st) && st.cookie == cookie
      requires i < |st.blocks| && st.blocks[i].addr == u && st.blocks[i].kind == FREE && AdjacentOnlyAt(st.blocks, i)
      modifies this`st, mem
      ensures Core(mem[..], st) && st == MergedForward(old(st), i)
      ensures OthersKept(old(mem[..]), old(st), mem[..], st, -1)
    {
      hide Core, OthersKept, AdjacentOnlyAt, KindAt;
      ghost var s0, m0 := st, mem[..];
      ForwardAdjacency(s0, i);
      NothingMoved(m0, s0);
      OrderNeighbours(m0, st, i);
      var curr := mem[u + 1].flink;
      while true
        invariant Core(mem[..], st) && st.cookie == cookie
        invariant st == s0 || st == MergedForward(s0, i)
        invariant i < |st.blocks| && st.blocks[i].addr == u && st.blocks[i].kind == FREE
        invariant u + 1 < mem.Length && mem[u + 1].Entry? && curr == mem[u + 1].flink && 0 <= curr < mem.Length
        invariant OthersKept(m0, s0, mem[..], st, -1)
        decreases |st.blocks|
      {
        OrderNeighbours(mem[..], st, i);
        if KindAt(mem[curr]) != FREE {
          break;
        }
        ghost var m1, s1 := mem[..], st;
        MergeBlocks(u, curr - 1, i);
        OthersKeptTwice(m0, s0, m1, s1, mem[..], st, -1);
        OrderNeighbours(mem[..], st, i);
        curr := mem[u + 1].flink;
        if curr == ORDER_HEAD {
          break;
        }
      }
    }

    method MergeBackward(u: nat, ghost i: nat)
      requires Core(mem[..], st) && st.cookie == cookie
      requires i < |st.blocks| && st.blocks[i].addr == u && st.blocks[i].kind == FREE && AdjacentOnlyAt(st.blocks, i)
      requires i + 1 < |st.blocks| ==> st.blocks[i + 1].kind != FREE
      modifies this`st, mem
      ensures Core(mem[..], st) && st == MergedBackward(old(st), i)
      ensures OthersKept(old(mem[..]), old(st), mem[..], st, -1)
    {
      hide Core, OthersKept, AdjacentOnlyAt, KindAt;
      ghost var s0, m0 := st, mem[..];
      BackwardAdjacency(s0, i);
      NothingMoved(m0, s0);
      OrderNeighbours(m0, st, i);
      var curr := mem[u + 1].blink;
      ghost var again := false;
      while true
        invariant Core(mem[..], st) && st.cookie == cookie
        invariant !again ==> st == s0
        invariant again ==> 0 < i && s0.blocks[i - 1].kind == FREE && st == Merged(s0, i - 1)
        invariant 0 <= curr < mem.Length
        invariant KindAt(mem[curr]) == (if !again && i > 0 then s0.blocks[i - 1].kind else if again && i > 1 then s0.blocks[i - 2].kind else 0)
        invariant !again && i > 0 ==> curr == s0.blocks[i - 1].addr + 1
        invariant OthersKept(m0, s0, mem[..], st, -1)
        decreases |st.blocks|
      {
        if KindAt(mem[curr]) != FREE {
          break;
        }
        ghost var m1, s1 := mem[..], st;
        MergeBlocks(curr - 1, u, i - 1);
        OthersKeptTwice(m0, s0, m1, s1, mem[..], st, -1);
        again := true;
        OrderNeighbours(mem[..], st, i - 1);
        curr := mem[curr].blink;
        if curr == ORDER_HEAD {
          break;
        }
      }
    }

    /** ExpFreeHeapBlock. */
    method FreeHeapBlock(u: nat, ghost i: nat)
      requires Valid()
      requires i < |st.blocks| && st.blocks[i].addr == u && st.blocks[i].kind != FREE
      modifies this`st, mem
      ensures Valid() && st == Freed(old(st), i)
      ensures OthersKept(old(mem[..]), old(st), mem[..], st, u)
    {
      hide Core, OthersKept, Released, Rebuilt, AdjacentOnlyAt, NoAdjacentFree;
      ReleasedAdjacency(st, i);
      ReleaseBlock(u, i);
      ghost var m1, s1 := mem[..], st;
      RebuildFreeBlocks(u, i);
      OthersKeptThen(old(mem[..]), old(st), m1, s1, mem[..], st, u);
    }

    /** ExFreeHeap.  p was handed out by the heap; its block may since have been freed, and its
        header erased by a merge. */
    method FreeHeap(p: nat) returns (r: Outcome)
      requires Valid() && p >= HEADER
      requires IsBlock(st.blocks, p - HEADER) || Stale(mem[..], st, p - HEADER)
      modifies this`st, mem
      ensures forall i :: 0 <= i < |old(st).blocks| && old(st).blocks[i].Data() == p ==>
        && (old(st).blocks[i].kind == ALLOCATED ==>
          r == Done && st == Freed(old(st), i) && OthersKept(old(mem[..]), old(st), mem[..], st, p - HEADER))
        && (old(st).blocks[i].kind == LOCKED ==> r == Bugcheck(LOCKED_FREEING))
        && (old(st).blocks[i].kind == FREE ==> r == Bugcheck(DOUBLE_FREEING))
      ensures !IsBlock(old(st).blocks, p - HEADER) ==> r.Bugcheck? && r.why in VALIDATION
      ensures Erased(old(mem[..]), p - HEADER) ==> r.Bugcheck? && r.why in {COOKIE_MISMATCH, CHECKSUM_MISMATCH}
      ensures Valid() && (r.Bugcheck? ==> st == old(st) && mem[..] == old(mem[..]))
    {
      hide Core, OthersKept, Freed, NoAdjacentFree;
      var u := p - HEADER;
      ghost var i := FindBlock(mem[..], st, u);
      if Erased(mem[..], u) {
        ErasedReads(mem[..], u);
        ErasedIsNoBlock(mem[..], st, u);
      }
      var verdict := CheckBlockValid(u);
      if verdict.Failed? {
        return Bugcheck(verdict.why);
      }
      var kind := ViewBack(mem[u + 1]).body.kind;
      if kind == LOCKED {
        return Bugcheck(LOCKED_FREEING);
      } else if kind == FREE || kind == FREED_PADDING {
        return Bugcheck(DOUBLE_FREEING);
      }
      FreeHeapBlock(u, i);
      return Done;
    }

    // -------------------------------------------------------------- locking

    /** ExLockHeapBlock. */
    method LockHeapBlock(p: nat) returns (r: Outcome)
      requires Valid() && p >= HEADER
      requires IsBlock(st.blocks, p - HEADER) || Stale(mem[..], st, p - HEADER)
      modifies this`st, mem
      ensures forall i :: 0 <= i < |old(st).blocks| && old(st).blocks[i].Data() == p ==>
        && (old(st).blocks[i].kind == ALLOCATED ==>
          && r == Done && st == Relabeled(old(st), i, LOCKED, old(st).blocks[i].pad)
          && SameData(old(mem[..]), mem[..], old(st).blocks[i]) && OthersKept(old(mem[..]), old(st), mem[..], st, p - HEADER))
        && (old(st).blocks[i].kind == LOCKED ==> r == Bugcheck(DOUBLE_LOCKING))
        && (old(st).blocks[i].kind == FREE ==> r == Bugcheck(FREE_LOCKING))
      ensures !IsBlock(old(st).blocks, p - HEADER) ==> r.Bugcheck? && r.why in VALIDATION + {DOUBLE_LOCKING, FREE_LOCKING}
      ensures Erased(old(mem[..]), p - HEADER) ==> r == Bugcheck(FREE_LOCKING)
      ensures Valid() && (r.Bugcheck? ==> st == old(st) && mem[..] == old(mem[..]))
    {
      hide Core, OthersKept, NoAdjacentFree, Relabeled, SameData;
      var u := p - HEADER;
      ghost var i := FindBlock(mem[..], st, u);
      if Erased(mem[..], u) {
        ErasedReads(mem[..], u);
        ErasedIsNoBlock(mem[..], st, u);
      }
      var kind := ViewBack(mem[u + 1]).body.kind;
      if kind == LOCKED {
        return Bugcheck(DOUBLE_LOCKING);
      } else if kind == FREE || kind == FREED_PADDING {
        return Bugcheck(FREE_LOCKING);
      }
      var verdict := CheckBlockValid(u);
      if verdict.Failed? {
        return Bugcheck(verdict.why);
      }
      Retype(u, LOCKED, i);
      return Done;
    }

    /** ExUnlockHeapBlock. */
    method UnlockHeapBlock(p: nat) returns (r: Outcome)
      requires Valid() && p >= HEADER
      requires IsBlock(st.blocks, p - HEADER) || Stale(mem[..], st, p - HEADER)
      modifies this`st, mem
      ensures forall i :: 0 <= i < |old(st).blocks| && old(st).blocks[i].Data() == p ==>
        && (old(st).blocks[i].kind == LOCKED ==>
          && r == Done && st == Relabeled(old(st), i, ALLOCATED, old(st).blocks[i].pad)
          && SameData(old(mem[..]), mem[..], old(st).blocks[i]) && OthersKept(old(mem[..]), old(st), mem[..], st, p - HEADER))
        && (old(st).blocks[i].kind != LOCKED ==> r == Bugcheck(NOT_LOCKED))
      ensures !IsBlock(old(st).blocks, p - HEADER) ==> r.Bugcheck? && r.why in VALIDATION + {NOT_LOCKED}
      ensures Erased(old(mem[..]), p - HEADER) ==> r == Bugcheck(NOT_LOCKED)
      ensures Valid() && (r.Bugcheck? ==> st == old(st) && mem[..] == old(mem[..]))
    {
      hide Core, OthersKept, NoAdjacentFree, Relabeled, SameData;
      var u := p - HEADER;
      ghost var i := FindBlock(mem[..], st, u);
      if Erased(mem[..], u) {
        ErasedReads(mem[..], u);
        ErasedIsNoBlock(mem[..], st, u);
      }
      if ViewBack(mem[u + 1]).body.kind != LOCKED {
        return Bugcheck(NOT_LOCKED);
      }
      var verdict := CheckBlockValid(u);
      if verdict.Failed? {
        return Bugcheck(verdict.why);
      }
      Retype(u, ALLOCATED, i);
      return Done;
    }

    /** BlockType and checksum of a block in use. */
    method Retype(u: nat, kind: nat, ghost i: nat)
      requires Valid() && i < |st.blocks| && st.blocks[i].addr == u && st.blocks[i].Live()
      requires kind == ALLOCATED || kind == LOCKED
      modifies this`st, mem
      ensures Valid() && st == Relabeled(old(st), i, kind, old(st).blocks[i].pad)
      ensures SameData(old(mem[..]), mem[..], old(st).blocks[i])
      ensures OthersKept(old(mem[..]), old(st), mem[..], st, u)
    {
      hide Core, Rings, BlockOk, SameOutside, HeaderRead, HeaderStored, Summed, KindSet, OthersKept, NoAdjacentFree, Relabeled;
      ghost var m0 := mem[..];
      ghost var b := st.blocks[i].(kind := kind);
      HeaderReads(m0, st, i);
      SetBlockType(u, kind);
      RecalculateChecksum(u);
      KindStores(m0, u, kind, b, cookie);
      RetypedOk(m0, st, i, b, mem[..]);
      RelabeledCore(m0, st, i, b, mem[..]);
      RelabeledNoAdjacent(st, i, kind, b.pad);
      st := Relabeled(st, i, kind, b.pad);
    }

    // -------------------------------------------------------------- reallocation in place

    /** Set a new padding size: the block's size stays. */
    method Repad(u: nat, size: nat, pad: nat, ghost i: nat)
      requires Valid() && i < |st.blocks| && st.blocks[i].addr == u && st.blocks[i].size == size && st.blocks[i].Live()
      requires pad < 256 && pad <= PARAGRAPH * size
      modifies this`st, mem
      ensures Valid() && st == Relabeled(old(st), i, old(st).blocks[i].kind, pad)
      ensures BytesKept(old(mem[..]), old(st).blocks[i], mem[..], old(st).blocks[i].(pad := pad), PARAGRAPH * size - pad)
      ensures OthersKept(old(mem[..]), old(st), mem[..], st, u)
    {
      hide Core, Rings, BlockOk, SameOutside, HeaderRead, HeaderStored, Summed, PadSet, OthersKept, NoAdjacentFree,
        Relabeled, PaddingWritten, BytesKept;
      ghost var m0 := mem[..];
      ghost var b := st.blocks[i].(pad := pad);
      HeaderReads(m0, st, i);
      SetPaddingSize(u, pad);
      RecalculateChecksum(u);
      PadStores(m0, u, pad, b, cookie);
      ghost var m1 := mem[..];
      AllocatedDataRaw(m0, st, i, b, m1);
      WriteAllocPadding(b, u, size, pad);
      Claimed(m0, st, i, b, m1, mem[..]);
      PaddedKeeps(m0, st, i, b, m1, mem[..]);
      RelabeledCore(m0, st, i, b, mem[..]);
      RelabeledNoAdjacent(st, i, b.kind, pad);
      st := Relabeled(st, i, b.kind, pad);
    }

    /** Re-point the neighbours of the LIST_ENTRY at v, which is about to move by d. */
    method NudgePointers(v: nat, d: int)
      requires CanNudge(mem[..], v)
      modifies mem
      ensures mem[..] == Nudged(old(mem[..]), v, d)
    {
      var blink, flink := mem[v].blink, mem[v].flink;
      mem[blink] := mem[blink].(flink := mem[blink].flink + d);
      mem[flink] := mem[flink].(blink := mem[flink].blink + d);
    }

    /** Move the header at v by d: list pointers corrected, then memmove. */
    method MoveHeader(v: nat, d: int)
      requires CanMove(mem[..], v, d)
      modifies mem
      ensures mem[..] == Moved(old(mem[..]), v, d)
    {
      NudgePointers(v, d);
      NudgePointers(v + 1, d);
      mem[v + d], mem[v + d + 1] := mem[v], mem[v + 1];
    }

    /** Move the header of the free block behind the block at u back, over paragraphs the block gives
        up, and fill what lies between its old and new data. */
    method MoveBorderBack(u: nat, size: nat, nSize: nat, ghost i: nat)
      requires Valid() && i + 1 < |st.blocks| && st.blocks[i].addr == u && st.blocks[i].size == size
      requires st.blocks[i].kind != FREE && st.blocks[i + 1].kind == FREE && nSize + HEADER <= size
      modifies mem
      ensures BorderBack(old(mem[..]), st, i, nSize, mem[..])
    {
      hide Core, Rings, BlockOk, SameOutside, HeaderRead, SizeSet, NoAdjacentFree, FreedWritten, CanMove, Moved, HeaderTravelled,
        FreedAt, Tiled, BorderMoved;
      ghost var m0 := mem[..];
      ghost var c := MovedFree(st.blocks, i, nSize);
      HeaderReads(m0, st, i + 1);
      CoreNamedTiled(m0, st);
      MergedExtent(st, i);
      var v := u + HEADER + size;
      var d := nSize - size;
      ShrinkCanMove(m0, st, i, nSize, c, v, SizeSet(m0, v, c.size));
      SetSize(v, HeaderRead(mem[..], v).0.size + size - nSize);
      ghost var m1 := mem[..];
      MoveHeader(v, d);
      ghost var m3 := mem[..];
      WriteFreed(v, v + HEADER);
      ghost var m4 := mem[..];
      WriteFreed(v + d + HEADER, v + HEADER);
      ShrinkMoved(m0, st, i, nSize, c, v, m1, m3, m4, mem[..]);
    }

    /** The path of ExReallocHeap that gives the freed end of the block to the free block behind it. */
    method ShrinkIntoNext(u: nat, size: nat, n: Ulong, ghost i: nat) returns (r: Outcome)
      requires Valid() && i + 1 < |st.blocks| && st.blocks[i].addr == u && st.blocks[i].size == size
      requires st.blocks[i].kind == ALLOCATED && st.blocks[i + 1].kind == FREE && Units(n) + HEADER <= size
      modifies this`st, mem
      ensures r == Overrun <==> n > MAX_REQUEST
      ensures r != Overrun ==> r == Ptr(u + HEADER) && Valid() && ResizedByBorder(old(mem[..]), old(st), i, n, mem[..], st)
    {
      hide Core, Rings, BlockOk, SameOutside, HeaderRead, HeaderStored, Summed, PadSet, SizeSet, OthersKept, NoAdjacentFree,
        Shifted, PaddingWritten, BytesKept, BorderMoved, HeaderTypedAt, Units, ResizedByBorder;
      PadOf(n);
      ghost var m0, s := mem[..], st;
      var nSize := Units(n);
      ghost var c := MovedFree(s.blocks, i, nSize);
      HeaderReads(m0, s, i);
      MoveBorderBack(u, size, nSize, i);
      ghost var mA := mem[..];
      BorderParts(m0, s, i, nSize, mA);
      var pad := (PARAGRAPH * nSize - n) % 256;
      ghost var b := s.blocks[i].(size := nSize, pad := pad);
      SetSize(u, nSize);
      SetPaddingSize(u, pad);
      if pad > PARAGRAPH * nSize {
        return Overrun;
      }
      BorderDataRaw(mA, s, i, nSize, b, mem[..]);
      WriteAllocPadding(b, u, nSize, pad);
      ghost var m5 := mem[..];
      RecalculateChecksum(u);
      RecalculateChecksum(u + HEADER + nSize);
      ShrinkStores(mA, b, c, cookie, s.blocks[i], m5);
      BorderFinished(m0, s, i, nSize, pad, mA, HeaderStored(HeaderStored(mA, cookie, b), cookie, c), mem[..]);
      ShiftedNoAdjacent(s, i, nSize, pad);
      UserSizeIsNat(m0, s, i);
      ByBorder(m0, s, i, n, pad, mem[..], Shifted(s, i, nSize, pad));
      st := Shifted(s, i, nSize, pad);
      return Ptr(u + HEADER);
    }

    /** Move the header of the free block behind the block at u ahead, and fill its old place. */
    method MoveBorderAhead(u: nat, size: nat, nSize: nat, ghost i: nat)
      requires Valid() && i + 1 < |st.blocks| && st.blocks[i].addr == u && st.blocks[i].size == size < nSize
      requires st.blocks[i].kind != FREE && st.blocks[i + 1].kind == FREE && nSize + HEADER < size + st.blocks[i + 1].size
      modifies mem
      ensures BorderAhead(old(mem[..]), st, i, nSize, mem[..])
    {
      hide Core, Rings, BlockOk, SameOutside, HeaderRead, NoAdjacentFree, FreedWritten, CanMove, Moved, HeaderTravelled,
        FreedAt, Tiled, BorderMoved;
      ghost var m0 := mem[..];
      ghost var c := MovedFree(st.blocks, i, nSize);
      HeaderReads(m0, st, i + 1);
      CoreNamedTiled(m0, st);
      MergedExtent(st, i);
      var v := u + HEADER + size;
      var d := nSize - size;
      GrowCanMove(m0, st, i, nSize, c, v);
      MoveHeader(v, d);
      ghost var m3 := mem[..];
      WriteFreed(v, if d == 1 then v + 1 else v + HEADER);
      GrowMoved(m0, st, i, nSize, c, v, m3, mem[..]);
    }

    /** The path of ExReallocHeap that takes room from the free block behind the block. */
    method GrowIntoNext(u: nat, size: nat, n: Ulong, ghost i: nat) returns (r: Outcome)
      requires Valid() && i + 1 < |st.blocks| && st.blocks[i].addr == u && st.blocks[i].size == size < Units(n)
      requires st.blocks[i].kind == ALLOCATED && st.blocks[i + 1].kind == FREE
      requires Units(n) + HEADER < size + st.blocks[i + 1].size
      modifies this`st, mem
      ensures r == Ptr(u + HEADER) && Valid() && ResizedByBorder(old(mem[..]), old(st), i, n, mem[..], st)
    {
      hide Core, Rings, BlockOk, SameOutside, HeaderRead, HeaderStored, Summed, PadSet, SizeSet, OthersKept, NoAdjacentFree,
        Shifted, PaddingWritten, BytesKept, BorderMoved, HeaderTypedAt, Units, ResizedByBorder;
      PadOf(n);
      ghost var m0, s := mem[..], st;
      var nSize := Units(n);
      ghost var c := MovedFree(s.blocks, i, nSize);
      HeaderReads(m0, s, i);
      MoveBorderAhead(u, size, nSize, i);
      ghost var mA := mem[..];
      BorderParts(m0, s, i, nSize, mA);
      var q := u + HEADER + nSize;
      SetSize(q, HeaderRead(mem[..], q).0.size - (nSize - size));
      var pad := (PARAGRAPH * nSize - n) % 256;
      ghost var b := s.blocks[i].(size := nSize, pad := pad);
      SetSize(u, nSize);
      SetPaddingSize(u, pad);
      RecalculateChecksum(u);
      RecalculateChecksum(q);
      GrowStores(mA, b, c, cookie, s.blocks[i]);
      ghost var mB := mem[..];
      GrownDataRaw(mA, b, c, cookie, s.blocks[i], mB);
      WriteAllocPadding(b, u, nSize, pad);
      BorderFinished(m0, s, i, nSize, pad, mA, mB, mem[..]);
      ShiftedNoAdjacent(s, i, nSize, pad);
      UserSizeIsNat(m0, s, i);
      ByBorder(m0, s, i, n, pad, mem[..], Shifted(s, i, nSize, pad));
      st := Shifted(s, i, nSize, pad);
      return Ptr(u + HEADER);
    }

    /** The path of ExReallocHeap that cuts the block and makes the rest a free block. */
    method CutBlockOff(u: nat, size: nat, n: Ulong, ghost i: nat) returns (r: Outcome)
      requires Valid() && i < |st.blocks| && st.blocks[i].addr == u && st.blocks[i].size == size
      requires st.blocks[i].kind == ALLOCATED && Units(n) + HEADER < size
      requires i + 1 < |st.blocks| ==> st.blocks[i + 1].kind != FREE
      modifies this`st, mem
      ensures r == Overrun <==> n > MAX_REQUEST
      ensures r != Overrun ==> r == Ptr(u + HEADER) && Valid() && ResizedByCut(old(mem[..]), old(st), i, n, mem[..], st)
    {
      hide Core, Rings, BlockOk, SameOutside, HeaderRead, HeaderStored, Summed, PadSet, KindSet, CookieSet, SizeSet, OthersKept,
        NoAdjacentFree, CutOff, PaddingWritten, FreedWritten, BytesKept, CanLinkCut, CutLinked, Units, ResizedByCut;
      PadOf(n);
      ghost var m0, s := mem[..], st;
      var nSize := Units(n);
      var q := u + HEADER + nSize;
      HeaderReads(m0, s, i);
      ghost var junk := HeaderRead(m0, q).0.pad;
      ghost var c := CutBlock(s.blocks, i, nSize, junk);
      CutRoom(m0, s, i, nSize, junk);
      ghost var m1 := LayRest(u, size, nSize, i);
      ghost var m3 := mem[..];
      var pad := (PARAGRAPH * nSize - n) % 256;
      SetSize(u, nSize);
      SetPaddingSize(u, pad);
      if pad > PARAGRAPH * nSize {
        return Overrun;
      }
      ghost var b := s.blocks[i].(size := nSize, pad := pad);
      CutDataRaw(m0, s, i, b, c, m1, m3, mem[..]);
      WriteAllocPadding(b, u, nSize, pad);
      ghost var m5 := mem[..];
      RecalculateChecksum(u);
      ghost var m6 := mem[..];
      WriteFreed(q + HEADER, u + HEADER + size);
      CutCore(m0, s, i, b, c, m1, m3, m5, m6, mem[..]);
      CutOffNoAdjacent(s, i, nSize, pad, junk);
      UserSizeIsNat(m0, s, i);
      ByCut(m0, s, i, n, pad, mem[..], CutOff(s, i, nSize, pad, junk));
      st := CutOff(s, i, nSize, pad, junk);
      return Ptr(u + HEADER);
    }

    /** The header of the rest of a cut block: its fields, its checksum, and its place in both lists. */
    method LayRest(u: nat, size: nat, nSize: nat, ghost i: nat) returns (ghost m1: Mem)
      requires Valid() && i < |st.blocks| && st.blocks[i].addr == u && st.blocks[i].size == size
      requires st.blocks[i].kind == ALLOCATED && nSize + HEADER <= size && u + HEADER + size <= mem.Length
      modifies mem
      ensures RestLaid(old(mem[..]), st, i, nSize, m1, mem[..])
    {
      hide Core, Rings, BlockOk, SameOutside, HeaderRead, HeaderStored, Summed, KindSet, CookieSet, SizeSet, OthersKept,
        NoAdjacentFree, CutOff, CanLinkCut, CutLinked, SameBodies, OrderRing, FreeRing, UsedRing, WithAfter;
      ghost var m0, s := mem[..], st;
      var q := u + HEADER + nSize;
      ghost var junk := HeaderRead(m0, q).0.pad;
      CutRoom(m0, s, i, nSize, junk);
      SetSize(q, size - nSize - HEADER);
      SetCookie(q, cookie);
      SetBlockType(q, FREE);
      RecalculateChecksum(q);
      NewFreeStores(m0, q, size - nSize - HEADER, cookie, CutBlock(s.blocks, i, nSize, junk));
      m1 := mem[..];
      CutListed(m0, s, i, nSize, junk, m1);
      LinkCut(u, q);
    }

    method LinkCut(u: nat, c: nat)
      requires CanLinkCut(mem[..], u, c)
      modifies mem
      ensures mem[..] == CutLinked(old(mem[..]), u, c)
    {
      InsertHeadList(u + 1, c + 1);
      InsertTailList(FREE_HEAD, c);
    }

    /** memcpy of n bytes between the data of two blocks. */
    method CopyBytes(dst: nat, src: nat, n: nat, ghost b: Block, ghost o: Block)
      requires b.Data() == dst && o.Data() == src && b.End() <= mem.Length && o.End() <= mem.Length
      requires b.End() <= o.addr || o.End() <= b.addr
      requires DataBytes(mem[..], b) && DataBytes(mem[..], o)
      requires n <= b.UserSize() && n <= PARAGRAPH * o.size && b.UserSize() <= PARAGRAPH * b.size
      modifies mem
      ensures OwnerWrote(old(mem[..]), mem[..], b)
      ensures BytesKept(old(mem[..]), o, mem[..], b, n)
    {
      hide DataBytes, OwnerWrote, BytesKept, CopiedUpTo;
      ghost var m0 := mem[..];
      var j := 0;
      CopyStart(m0, b, o, n);
      while PARAGRAPH * j < n
        invariant 0 <= j <= b.size && j <= o.size && PARAGRAPH * (j - 1) < n
        invariant CopiedUpTo(m0, mem[..], b, o, n, j)
      {
        ghost var m1 := mem[..];
        mem[dst + j] := CopyOf(mem[src + j], mem[dst + j], n - PARAGRAPH * j);
        CopyStep(m0, m1, mem[..], b, o, n, j);
        j := j + 1;
      }
      CopiedAll(m0, mem[..], b, o, n, j);
    }

    /** The path of ExReallocHeap that finds a new block, copies the bytes there and frees the old one. */
    method MoveBlock(u: nat, size: nat, n: Ulong, ghost i: nat) returns (r: Outcome, ghost j: nat)
      requires Valid() && i < |st.blocks| && st.blocks[i].addr == u && st.blocks[i].size == size < Units(n)
      requires st.blocks[i].kind == ALLOCATED
      modifies this`st, mem
      ensures r == Null <==> forall q :: 0 <= q < |old(st).blocks| && old(st).blocks[q].kind == FREE ==> old(st).blocks[q].size < Units(n)
      ensures r == Null ==> Valid() && mem[..] == old(mem[..]) && st == old(st)
      ensures r != Null ==>
        && j < |old(st).blocks| && r == Ptr(old(st).blocks[j].Data())
        && Valid() && Relocated(old(mem[..]), old(st), i, j, n, mem[..], st)
    {
      hide Core, OthersKept, NoAdjacentFree, Taken, Freed, BytesKept, DataBytes, BestFit, OwnerWrote, HeaderRead;
      UnitsHoldRequest(n);
      ghost var m0, s := mem[..], st;
      var ideal;
      ideal, j := FindIdealBlock(n);
      if ideal == None {
        return Null, j;
      }
      BestFitHolds(s, j, Units(n));
      r := AllocateInBlock(ideal.value, n, j);
      ghost var m1, s1 := mem[..], st;
      ghost var i1 := TakenIndex(s, i, j, n);
      TakenBlocks(s, i, j, n);
      TakenApart(m0, s, m1, i, j, n);
      HeaderReads(m1, s1, i1);
      var pad := HeaderRead(mem[..], u).0.pad;
      UserSizeIsNat(m0, s, i);
      CopyBytes(r.u, u + HEADER, PARAGRAPH * size - pad, s1.blocks[j], s1.blocks[i1]);
      ghost var m2 := mem[..];
      OwnerMayWrite(m1, s1, j, m2);
      FreeHeapBlock(u, i1);
      RelocatedHolds(m0, s, i, j, n, m1, m2, mem[..], st);
    }

    // -------------------------------------------------------------- ExReallocHeap

    /** ExReallocHeap, by its paths. */
    method ReallocHeap(p: nat, n: Ulong) returns (r: Outcome, ghost i: nat, ghost j: nat)
      requires Valid() && p >= HEADER
      requires IsBlock(st.blocks, p - HEADER) || Stale(mem[..], st, p - HEADER)
      modifies this`st, mem
      ensures ReallocEnded(old(mem[..]), old(st), p, n, i, j, r, mem[..], st)
      ensures r != Overrun ==> Valid()
      ensures r.Bugcheck? || r == Null ==> st == old(st) && mem[..] == old(mem[..])
    {
      hide Core, OthersKept, NoAdjacentFree, Relabeled, ResizedByBorder, ResizedByCut, Relocated, BytesKept, HeaderRead, KindAt,
        Passes, Readable;
      j := 0;
      var u := p - HEADER;
      i := FindBlock(mem[..], st, u);
      if Erased(mem[..], u) {
        ErasedReads(mem[..], u);
        ErasedIsNoBlock(mem[..], st, u);
      }
      var kind := ViewBack(mem[u + 1]).body.kind;
      if kind == FREE {
        return Bugcheck(FREE_REALLOCATING), i, j;
      } else if kind == LOCKED {
        return Bugcheck(LOCKED_REALLOCATING), i, j;
      }
      var verdict := CheckBlockValid(u);
      if verdict.Failed? {
        return Bugcheck(verdict.why), i, j;
      }
      HeaderReads(mem[..], st, i);
      var size := HeaderRead(mem[..], u).0.size;
      if Units(n) <= size {
        r := ReallocSmaller(u, size, n, i);
      } else {
        r, j := ReallocLarger(u, size, n, i);
      }
    }

    /** The paths of ExReallocHeap for a request that fits into the block. */
    method ReallocSmaller(u: nat, size: nat, n: Ulong, ghost i: nat) returns (r: Outcome)
      requires Valid() && i < |st.blocks| && st.blocks[i].addr == u && st.blocks[i].size == size
      requires st.blocks[i].kind == ALLOCATED && Units(n) <= size
      modifies this`st, mem
      ensures r == Overrun <==> ReallocOverruns(old(st), i, n)
      ensures r != Overrun ==> Valid() && r.Ptr? && Reallocated(old(mem[..]), old(st), i, 0, n, r, mem[..], st)
    {
      hide Core, OthersKept, NoAdjacentFree, Relabeled, ResizedByBorder, ResizedByCut, Relocated, BytesKept, HeaderRead, KindAt,
        Reallocated, ReallocOverruns, Units, TightPad;
      HeaderReads(mem[..], st, i);
      UserSizeIsNat(mem[..], st, i);
      OverrunsWhen(st, i, n);
      ghost var m0, s := mem[..], st;
      var pad := HeaderRead(mem[..], u).0.pad;
      var nSize := Units(n);
      if size - nSize < HEADER {
        var newPad := (PARAGRAPH * size - n) % 256;
        PadOfBlock(size, n);
        if newPad > PARAGRAPH * size {
          return Overrun;
        }
        Repad(u, size, newPad, i);
        SmallerBy(m0, s, i, n, mem[..], st);
        return Ptr(u + HEADER);
      }
      OrderNeighbours(mem[..], st, i);
      var next := mem[u + 1].flink;
      if KindAt(mem[next]) == FREE {
        r := ShrinkIntoNext(u, size, n, i);
        if r != Overrun {
          SmallerBy(m0, s, i, n, mem[..], st);
        }
        return;
      }
      if size - nSize == HEADER {
        var newPad := (pad + (n - PARAGRAPH * nSize) % 256) % 256;
        if newPad > PARAGRAPH * size {
          return Overrun;
        }
        Repad(u, size, newPad, i);
        SmallerBy(m0, s, i, n, mem[..], st);
        return Ptr(u + HEADER);
      }
      r := CutBlockOff(u, size, n, i);
      if r != Overrun {
        SmallerBy(m0, s, i, n, mem[..], st);
      }
    }

    /** The paths of ExReallocHeap for a request larger than the block. */
    method ReallocLarger(u: nat, size: nat, n: Ulong, ghost i: nat) returns (r: Outcome, ghost j: nat)
      requires Valid() && i < |st.blocks| && st.blocks[i].addr == u && st.blocks[i].size == size
      requires st.blocks[i].kind == ALLOCATED && Units(n) > size
      modifies this`st, mem
      ensures Valid() && (r.Ptr? || r == Null) && Reallocated(old(mem[..]), old(st), i, j, n, r, mem[..], st)
      ensures r == Null ==> st == old(st) && mem[..] == old(mem[..])
    {
      hide Core, OthersKept, NoAdjacentFree, Relabeled, ResizedByBorder, ResizedByCut, Relocated, BytesKept, HeaderRead, KindAt;
      j := 0;
      HeaderReads(mem[..], st, i);
      OrderNeighbours(mem[..], st, i);
      var next := mem[u + 1].flink;
      if KindAt(mem[next]) == FREE {
        HeaderReads(mem[..], st, i + 1);
        if HeaderRead(mem[..], next - 1).0.size + size > Units(n) + HEADER {
          r := GrowIntoNext(u, size, n, i);
          return;
        }
      }
      r, j := MoveBlock(u, size, n, i);
    }

    // -------------------------------------------------------------- set-up and callers' writes

    /** ExInitializeHeap over the arena from base to the end of memory; c is what rdtsc left in ax. */
    method InitializeHeap(base: nat, c: nat)
      requires ORDER_HEAD < base && base + HEADER < mem.Length <= 0x1000_0000
      requires forall u :: base <= u < mem.Length ==> mem[u].Bytes16()
      modifies this, mem
      ensures mem == old(mem) && Valid() && cookie == c
      ensures st.base == base && st.limit == mem.Length && st.free == [base] && st.used == []
      ensures |st.blocks| == 1 && st.blocks[0].kind == FREE && st.blocks[0].size == mem.Length - base - HEADER
    {
      hide Ring, Summed, KindSet, CookieSet, SizeSet, HeaderStored, HeaderRead, FreedWritten, CanAppend, Rings, Core;
      var size := mem.Length - base - HEADER;
      mem[FREE_HEAD] := Entry(Anchor, FREE_HEAD, FREE_HEAD);
      mem[USED_HEAD] := Entry(Anchor, USED_HEAD, USED_HEAD);
      mem[ORDER_HEAD] := Entry(Anchor, ORDER_HEAD, ORDER_HEAD);
      ghost var junk := mem[base + 1].b[1];
      mem[base], mem[base + 1] := ViewFront(mem[base]), ViewBack(mem[base + 1]);
      ghost var m0 := mem[..];
      assert m0[base + 1].body.pad == junk;
      EmptyLists(m0, base);
      InsertTailList(FREE_HEAD, base);
      InsertTailList(ORDER_HEAD, base + 1);
      ghost var m1 := mem[..];
      PadTravels(m0, m1, base);
      ghost var b := Block(base, size, FREE, junk);
      SetBlockType(base, FREE);
      SetSize(base, size);
      SetCookie(base, c);
      RecalculateChecksum(base);
      FirstStores(m1, base, size, c, b);
      ghost var m2 := mem[..];
      WriteFreed(base + HEADER, base + HEADER + size);
      cookie := c;
      st := State(base, mem.Length, c, [b], [base], []);
      FirstCore(m0, m1, m2, mem[..], b, st);
    }

    /** A caller writes byte c at offset k of a block it holds: allowed below the block's user size. */
    method WriteByte(ghost i: nat, p: nat, k: nat, c: Byte)
      requires Owns(st, i, p, k) && Valid()
      modifies mem
      ensures ByteIs(mem[..], p, k, c) && OnlyOwnerWrote(old(mem[..]), mem[..], st, i)
      ensures OneByteWritten(old(mem[..]), mem[..], p, k, c)
      ensures Valid()
    {
      hide Core, OthersKept, NoAdjacentFree;
      ghost var m0 := mem[..];
      HeapBlockOk(m0, st, i);
      OwnedByte(m0, st.cookie, st.blocks[i], k, c);
      var v, q := p + k / PARAGRAPH, k % PARAGRAPH;
      mem[v] := Raw(mem[v].b[q := c]);
      OwnerMayWrite(m0, st, i, mem[..]);
    }
  }
}
