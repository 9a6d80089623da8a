/** What the heap keeps over any run, what one call undoes, and what reallocation promises. */
module HeapTheorems {
  import opened Common
  import opened HeapMemory
  import opened HeapState
  import opened HeapSplice
  import opened HeapSteps
  import opened HeapResize
  import opened KernelHeap

  // ---------------------------------------------------------------- space

  /** The paragraphs all blocks take up, headers included. */
  function Total(bs: seq<Block>): nat {
    if bs == [] then 0 else bs[0].size + HEADER + Total(bs[1..])
  }

  lemma {:induction false} TotalIsExtent(bs: seq<Block>, base: nat, limit: nat)
    requires Tiled(bs, base, limit)
    ensures Total(bs) == limit - base
  {
    if |bs| > 1 {
      var t := bs[1..];
      assert Abuts(bs, 0);
      forall i | 0 <= i < |t| - 1
        ensures Abuts(t, i)
      {
        assert Abuts(bs, i + 1);
      }
      TotalIsExtent(t, bs[1].addr, limit);
    }
  }

  /** No state of the heap loses or gains space. */
  lemma SpaceIsConserved(m: Mem, s: State, m': Mem, s': State)
    requires Inv(m, s) && Inv(m', s') && s'.base == s.base && s'.limit == s.limit
    ensures Total(s'.blocks) == Total(s.blocks) == s.limit - s.base
  {
    hide Core;
    CoreNamedTiled(m, s);
    CoreNamedTiled(m', s');
    TotalIsExtent(s.blocks, s.base, s.limit);
    TotalIsExtent(s'.blocks, s'.base, s'.limit);
  }

  /** Once every block is free there is only one, as large as the first one was. */
  lemma AllFreeIsOneBlock(m: Mem, s: State)
    requires Inv(m, s) && forall i :: 0 <= i < |s.blocks| ==> s.blocks[i].kind == FREE
    ensures |s.blocks| == 1 && s.blocks[0].addr == s.base && s.blocks[0].size == s.limit - s.base - HEADER
  {
    assert |s.blocks| > 1 ==> BothFree(s.blocks, 0);
  }

  /** The bytes of two blocks in use never overlap, and lie inside the arena. */
  lemma UsersAreApart(m: Mem, s: State, i: nat, j: nat)
    requires Inv(m, s) && i < j < |s.blocks|
    ensures s.base + HEADER <= s.blocks[i].Data() && s.blocks[i].End() + HEADER <= s.blocks[j].Data()
    ensures s.blocks[j].End() <= s.limit
  {
    hide Core;
    CoreNamedTiled(m, s);
    TiledApart(s.blocks, s.base, s.limit);
  }

  // ---------------------------------------------------------------- requests

  /** A served request gets at most 47 bytes of padding, so the UCHAR that records it holds it. */
  lemma TakenPadding(s: State, i: nat, n: Ulong)
    requires n <= MAX_REQUEST && i < |s.blocks| && s.blocks[i].kind == FREE && Units(n) <= s.blocks[i].size
    ensures i < |Taken(s, i, n).blocks|
    ensures var b := Taken(s, i, n).blocks[i];
      b.kind == ALLOCATED && b.addr == s.blocks[i].addr && b.UserSize() == n && b.pad <= 47
  {
    UnitsHoldRequest(n);
  }

  /** What a served request leaves: the block is cut exactly if that leaves a free block of at least a paragraph
      behind it, and is taken whole otherwise; no other block changes. */
  lemma TakenExactly(s: State, i: nat, n: Ulong)
    requires n <= MAX_REQUEST && i < |s.blocks| && s.blocks[i].kind == FREE && Units(n) <= s.blocks[i].size
    ensures var b, k, bs := s.blocks[i], Units(n), Taken(s, i, n).blocks;
      if b.size >= k + 3 then
        bs == s.blocks[..i]
              + [Block(b.addr, k, 2, PARAGRAPH * k - n), Block(b.addr + 2 + k, b.size - k - 2, 1, FREED_PADDING)]
              + s.blocks[i + 1..]
      else bs == s.blocks[..i] + [Block(b.addr, b.size, 2, PARAGRAPH * b.size - n)] + s.blocks[i + 1..]
    ensures Taken(s, i, n).used == s.used + [s.blocks[i].addr]
  {
    UnitsHoldRequest(n);
    hide Units;
  }

  /** A reallocation leaves the block in its place whenever it is large enough, or the free block behind it is;
      it moves the block only otherwise, and fails only if then no free block could hold it. */
  lemma ReallocMovesOnly(m: Mem, s: State, i: nat, j: nat, n: Ulong, r: Outcome, m': Mem, s': State)
    requires Core(m, s) && i < |s.blocks| && s.blocks[i].kind == ALLOCATED && Reallocated(m, s, i, j, n, r, m', s')
    ensures var b := s.blocks[i];
      var inPlace := Units(n) <= b.size
        || (i + 1 < |s.blocks| && s.blocks[i + 1].kind == FREE && b.size + s.blocks[i + 1].size > Units(n) + 2);
      && (r == Ptr(b.Data()) <==> inPlace)
      && (r == Null <==> !inPlace && forall q :: 0 <= q < |s.blocks| && s.blocks[q].kind == FREE ==> s.blocks[q].size < Units(n))
      && (r.Ptr? || r == Null)
  {
    hide Core, Repadded, ResizedByBorder, ResizedByCut, Units, TightPad, Taken, Freed, OthersKept, BytesKept;
    CoreNamedTiled(m, s);
    if r.Ptr? && j < |s.blocks| && s.blocks[j].Data() == s.blocks[i].Data() {
      SameAddressSameBlock(s.blocks, s.base, s.limit, i, j);
    }
  }

  /** Allocating and freeing again restores every block; only the stale padding field differs. */
  lemma FreeUndoesAllocate(s: State, i: nat, n: Ulong)
    requires NoAdjacentFree(s.blocks)
    requires n <= MAX_REQUEST && i < |s.blocks| && s.blocks[i].kind == FREE && Units(n) <= s.blocks[i].size
    ensures i < |Taken(s, i, n).blocks|
    ensures Freed(Taken(s, i, n), i).blocks == s.blocks[i := s.blocks[i].(pad := Taken(s, i, n).blocks[i].pad)]
  {
    hide TakenWhole, TakenPart, Freed, NoAdjacentFree;
    UnitsHoldRequest(n);
    var k := Units(n);
    if s.blocks[i].size - k <= HEADER {
      FreeUndoesWhole(s, i, n);
    } else {
      FreeUndoesPart(s, i, n, k);
    }
  }

  lemma FreeUndoesWhole(s: State, i: nat, n: Ulong)
    requires NoAdjacentFree(s.blocks) && i < |s.blocks| && s.blocks[i].kind == FREE && n <= PARAGRAPH * s.blocks[i].size
    ensures var t := TakenWhole(s, i, n);
      |t.blocks| == |s.blocks| && Freed(t, i).blocks == s.blocks[i := s.blocks[i].(pad := t.blocks[i].pad)]
  {
    hide Remove;
    var s1 := TakenWhole(s, i, n);
    var s2 := Released(s1, i);
    assert s2.blocks == s.blocks[i := s.blocks[i].(pad := s1.blocks[i].pad)];
    assert i > 0 ==> !BothFree(s.blocks, i - 1);
    assert i + 1 < |s.blocks| ==> !BothFree(s.blocks, i);
  }

  lemma FreeUndoesPart(s: State, i: nat, n: Ulong, k: nat)
    requires NoAdjacentFree(s.blocks) && i < |s.blocks| && s.blocks[i].kind == FREE
    requires n <= PARAGRAPH * k && k + HEADER <= s.blocks[i].size
    ensures var t := TakenPart(s, i, n, k);
      i < |t.blocks| && Freed(t, i).blocks == s.blocks[i := s.blocks[i].(pad := t.blocks[i].pad)]
  {
    hide Remove;
    var s1 := TakenPart(s, i, n, k);
    var s2 := Released(s1, i);
    assert s2.blocks[i + 1].kind == FREE;
    var s3 := MergedForward(s2, i);
    assert i > 0 ==> !BothFree(s.blocks, i - 1) && s3.blocks[i - 1] == s.blocks[i - 1];
    assert s3.blocks[i] == s.blocks[i].(pad := s1.blocks[i].pad);
    assert s3.blocks == s.blocks[i := s.blocks[i].(pad := s1.blocks[i].pad)];
  }

  // ---------------------------------------------------------------- reallocation

  /** Block b' is in use, starts at paragraph u, and holds the first n bytes b held. */
  ghost predicate Holds(m: Mem, b: Block, n: nat, m': Mem, b': Block, u: int) {
    b'.kind == ALLOCATED && b'.Data() == u && n <= b'.UserSize() && BytesKept(m, b, m', b', n)
  }

  /** What reallocation promises: the block returned holds the first min(old, new) bytes. */
  ghost predicate KeepsContents(m: Mem, b: Block, n: Ulong, r: Outcome, m': Mem, s': State) {
    exists b' :: Kept(m, b, n, r, m', s', b')
  }

  ghost predicate Kept(m: Mem, b: Block, n: Ulong, r: Outcome, m': Mem, s': State, b': Block) {
    r.Ptr? && b.UserSize() >= 0 && b' in s'.blocks && Holds(m, b, Min(b.UserSize(), n), m', b', r.u)
  }

  /** The block returned has room for what was asked for. */
  ghost predicate Grants(n: Ulong, r: Outcome, s': State) {
    r.Ptr? && exists b' :: b' in s'.blocks && b'.kind == ALLOCATED && b'.Data() == r.u && n <= b'.UserSize()
  }

  /** A reallocation that returns a block keeps the contents and disturbs no other block, on all paths
      but one: in the tight case, whose new padding may wrap, exactly when the old padding covers the
      rounding of the new size. */
  lemma ReallocKeepsExactly(m: Mem, s: State, i: nat, j: nat, n: Ulong, r: Outcome, m': Mem, s': State)
    requires Core(m, s) && Core(m', s') && i < |s.blocks| && s.blocks[i].kind == ALLOCATED && !ReallocOverruns(s, i, n)
    requires Reallocated(m, s, i, j, n, r, m', s') && r.Ptr?
    ensures OthersKept(m, s, m', s', s.blocks[i].addr)
    ensures KeepsContents(m, s.blocks[i], n, r, m', s') <==>
      (TightCase(s, i, n) ==> s.blocks[i].pad >= Rounding(n))
  {
    hide Core, BytesKept, OthersKept, Taken, Freed, Relocated, Repadded;
    if TightCase(s, i, n) {
      TightCaseKeepsExactly(m, s, i, n, r, m', s');
    } else {
      var b' := ReallocServes(m, s, i, j, n, r, m', s');
    }
  }

  /** It grants the size asked for on all paths but the tight one, and there exactly when the old padding lies
      between the rounding and two paragraphs and twice the rounding. */
  lemma ReallocGrantsExactly(m: Mem, s: State, i: nat, j: nat, n: Ulong, r: Outcome, m': Mem, s': State)
    requires Core(m, s) && Core(m', s') && i < |s.blocks| && s.blocks[i].kind == ALLOCATED && !ReallocOverruns(s, i, n)
    requires Reallocated(m, s, i, j, n, r, m', s') && r.Ptr?
    ensures Grants(n, r, s') <==>
      (TightCase(s, i, n) ==> n <= MAX_REQUEST && Rounding(n) <= s.blocks[i].pad <= 2 * PARAGRAPH + 2 * Rounding(n))
  {
    hide Core, BytesKept, OthersKept, Taken, Freed, Relocated, Repadded, Reallocated;
    if TightCase(s, i, n) {
      TightCaseGrantsExactly(m, s, i, j, n, r, m', s');
    } else {
      var b' := ReallocServes(m, s, i, j, n, r, m', s');
    }
  }

  lemma TightCaseGrantsExactly(m: Mem, s: State, i: nat, j: nat, n: Ulong, r: Outcome, m': Mem, s': State)
    requires Core(m, s) && Core(m', s') && i < |s.blocks| && s.blocks[i].kind == ALLOCATED && TightCase(s, i, n)
    requires Reallocated(m, s, i, j, n, r, m', s') && r.Ptr?
    ensures Grants(n, r, s') <==> n <= MAX_REQUEST && Rounding(n) <= s.blocks[i].pad <= 2 * PARAGRAPH + 2 * Rounding(n)
  {
    hide Core, BytesKept, OthersKept, Reallocated, TightPad, Rounding, Units;
    PadIsByte(m, s, i);
    UnitsHoldRequest(n);
    TightPadIs(s.blocks[i].pad, n);
    TightPath(m, s, i, j, n, r, m', s');
    var b' := s'.blocks[i];
    assert b' in s'.blocks;
    forall b | b in s'.blocks && b.Data() == r.u
      ensures b == b'
    {
      OneBlockAt(m', s', i, b);
    }
  }

  /** How far the size in paragraphs exceeds the request, as the byte arithmetic sees it. */
  function Rounding(n: Ulong): nat {
    (PARAGRAPH * Units(n) - n) % 256
  }

  lemma TightCaseKeepsExactly(m: Mem, s: State, i: nat, n: Ulong, r: Outcome, m': Mem, s': State)
    requires Core(m, s) && Core(m', s') && i < |s.blocks| && s.blocks[i].kind == ALLOCATED && TightCase(s, i, n)
    requires r == Ptr(s.blocks[i].Data()) && Repadded(m, s, i, TightPad(s.blocks[i].pad, n), m', s')
    ensures OthersKept(m, s, m', s', s.blocks[i].addr)
    ensures KeepsContents(m, s.blocks[i], n, r, m', s') <==> s.blocks[i].pad >= Rounding(n)
  {
    hide Core, BytesKept, OthersKept;
    var b, pad := s.blocks[i], TightPad(s.blocks[i].pad, n);
    UserSizeIsNat(m, s, i);
    PadIsByte(m, s, i);
    TightCaseRoom(s, i, n);
    if b.pad >= Rounding(n) {
      var b' := RepaddedKeeps(m, s, i, pad, n, r, m', s');
    } else {
      forall b' | b' in s'.blocks && b'.Data() == b.Data()
        ensures b' == b.(pad := pad)
      {
        OneBlockAt(m', s', i, b');
      }
    }
  }

  lemma PadIsByte(m: Mem, s: State, i: nat)
    requires Core(m, s) && i < |s.blocks|
    ensures s.blocks[i].pad < 256
  {
    assert BlockOk(m, s.cookie, s.blocks[i]);
  }

  lemma OneBlockAt(m: Mem, s: State, i: nat, b: Block)
    requires Core(m, s) && i < |s.blocks| && b in s.blocks && b.addr == s.blocks[i].addr
    ensures b == s.blocks[i]
  {
    hide Core;
    CoreNamedTiled(m, s);
    TiledApart(s.blocks, s.base, s.limit);
  }

  lemma ReallocServes(m: Mem, s: State, i: nat, j: nat, n: Ulong, r: Outcome, m': Mem, s': State) returns (b': Block)
    requires Core(m, s) && i < |s.blocks| && s.blocks[i].kind == ALLOCATED && n <= MAX_REQUEST
    requires Reallocated(m, s, i, j, n, r, m', s') && r.Ptr? && !TightCase(s, i, n)
    ensures b'.UserSize() == n && Kept(m, s.blocks[i], n, r, m', s', b')
    ensures OthersKept(m, s, m', s', s.blocks[i].addr)
  {
    hide Core, BytesKept, OthersKept, Taken, Freed;
    UnitsHoldRequest(n);
    UserSizeIsNat(m, s, i);
    var b, k := s.blocks[i], Units(n);
    if k <= b.size < k + HEADER {
      b' := RepaddedKeeps(m, s, i, PARAGRAPH * b.size - n, n, r, m', s');
    } else if k <= b.size || (NextIsFree(s, i) && s.blocks[i + 1].size + b.size > k + HEADER) {
      if NextIsFree(s, i) {
        ShiftedAt(s, i, k, PARAGRAPH * k - n);
      } else {
        CutOffAt(s, i, k, PARAGRAPH * k - n, HeaderRead(m, b.Data() + k).0.pad);
      }
      b' := s'.blocks[i];
    } else {
      BestFitHolds(s, j, k);
      TakenBlocks(s, i, j, n);
      b' := Taken(s, j, n).blocks[j];
      BytesKeptLess(m, b, m', b', b.UserSize(), Min(b.UserSize(), n));
    }
  }

  lemma RepaddedKeeps(m: Mem, s: State, i: nat, pad: int, n: Ulong, r: Outcome, m': Mem, s': State) returns (b': Block)
    requires i < |s.blocks| && s.blocks[i].kind == ALLOCATED && s.blocks[i].UserSize() >= 0
    requires r == Ptr(s.blocks[i].Data())
    requires Repadded(m, s, i, pad, m', s') && Min(s.blocks[i].UserSize(), n) <= PARAGRAPH * s.blocks[i].size - pad
    ensures b' == s.blocks[i].(pad := pad) && Kept(m, s.blocks[i], n, r, m', s', b')
    ensures OthersKept(m, s, m', s', s.blocks[i].addr)
  {
    hide BytesKept, OthersKept;
    var b := s.blocks[i];
    b' := b.(pad := pad);
    BytesKeptLess(m, b, m', b', b'.UserSize(), Min(b.UserSize(), n));
    assert s'.blocks[i] == b';
  }

  /** In the tight case the block is left with room for the kept bytes exactly when its old padding
      covers the rounding of the new size; otherwise the new padding is written over them.  Only one old
      padding, twice two paragraphs and twice the rounding, leaves the size that was asked for. */
  lemma TightCaseRoom(s: State, i: nat, n: Ulong)
    requires i < |s.blocks| && TightCase(s, i, n)
    requires s.blocks[i].pad < 256 && s.blocks[i].pad <= PARAGRAPH * s.blocks[i].size
    ensures var b := s.blocks[i]; var pad := TightPad(b.pad, n);
      && (b.pad >= Rounding(n) <==> pad <= PARAGRAPH * b.size && Min(b.UserSize(), n) <= PARAGRAPH * b.size - pad)
      && (n <= MAX_REQUEST ==> (PARAGRAPH * b.size - pad == n <==> b.pad == 2 * PARAGRAPH + 2 * Rounding(n)))
  {
    hide TightPad, Rounding, Units;
    UnitsHoldRequest(n);
    TightPadIs(s.blocks[i].pad, n);
  }

  lemma TightPadIs(pad: nat, n: Ulong)
    requires pad < 256
    ensures n <= MAX_REQUEST ==> Rounding(n) == PARAGRAPH * Units(n) - n
    ensures Rounding(n) < PARAGRAPH && (n > MAX_REQUEST ==> Rounding(n) > 0)
    ensures TightPad(pad, n) == if pad >= Rounding(n) then pad - Rounding(n) else pad + 256 - Rounding(n)
  {
    RoundingIs(n);
    hide Units;
    PadLess(pad, PARAGRAPH * Units(n) - n);
    assert n - PARAGRAPH * Units(n) == -(PARAGRAPH * Units(n) - n);
  }

  lemma RoundingIs(n: Ulong)
    ensures n <= MAX_REQUEST ==> Rounding(n) == PARAGRAPH * Units(n) - n
    ensures Rounding(n) < PARAGRAPH && (n > MAX_REQUEST ==> Rounding(n) > 0)
  {
    hide Units;
    PadOf(n);
    UnitsHoldRequest(n);
    if n > MAX_REQUEST {
      ByteIsRest(PARAGRAPH * Units(n) - n, -(ULONG / 256), ULONG - n);
    }
  }

  /** Adding the byte of -x takes the byte of x away. */
  lemma PadLess(pad: nat, x: int)
    requires pad < 256
    ensures (pad + (-x) % 256) % 256 == if pad >= x % 256 then pad - x % 256 else pad + 256 - x % 256
  {
    var q, e := x / 256, x % 256;
    assert x == 256 * q + e;
    if e == 0 {
      ByteIsRest(-x, -q, 0);
    } else {
      ByteIsRest(-x, -q - 1, 256 - e);
      if pad >= e {
        ByteIsRest(pad + (256 - e), 1, pad - e);
      } else {
        ByteIsRest(pad + (256 - e), 0, pad + 256 - e);
      }
    }
  }

  /** A block of 48 bytes asked down to 10 with no padding to spare and a used block behind: the fill starts
      in front of the block, in any heap. */
  lemma TightCaseOverruns(m: Mem, s: State, i: nat)
    requires Inv(m, s) && i < |s.blocks| && !NextIsFree(s, i)
    requires s.blocks[i].size == 3 && s.blocks[i].kind == ALLOCATED && s.blocks[i].pad == 0
    ensures TightCase(s, i, 10) && ReallocOverruns(s, i, 10)
  {
    hide Inv;
  }

  /** A block of 288 bytes asked down to 250: a pointer is returned, but only the first 38 bytes are left. */
  lemma TightCaseLoses(m: Mem, s: State, i: nat, j: nat, r: Outcome, m': Mem, s': State)
    requires Inv(m, s) && Inv(m', s') && i < |s.blocks| && !NextIsFree(s, i)
    requires s.blocks[i].size == 18 && s.blocks[i].kind == ALLOCATED && s.blocks[i].pad == 0
    requires Reallocated(m, s, i, j, 250, r, m', s')
    ensures TightCase(s, i, 250) && !ReallocOverruns(s, i, 250) && r == Ptr(s.blocks[i].Data())
    ensures !KeepsContents(m, s.blocks[i], 250, r, m', s')
    ensures i < |s'.blocks| && s'.blocks[i] == s.blocks[i].(pad := 250) && s'.blocks[i].UserSize() == 38
    ensures forall k :: 38 <= k < 250 ==> ByteIs(m', r.u, k, ALLOCATED_PADDING)
  {
    hide Core, OthersKept, BytesKept, NoAdjacentFree, KeepsContents, Reallocated, Units, TightPad, Rounding;
    TwoHundredAndFifty();
    TightPath(m, s, i, j, 250, r, m', s');
    ReallocKeepsExactly(m, s, i, j, 250, r, m', s');
    forall k | 38 <= k < 250
      ensures ByteIs(m', r.u, k, ALLOCATED_PADDING)
    {
      PaddingByte(m', s', i, k);
    }
  }

  lemma TwoHundredAndFifty()
    ensures Units(250) == 16 && TightPad(0, 250) == 250 && Rounding(250) == 6
  {
  }

  lemma TightPath(m: Mem, s: State, i: nat, j: nat, n: Ulong, r: Outcome, m': Mem, s': State)
    requires i < |s.blocks| && s.blocks[i].kind == ALLOCATED && TightCase(s, i, n) && Reallocated(m, s, i, j, n, r, m', s')
    ensures r == Ptr(s.blocks[i].Data())
    ensures i < |s'.blocks| && s'.blocks[i] == s.blocks[i].(pad := TightPad(s.blocks[i].pad, n))
  {
    hide OthersKept, BytesKept, TightPad, Units, Taken, Freed, Relocated;
  }

  lemma PaddingByte(m: Mem, s: State, i: nat, k: nat)
    requires Core(m, s) && i < |s.blocks| && s.blocks[i].Live() && s.blocks[i].UserSize() <= k < PARAGRAPH * s.blocks[i].size
    ensures ByteIs(m, s.blocks[i].Data(), k, ALLOCATED_PADDING)
  {
    hide Core, BlockOk;
    var b := s.blocks[i];
    HeapBlockOk(m, s, i);
    PaddingByteOf(m, s.cookie, b, b.Data() + k / PARAGRAPH, k % PARAGRAPH);
  }

  lemma PaddingByteOf(m: Mem, cookie: nat, b: Block, u: nat, q: nat)
    requires BlockOk(m, cookie, b) && b.Live() && b.Data() <= u < b.End() && q < PARAGRAPH
    requires b.UserSize() <= PARAGRAPH * (u - b.Data()) + q
    ensures u < |m| && m[u].Bytes16() && m[u].b[q] == ALLOCATED_PADDING
  {
    hide FreePattern;
    assert m[u].Bytes16();
  }

  /** The first two calls of a new heap that serves them at its start, one behind the other. */
  method TwoBlocks(h: Heap, base: nat, c: nat, n: Ulong) returns (p: nat)
    requires ORDER_HEAD < base && base + 100 < h.mem.Length <= 0x1000_0000 && 0 < n <= 512 && n % PARAGRAPH == 0
    requires forall u :: base <= u < h.mem.Length ==> h.mem[u].Bytes16()
    modifies h, h.mem
    ensures h.Valid() && h.mem == old(h.mem) && p == base + HEADER
    ensures |h.st.blocks| > 1 && h.st.blocks[0] == Block(base, n / PARAGRAPH, ALLOCATED, 0) && !NextIsFree(h.st, 0)
  {
    hide Core, OthersKept, Remove;
    h.InitializeHeap(base, c);
    var r, i := h.AllocateHeap(n);
    p := r.u;
    assert h.st.blocks[1].kind == FREE && h.st.blocks[1].size >= 1;
    r, i := h.AllocateHeap(16);
  }

  /** From the start: allocate 48 bytes and 16 more, then ask the first block down to 10. */
  method TightCaseReached(h: Heap, base: nat, c: nat) returns (r: Outcome)
    requires ORDER_HEAD < base && base + 100 < h.mem.Length <= 0x1000_0000
    requires forall u :: base <= u < h.mem.Length ==> h.mem[u].Bytes16()
    modifies h, h.mem
    ensures r == Overrun
  {
    hide Core, OthersKept, Remove;
    var p := TwoBlocks(h, base, c, 48);
    TightCaseOverruns(h.mem[..], h.st, 0);
    ghost var m, s, i, j := h.mem[..], h.st, 0, 0;
    r, i, j := h.ReallocHeap(p, 10);
    CoreNamedTiled(m, s);
    SameAddressSameBlock(s.blocks, s.base, s.limit, i, 0);
  }

  /** From the start: allocate 288 bytes and 16 more, write one byte, ask the first block down to 250; the
      byte is gone. */
  method TightCaseLosesByte(h: Heap, base: nat, c: nat, x: Byte) returns (p: nat, r: Outcome)
    requires ORDER_HEAD < base && base + 100 < h.mem.Length <= 0x1000_0000
    requires forall u :: base <= u < h.mem.Length ==> h.mem[u].Bytes16()
    modifies h, h.mem
    ensures h.Valid() && r == Ptr(p) && ByteIs(h.mem[..], p, 100, ALLOCATED_PADDING)
  {
    hide Core, OthersKept, Remove;
    p := TwoBlocks(h, base, c, 288);
    h.WriteByte(0, p, 100, x);
    ghost var m, s := h.mem[..], h.st;
    ghost var i, j := 0, 0;
    r, i, j := h.ReallocHeap(p, 250);
    CoreNamedTiled(m, s);
    SameAddressSameBlock(s.blocks, s.base, s.limit, i, 0);
    TightCaseLoses(m, s, 0, j, r, h.mem[..], h.st);
  }

  /** The low bit and the other bits of an exclusive or. */
  lemma XorBits(a: nat, b: nat)
    ensures Xor(a, b) == (if a % 2 == b % 2 then 0 else 1) + 2 * Xor(a / 2, b / 2)
  {
  }

  lemma {:induction false} XorInjective(a: nat, b: nat, c: nat)
    requires Xor(a, c) == Xor(b, c)
    ensures a == b
    decreases a + b + c
  {
    if a + b + c > 0 {
      XorBits(a, c);
      XorBits(b, c);
      XorInjective(a / 2, b / 2, c / 2);
    }
  }

  /** Two headers at one address have one checksum exactly when the sums of their fields agree. */
  lemma ChecksumTellsSums(addr: nat, b: Block, c: Block, cookie: nat)
    requires b.addr == c.addr == addr
    requires b.size + b.kind + b.pad + cookie < TWO32 && c.size + c.kind + c.pad + cookie < TWO32
    ensures b.Magic(cookie) == c.Magic(cookie) <==> b.size + b.kind + b.pad == c.size + c.kind + c.pad
  {
    hide Xor;
    if b.Magic(cookie) == c.Magic(cookie) {
      XorInjective((b.pad + b.kind + b.size + cookie) % TWO32, (c.pad + c.kind + c.size + cookie) % TWO32, PARAGRAPH * addr);
    }
  }

  lemma {:induction false} XorBack(a: nat, c: nat)
    ensures Xor(Xor(a, c), c) == a && Xor(a, c) == Xor(c, a)
    decreases a + c
  {
    hide Xor;
    XorBits(a, c);
    XorBits(c, a);
    XorBits(Xor(a, c), c);
    if a + c > 0 {
      XorBack(a / 2, c / 2);
    }
  }

  /** The checksum and the address of a header give back the sum of its fields: the one is the other with the
      bits of the address flipped. */
  lemma SumFromChecksum(b: Block, cookie: nat)
    ensures Xor(b.Magic(cookie), PARAGRAPH * b.addr) == (b.pad + b.kind + b.size + cookie) % TWO32
  {
    hide Xor;
    XorBack((b.pad + b.kind + b.size + cookie) % TWO32, PARAGRAPH * b.addr);
  }

  /** Equal fields at different addresses have different checksums: no header passes elsewhere. */
  lemma ChecksumTellsAddress(b: Block, addr: nat, cookie: nat)
    requires addr != b.addr
    ensures b.(addr := addr).Magic(cookie) != b.Magic(cookie)
  {
    hide Xor;
    var sum := (b.pad + b.kind + b.size + cookie) % TWO32;
    XorBack(PARAGRAPH * b.addr, sum);
    XorBack(PARAGRAPH * addr, sum);
  }

  lemma FieldsAreSmall(m: Mem, s: State, i: nat)
    requires Core(m, s) && i < |s.blocks|
    ensures s.blocks[i].addr + 1 < |m|
    ensures s.blocks[i].size <= 0x1000_0000 && s.blocks[i].kind <= LOCKED && s.blocks[i].pad < 256
  {
    hide Rings, Listed;
    assert BlockOk(m, s.cookie, s.blocks[i]);
  }

  /** Header d differs from b in exactly one of Size, BlockType and PaddingSize. */
  ghost predicate OneFieldDamaged(b: Block, d: Block) {
    && d != b
    && (d == b.(size := d.size) || d == b.(kind := d.kind) || d == b.(pad := d.pad))
    && d.kind < 256 && d.pad < 256 && d.size < 0xFFFE_0000
  }

  /** A header in which one of Size, BlockType and PaddingSize alone was damaged never passes. */
  lemma DamagedFieldFails(m: Mem, s: State, i: nat, m': Mem)
    requires Core(m, s) && i < |s.blocks| && s.cookie < 0x1_0000
    requires |m'| == |m| && s.blocks[i].addr + 1 < |m|
    requires HeaderRead(m', s.blocks[i].addr).1 == s.cookie
    requires OneFieldDamaged(s.blocks[i], HeaderRead(m', s.blocks[i].addr).0)
    requires ViewFront(m'[s.blocks[i].addr]).body.magic1 == ViewFront(m[s.blocks[i].addr]).body.magic1
    ensures !Passes(m', s.cookie, s.blocks[i].addr)
  {
    hide Core, Checksum;
    HeapBlockOk(m, s, i);
    FieldsAreSmall(m, s, i);
    var b := s.blocks[i];
    ChecksumTellsSums(b.addr, b, HeaderRead(m', b.addr).0, s.cookie);
  }
}
