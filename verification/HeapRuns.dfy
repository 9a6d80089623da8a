/** Whole runs of the kernel heap: callers that keep to the memory they hold never meet a damaged header,
    and every byte they wrote stays until they give it up (kernel/ex.cpp). */
module HeapRuns {
  import opened Common
  import opened HeapMemory
  import opened HeapState
  import opened HeapSplice
  import opened HeapSteps
  import opened HeapResize
  import opened KernelHeap
  import opened HeapTheorems

  datatype Call =
    | Allocate(n: Ulong)
    | Free(p: nat)
    | Reallocate(p: nat, n: Ulong)
    | Lock(p: nat)
    | Unlock(p: nat)
    | Write(p: nat, k: nat, c: Byte)

  datatype Point = Point(m: Mem, s: State)

  // ---------------------------------------------------------------- one call

  ghost predicate BlockAt(s: State, i: nat, p: nat, kind: nat) {
    i < |s.blocks| && s.blocks[i].Data() == p && s.blocks[i].kind == kind
  }

  ghost predicate Allocated(a: Point, n: Ulong, i: nat, r: Outcome, b: Point) {
    && n <= MAX_REQUEST && BestFit(a.s, i, Units(n)) && r == Ptr(a.s.blocks[i].Data())
    && b.s == Taken(a.s, i, n) && OthersKept(a.m, a.s, b.m, b.s, -1)
  }

  ghost predicate FreedAt(a: Point, i: nat, b: Point) {
    i < |a.s.blocks| && b.s == Freed(a.s, i) && OthersKept(a.m, a.s, b.m, b.s, a.s.blocks[i].addr)
  }

  ghost predicate RetypedAt(a: Point, i: nat, kind: nat, b: Point) {
    && i < |a.s.blocks| && b.s == Relabeled(a.s, i, kind, a.s.blocks[i].pad)
    && SameData(a.m, b.m, a.s.blocks[i]) && OthersKept(a.m, a.s, b.m, b.s, a.s.blocks[i].addr)
  }

  ghost predicate MovedAt(a: Point, i: nat, j: nat, n: Ulong, r: Outcome, b: Point) {
    i < |a.s.blocks| && r.Ptr? && !ReallocOverruns(a.s, i, n) && Reallocated(a.m, a.s, i, j, n, r, b.m, b.s)
  }

  ghost predicate WrittenAt(a: Point, i: nat, p: nat, k: nat, x: Byte, b: Point) {
    b.s == a.s && Owns(a.s, i, p, k) && OneByteWritten(a.m, b.m, p, k, x) && OnlyOwnerWrote(a.m, b.m, a.s, i)
  }

  /** What a call does that does not overrun. */
  ghost predicate Stepped(a: Point, c: Call, r: Outcome, b: Point) {
    && Inv(a.m, a.s) && Inv(b.m, b.s) && b.s.base == a.s.base && b.s.limit == a.s.limit
    && match c
       case Allocate(n) => (r == Null && b == a) || exists i: nat :: Allocated(a, n, i, r, b)
       case Free(p) => forall i: nat {:trigger BlockAt(a.s, i, p, ALLOCATED)} :: BlockAt(a.s, i, p, ALLOCATED) ==>
         r == Done && FreedAt(a, i, b)
       case Reallocate(p, n) => forall i: nat {:trigger BlockAt(a.s, i, p, ALLOCATED)} :: BlockAt(a.s, i, p, ALLOCATED) ==>
         (r == Null && b == a) || exists j: nat :: MovedAt(a, i, j, n, r, b)
       case Lock(p) => forall i: nat {:trigger BlockAt(a.s, i, p, ALLOCATED)} :: BlockAt(a.s, i, p, ALLOCATED) ==>
         r == Done && RetypedAt(a, i, LOCKED, b)
       case Unlock(p) => forall i: nat {:trigger BlockAt(a.s, i, p, LOCKED)} :: BlockAt(a.s, i, p, LOCKED) ==>
         r == Done && RetypedAt(a, i, ALLOCATED, b)
       case Write(p, k, x) => r == Done && exists i: nat :: WrittenAt(a, i, p, k, x, b)
  }

  /** The pointer of a call is one the heap handed out, and a write stays inside what it handed out. */
  ghost predicate Callable(a: Point, c: Call) {
    match c
    case Allocate(_) => true
    case Write(p, k, _) => exists i: nat :: Owns(a.s, i, p, k)
    case _ => c.p >= HEADER && (IsBlock(a.s.blocks, c.p - HEADER) || Stale(a.m, a.s, c.p - HEADER))
  }

  lemma OnlyOneAt(a: Point, p: nat, kind: nat, i: nat)
    requires Core(a.m, a.s)
    ensures i < |a.s.blocks| && a.s.blocks[i].Data() == p ==> forall q :: BlockAt(a.s, q, p, kind) ==> q == i
  {
    hide Core;
    CoreNamedTiled(a.m, a.s);
    forall q | i < |a.s.blocks| && a.s.blocks[i].Data() == p && BlockAt(a.s, q, p, kind)
      ensures q == i
    {
      SameAddressSameBlock(a.s.blocks, a.s.base, a.s.limit, q, i);
    }
  }

  lemma Kinds(m: Mem, s: State)
    requires Core(m, s)
    ensures forall i :: 0 <= i < |s.blocks| ==> s.blocks[i].kind in {FREE, ALLOCATED, LOCKED}
  {
    hide Core;
    forall i | 0 <= i < |s.blocks|
      ensures s.blocks[i].kind in {FREE, ALLOCATED, LOCKED}
    {
      HeapBlockOk(m, s, i);
    }
  }

  lemma SameExtents(s: State)
    ensures forall i: nat :: i < |s.blocks| ==> Freed(s, i).base == s.base && Freed(s, i).limit == s.limit
  {
  }

  lemma ReallocEnds(a: Point, i: nat, j: nat, n: Ulong, r: Outcome, b: Point)
    requires i < |a.s.blocks| && !ReallocOverruns(a.s, i, n) && Reallocated(a.m, a.s, i, j, n, r, b.m, b.s)
    ensures b.s.base == a.s.base && b.s.limit == a.s.limit
    ensures (r == Null && b == a) || MovedAt(a, i, j, n, r, b)
  {
    hide OthersKept, BytesKept;
  }

  /** Every call is such a step, or overruns. */
  method Perform(h: Heap, c: Call) returns (r: Outcome)
    requires h.Valid() && Callable(Point(h.mem[..], h.st), c)
    modifies h, h.mem
    ensures h.mem == old(h.mem)
    ensures r != Overrun ==> h.Valid() && Stepped(old(Point(h.mem[..], h.st)), c, r, Point(h.mem[..], h.st))
  {
    hide Stepped, Inv;
    match c {
      case Allocate(n) => r := PerformAllocate(h, n);
      case Free(p) => r := PerformFree(h, p);
      case Reallocate(p, n) => r := PerformReallocate(h, p, n);
      case Lock(p) => r := PerformLock(h, p);
      case Unlock(p) => r := PerformUnlock(h, p);
      case Write(p, k, x) =>
        WriteInto(h, p, k, x);
        r := Done;
    }
  }

  method PerformAllocate(h: Heap, n: Ulong) returns (r: Outcome)
    requires h.Valid()
    modifies h`st, h.mem
    ensures r != Overrun ==> h.Valid() && Stepped(old(Point(h.mem[..], h.st)), Allocate(n), r, Point(h.mem[..], h.st))
  {
    hide Core, OthersKept, NoAdjacentFree;
    ghost var a, i := Point(h.mem[..], h.st), 0;
    r, i := h.AllocateHeap(n);
    assert r.Ptr? ==> Allocated(a, n, i, r, Point(h.mem[..], h.st));
  }

  method PerformFree(h: Heap, p: nat) returns (r: Outcome)
    requires h.Valid() && Callable(Point(h.mem[..], h.st), Free(p))
    modifies h`st, h.mem
    ensures h.Valid() && Stepped(old(Point(h.mem[..], h.st)), Free(p), r, Point(h.mem[..], h.st))
  {
    hide Core, OthersKept, NoAdjacentFree, Freed, Stale;
    ghost var a := Point(h.mem[..], h.st);
    Kinds(a.m, a.s);
    r := h.FreeHeap(p);
    SameExtents(a.s);
  }

  method PerformReallocate(h: Heap, p: nat, n: Ulong) returns (r: Outcome)
    requires h.Valid() && Callable(Point(h.mem[..], h.st), Reallocate(p, n))
    modifies h`st, h.mem
    ensures r != Overrun ==> h.Valid() && Stepped(old(Point(h.mem[..], h.st)), Reallocate(p, n), r, Point(h.mem[..], h.st))
  {
    hide Core, OthersKept, NoAdjacentFree, Reallocated, ReallocOverruns, Stale;
    ghost var a := Point(h.mem[..], h.st);
    ghost var i, j := 0, 0;
    Kinds(a.m, a.s);
    r, i, j := h.ReallocHeap(p, n);
    if IsBlock(a.s.blocks, p - HEADER) && a.s.blocks[i].kind == ALLOCATED && r != Overrun {
      ReallocEnds(a, i, j, n, r, Point(h.mem[..], h.st));
    }
    OnlyOneAt(a, p, ALLOCATED, i);
  }

  method PerformLock(h: Heap, p: nat) returns (r: Outcome)
    requires h.Valid() && Callable(Point(h.mem[..], h.st), Lock(p))
    modifies h`st, h.mem
    ensures h.Valid() && Stepped(old(Point(h.mem[..], h.st)), Lock(p), r, Point(h.mem[..], h.st))
  {
    hide Core, OthersKept, NoAdjacentFree, SameData, Stale;
    Kinds(h.mem[..], h.st);
    r := h.LockHeapBlock(p);
  }

  method PerformUnlock(h: Heap, p: nat) returns (r: Outcome)
    requires h.Valid() && Callable(Point(h.mem[..], h.st), Unlock(p))
    modifies h`st, h.mem
    ensures h.Valid() && Stepped(old(Point(h.mem[..], h.st)), Unlock(p), r, Point(h.mem[..], h.st))
  {
    hide Core, OthersKept, NoAdjacentFree, SameData, Stale;
    r := h.UnlockHeapBlock(p);
  }

  method WriteInto(h: Heap, p: nat, k: nat, x: Byte)
    requires h.Valid() && Callable(Point(h.mem[..], h.st), Write(p, k, x))
    modifies h.mem
    ensures h.Valid() && Stepped(old(Point(h.mem[..], h.st)), Write(p, k, x), Done, Point(h.mem[..], h.st))
  {
    hide Core, OthersKept, NoAdjacentFree, OnlyOwnerWrote;
    ghost var a := Point(h.mem[..], h.st);
    ghost var w: nat :| Owns(h.st, w, p, k);
    h.WriteByte(w, p, k, x);
    assert WrittenAt(a, w, p, k, x, Point(h.mem[..], h.st));
  }

  // ---------------------------------------------------------------- what callers hold

  /** Memory a caller holds: the size it asked for, whether it locked it, and what it wrote there. */
  datatype Holding = Holding(size: nat, locked: bool, bytes: map<nat, Byte>)

  type Held = map<nat, Holding>

  /** What callers hold after a call, by what it returned. */
  function After(hs: Held, c: Call, r: Outcome): Held {
    match c
    case Allocate(n) => if r.Ptr? then hs[r.u := Holding(n, false, map[])] else hs
    case Free(p) => hs - {p}
    case Reallocate(p, n) => if p in hs && r.Ptr? then (hs - {p})[r.u := Resized(hs[p], n)] else hs
    case Lock(p) => if p in hs then hs[p := hs[p].(locked := true)] else hs
    case Unlock(p) => if p in hs then hs[p := hs[p].(locked := false)] else hs
    case Write(p, k, x) => if p in hs then hs[p := hs[p].(bytes := hs[p].bytes[k := x])] else hs
  }

  function Resized(h: Holding, n: nat): Holding {
    Holding(n, false, map k | k in h.bytes && k < n :: h.bytes[k])
  }

  /** A caller that keeps to what it holds. */
  predicate Uses(hs: Held, c: Call) {
    match c
    case Allocate(_) => true
    case Unlock(p) => p in hs && hs[p].locked
    case Write(p, k, _) => p in hs && k < hs[p].size
    case _ => c.p in hs && !hs[c.p].locked
  }

  /** A reallocation that grants what was asked for (see ReallocGrantsExactly). */
  ghost predicate Granted(a: Point, c: Call) {
    c.Reallocate? ==> forall i: nat {:trigger BlockAt(a.s, i, c.p, ALLOCATED)} ::
      BlockAt(a.s, i, c.p, ALLOCATED) && TightCase(a.s, i, c.n) ==>
        c.n <= MAX_REQUEST && Rounding(c.n) <= a.s.blocks[i].pad <= 2 * PARAGRAPH + 2 * Rounding(c.n)
  }

  ghost predicate HoldsAt(a: Point, i: nat, p: nat, h: Holding) {
    && BlockAt(a.s, i, p, if h.locked then LOCKED else ALLOCATED) && h.size <= a.s.blocks[i].UserSize()
    && forall k :: k in h.bytes ==> k < h.size && ByteIs(a.m, p, k, h.bytes[k])
  }

  ghost predicate HeldAt(a: Point, p: nat, h: Holding) {
    exists i: nat :: HoldsAt(a, i, p, h)
  }

  /** Everything callers hold is a block of the heap and shows what they wrote. */
  ghost predicate Intact(a: Point, hs: Held) {
    forall p :: p in hs ==> HeldAt(a, p, hs[p])
  }

  // ---------------------------------------------------------------- one call keeps it

  lemma SameBytes(m: Mem, m': Mem, b: Block, k: nat, x: Byte)
    requires SameData(m, m', b) && k < PARAGRAPH * b.size && ByteIs(m, b.Data(), k, x)
    ensures ByteIs(m', b.Data(), k, x)
  {
    assert b.Data() + k / PARAGRAPH < b.End();
  }

  /** A block the call did not touch. */
  lemma StaysHeld(a: Point, b: Point, x: int, p: nat, h: Holding)
    requires OthersKept(a.m, a.s, b.m, b.s, x) && HeldAt(a, p, h) && (x < 0 || p != x + HEADER)
    ensures HeldAt(b, p, h)
  {
    var i: nat :| HoldsAt(a, i, p, h);
    var o := a.s.blocks[i];
    assert o in b.s.blocks && SameData(a.m, b.m, o);
    var i' :| 0 <= i' < |b.s.blocks| && b.s.blocks[i'] == o;
    forall k | k in h.bytes
      ensures ByteIs(b.m, p, k, h.bytes[k])
    {
      SameBytes(a.m, b.m, o, k, h.bytes[k]);
    }
    assert HoldsAt(b, i', p, h);
  }

  lemma AllStayHeld(a: Point, b: Point, x: int, hs: Held)
    requires OthersKept(a.m, a.s, b.m, b.s, x) && Intact(a, hs)
    ensures forall p :: p in hs && (x < 0 || p != x + HEADER) ==> HeldAt(b, p, hs[p])
  {
    hide OthersKept, HeldAt;
    forall p | p in hs && (x < 0 || p != x + HEADER)
      ensures HeldAt(b, p, hs[p])
    {
      StaysHeld(a, b, x, p, hs[p]);
    }
  }

  lemma AllocateIntact(a: Point, hs: Held, n: Ulong, i: nat, r: Outcome, b: Point)
    requires Intact(a, hs) && Allocated(a, n, i, r, b)
    ensures Intact(b, After(hs, Allocate(n), r))
  {
    hide OthersKept, HeldAt, Taken;
    AllStayHeld(a, b, -1, hs);
    BestFitHolds(a.s, i, Units(n));
    TakenPadding(a.s, i, n);
    NewlyHeld(b, i, r.u, n);
  }

  lemma NewlyHeld(b: Point, i: nat, p: nat, n: nat)
    requires BlockAt(b.s, i, p, ALLOCATED) && n <= b.s.blocks[i].UserSize()
    ensures HeldAt(b, p, Holding(n, false, map[]))
  {
    assert HoldsAt(b, i, p, Holding(n, false, map[]));
  }

  lemma FreeIntact(a: Point, hs: Held, p: nat, i: nat, b: Point)
    requires Intact(a, hs) && FreedAt(a, i, b) && BlockAt(a.s, i, p, ALLOCATED)
    ensures Intact(b, hs - {p})
  {
    hide OthersKept, HeldAt, Freed;
    AllStayHeld(a, b, a.s.blocks[i].addr, hs);
  }

  lemma RetypeIntact(a: Point, hs: Held, p: nat, i: nat, locked: bool, b: Point)
    requires Intact(a, hs) && p in hs && BlockAt(a.s, i, p, if hs[p].locked then LOCKED else ALLOCATED)
    requires Core(a.m, a.s) && RetypedAt(a, i, if locked then LOCKED else ALLOCATED, b)
    ensures Intact(b, hs[p := hs[p].(locked := locked)])
  {
    hide OthersKept, HeldAt, Core;
    AllStayHeld(a, b, a.s.blocks[i].addr, hs);
    var h := hs[p];
    HeldHere(a, p, h, i);
    forall k | k in h.bytes
      ensures ByteIs(b.m, p, k, h.bytes[k])
    {
      SameBytes(a.m, b.m, a.s.blocks[i], k, h.bytes[k]);
    }
    assert HoldsAt(b, i, p, h.(locked := locked));
    HoldsIsHeld(b, i, p, h.(locked := locked));
  }

  lemma HoldsIsHeld(a: Point, i: nat, p: nat, h: Holding)
    requires HoldsAt(a, i, p, h)
    ensures HeldAt(a, p, h)
  {
  }

  /** The block a caller holds is the one at its pointer. */
  lemma HeldHere(a: Point, p: nat, h: Holding, i: nat)
    requires Core(a.m, a.s) && HeldAt(a, p, h) && i < |a.s.blocks| && a.s.blocks[i].Data() == p
    ensures HoldsAt(a, i, p, h)
  {
    hide Core;
    CoreNamedTiled(a.m, a.s);
    var q: nat :| HoldsAt(a, q, p, h);
    SameAddressSameBlock(a.s.blocks, a.s.base, a.s.limit, q, i);
  }

  lemma WriteIntact(a: Point, hs: Held, p: nat, k: nat, x: Byte, i: nat, b: Point)
    requires Core(a.m, a.s) && Intact(a, hs) && p in hs && k < hs[p].size && WrittenAt(a, i, p, k, x, b)
    ensures Intact(b, After(hs, Write(p, k, x), Done))
  {
    hide OthersKept, HeldAt, Core, OwnerWrote;
    AllStayHeld(a, b, a.s.blocks[i].addr, hs);
    var h := hs[p];
    HeldHere(a, p, h, i);
    var h' := h.(bytes := h.bytes[k := x]);
    forall q | q in h'.bytes
      ensures ByteIs(b.m, p, q, h'.bytes[q])
    {
      OtherByte(a.m, b.m, p, k, x, q, h'.bytes[q]);
    }
    assert HoldsAt(b, i, p, h');
    HoldsIsHeld(b, i, p, h');
  }

  lemma OtherByte(m: Mem, m': Mem, p: nat, k: nat, x: Byte, q: nat, y: Byte)
    requires OneByteWritten(m, m', p, k, x) && if q == k then y == x else ByteIs(m, p, q, y)
    ensures ByteIs(m', p, q, y)
  {
    if q / PARAGRAPH == k / PARAGRAPH && q != k {
      assert q % PARAGRAPH != k % PARAGRAPH;
    }
  }

  lemma ReallocateIntact(a: Point, hs: Held, p: nat, n: Ulong, i: nat, j: nat, r: Outcome, b: Point)
    requires Core(a.m, a.s) && Core(b.m, b.s) && Intact(a, hs) && p in hs && !hs[p].locked
    requires BlockAt(a.s, i, p, ALLOCATED) && MovedAt(a, i, j, n, r, b) && Granted(a, Reallocate(p, n))
    ensures Intact(b, After(hs, Reallocate(p, n), r))
  {
    hide OthersKept, HeldAt, Core, Reallocated, ReallocOverruns, TightCase, Rounding;
    ReallocKeepsExactly(a.m, a.s, i, j, n, r, b.m, b.s);
    ReallocGrantsExactly(a.m, a.s, i, j, n, r, b.m, b.s);
    AllStayHeld(a, b, a.s.blocks[i].addr, hs);
    HeldHere(a, p, hs[p], i);
    ResizedHeld(a, i, p, hs[p], n, r, b);
  }

  lemma ResizedHeld(a: Point, i: nat, p: nat, h: Holding, n: Ulong, r: Outcome, b: Point)
    requires Core(b.m, b.s) && HoldsAt(a, i, p, h) && Grants(n, r, b.s) && KeepsContents(a.m, a.s.blocks[i], n, r, b.m, b.s)
    ensures HeldAt(b, r.u, Resized(h, n))
  {
    hide Core, BytesKept;
    var o := a.s.blocks[i];
    var b' :| Kept(a.m, o, n, r, b.m, b.s, b');
    var q :| 0 <= q < |b.s.blocks| && b.s.blocks[q] == b';
    var b'' :| b'' in b.s.blocks && b''.kind == ALLOCATED && b''.Data() == r.u && n <= b''.UserSize();
    assert b'.Data() == r.u;
    OneBlockAt(b.m, b.s, q, b'');
    var h' := Resized(h, n);
    forall k | k in h'.bytes
      ensures k < n && ByteIs(b.m, r.u, k, h'.bytes[k])
    {
      KeptByte(a.m, o, b.m, b', Min(o.UserSize(), n), k, h'.bytes[k]);
    }
    assert HoldsAt(b, q, r.u, h');
  }

  lemma KeptByte(m: Mem, b: Block, m': Mem, b': Block, n: int, k: nat, x: Byte)
    requires BytesKept(m, b, m', b', n) && k < n && ByteIs(m, b.Data(), k, x)
    ensures ByteIs(m', b'.Data(), k, x)
  {
    var j := k / PARAGRAPH;
    assert j < b.size && j < b'.size;
    assert ParagraphKept(m, b, m', b', j, n);
  }

  /** No call of such a caller stops the system, and what callers hold stays intact. */
  lemma StepIntact(a: Point, hs: Held, c: Call, r: Outcome, b: Point)
    requires Stepped(a, c, r, b) && Intact(a, hs) && Uses(hs, c) && Granted(a, c)
    ensures Intact(b, After(hs, c, r)) && !r.Bugcheck?
  {
    hide Core, OthersKept, HoldsAt, Allocated, FreedAt, RetypedAt, MovedAt, WrittenAt, NoAdjacentFree, Granted;
    match c {
      case Allocate(n) =>
        if r != Null || b != a {
          var i :| Allocated(a, n, i, r, b);
          AllocateIntact(a, hs, n, i, r, b);
          AllocatedPtr(a, n, i, r, b);
        }
      case Free(p) =>
        var i := HeldBlock(a, hs, p);
        FreeIntact(a, hs, p, i, b);
      case Reallocate(p, n) =>
        var i := HeldBlock(a, hs, p);
        if r != Null || b != a {
          var j :| MovedAt(a, i, j, n, r, b);
          ReallocateIntact(a, hs, p, n, i, j, r, b);
          MovedPtr(a, i, j, n, r, b);
        }
      case Lock(p) =>
        var i := HeldBlock(a, hs, p);
        RetypeIntact(a, hs, p, i, true, b);
      case Unlock(p) =>
        var i := HeldBlock(a, hs, p);
        RetypeIntact(a, hs, p, i, false, b);
      case Write(p, k, x) =>
        var i :| WrittenAt(a, i, p, k, x, b);
        WriteIntact(a, hs, p, k, x, i, b);
    }
  }

  lemma AllocatedPtr(a: Point, n: Ulong, i: nat, r: Outcome, b: Point)
    requires Allocated(a, n, i, r, b)
    ensures r.Ptr?
  {
  }

  lemma MovedPtr(a: Point, i: nat, j: nat, n: Ulong, r: Outcome, b: Point)
    requires MovedAt(a, i, j, n, r, b)
    ensures r.Ptr?
  {
  }

  lemma HeldBlock(a: Point, hs: Held, p: nat) returns (i: nat)
    requires Intact(a, hs) && p in hs
    ensures BlockAt(a.s, i, p, if hs[p].locked then LOCKED else ALLOCATED)
  {
    i :| HoldsAt(a, i, p, hs[p]);
  }

  /** What callers hold can be handed back in. */
  lemma HeldIsCallable(a: Point, hs: Held, c: Call)
    requires Intact(a, hs) && Uses(hs, c)
    ensures Callable(a, c)
  {
    if !c.Allocate? {
      var i: nat :| HoldsAt(a, i, c.p, hs[c.p]);
      assert c.Write? ==> Owns(a.s, i, c.p, c.k);
    }
  }

  // ---------------------------------------------------------------- whole runs

  /** What callers hold after a sequence of calls and their outcomes. */
  function Replay(cs: seq<Call>, rs: seq<Outcome>): Held
    requires |cs| == |rs|
  {
    if cs == [] then map[] else After(Replay(cs[..|cs| - 1], rs[..|rs| - 1]), cs[|cs| - 1], rs[|rs| - 1])
  }

  /** A run of calls by callers that keep to what they hold. */
  ghost predicate IsRun(pts: seq<Point>, cs: seq<Call>, rs: seq<Outcome>) {
    && |rs| == |cs| && |pts| == |cs| + 1
    && Inv(pts[0].m, pts[0].s)
    && forall i {:trigger RunStep(pts, cs, rs, i)} :: 0 <= i < |cs| ==> RunStep(pts, cs, rs, i)
  }

  ghost predicate RunStep(pts: seq<Point>, cs: seq<Call>, rs: seq<Outcome>, i: nat)
    requires i < |cs| == |rs| && |pts| == |cs| + 1
  {
    Stepped(pts[i], cs[i], rs[i], pts[i + 1]) && Uses(Replay(cs[..i], rs[..i]), cs[i]) && Granted(pts[i], cs[i])
  }

  /** Over every run: no block a caller holds is lost or moved, every byte it wrote there is as it wrote it,
      no call stops the system, and no space is gained or lost. */
  lemma {:induction false} RunIntact(pts: seq<Point>, cs: seq<Call>, rs: seq<Outcome>)
    requires IsRun(pts, cs, rs)
    ensures Inv(pts[|cs|].m, pts[|cs|].s) && Intact(pts[|cs|], Replay(cs, rs))
    ensures forall i :: 0 <= i < |rs| ==> !rs[i].Bugcheck?
    ensures Total(pts[|cs|].s.blocks) == Total(pts[0].s.blocks)
    decreases |cs|
  {
    hide Inv, Intact, Stepped, Uses, Granted, After, Total;
    if cs == [] {
      NothingHeld(pts[0]);
    } else {
      var n := |cs| - 1;
      var pts', cs', rs' := pts[..n + 1], cs[..n], rs[..n];
      assert RunStep(pts, cs, rs, n);
      forall i | 0 <= i < n
        ensures RunStep(pts', cs', rs', i)
      {
        assert RunStep(pts, cs, rs, i);
        assert cs'[..i] == cs[..i] && rs'[..i] == rs[..i];
      }
      RunIntact(pts', cs', rs');
      StepIntact(pts[n], Replay(cs', rs'), cs[n], rs[n], pts[n + 1]);
      StepSpace(pts[n], cs[n], rs[n], pts[n + 1]);
    }
  }

  lemma NothingHeld(a: Point)
    ensures Intact(a, map[])
  {
  }

  lemma StepSpace(a: Point, c: Call, r: Outcome, b: Point)
    requires Stepped(a, c, r, b)
    ensures Inv(b.m, b.s) && Total(b.s.blocks) == Total(a.s.blocks)
  {
    hide Inv;
    SpaceIsConserved(a.m, a.s, b.m, b.s);
  }
}
