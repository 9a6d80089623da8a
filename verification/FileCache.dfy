/** The cache map of one file: finding, reading, adding, writing back and evicting its pages
    (kernel/cc.cpp). */
module FileCache {
  import opened Common
  import opened CacheContent
  import opened CacheWrites

  const MIN_CACHED_PAGES := 32

  /** CCFILE_CACHED_PAGE, with the bytes Buffer points to. */
  datatype Slot = Slot(cached: bool, modified: bool, writeError: bool, useCount: nat, page: nat, buffer: seq<Byte>)

  const EMPTY := Slot(false, false, false, 0, 0, [])

  predicate Finds(s: Slot, p: nat) { s.cached && s.page == p }

  ghost predicate HasSlot(slots: seq<Slot>, p: nat) {
    exists i :: 0 <= i < |slots| && Finds(slots[i], p)
  }

  /** The slots hold the pages: each once, and nothing else. */
  ghost predicate Shows(slots: seq<Slot>, pages: Pages) {
    && (forall i :: 0 <= i < |slots| && slots[i].cached ==>
         |slots[i].buffer| == PAGE && slots[i].page in pages && pages[slots[i].page] == slots[i].buffer)
    && (forall i, j :: 0 <= i < j < |slots| && slots[i].cached && slots[j].cached ==> slots[i].page != slots[j].page)
    && (forall p :: p in pages ==> HasSlot(slots, p))
  }

  /** The pages marked as differing from the device. */
  ghost function ModifiedPages(slots: seq<Slot>): set<nat> {
    set i | 0 <= i < |slots| && slots[i].cached && slots[i].modified :: slots[i].page
  }

  lemma ModifiedAre(slots: seq<Slot>, p: nat)
    ensures p in ModifiedPages(slots) <==> exists i :: 0 <= i < |slots| && Finds(slots[i], p) && slots[i].modified
  {
    if i :| 0 <= i < |slots| && Finds(slots[i], p) && slots[i].modified {
      assert slots[i].page in ModifiedPages(slots);
    }
  }

  /** Distinct pages in every slot: there are at least as many pages as slots. */
  lemma {:induction false} FullShows(slots: seq<Slot>, pages: Pages)
    requires Shows(slots, pages) && forall i :: 0 <= i < |slots| ==> slots[i].cached
    ensures |slots| <= |pages|
  {
    hide Shows;
    if |slots| > 0 {
      var n := |slots| - 1;
      ShowsOneLess(slots, pages);
      FullShows(slots[..n], pages - {slots[n].page});
      OneKeyLess(pages, slots[n].page);
    }
  }

  lemma OneKeyLess(pages: Pages, p: nat)
    requires p in pages
    ensures |pages| == |pages - {p}| + 1
  {
    var rest := pages - {p};
    assert pages.Keys == rest.Keys + {p} && p !in rest.Keys;
    assert |pages.Keys| == |rest.Keys| + 1;
  }

  lemma ShowsOneLess(slots: seq<Slot>, pages: Pages)
    requires Shows(slots, pages) && |slots| > 0 && slots[|slots| - 1].cached
    ensures slots[|slots| - 1].page in pages && Shows(slots[..|slots| - 1], pages - {slots[|slots| - 1].page})
  {
    var n := |slots| - 1;
    var rest := pages - {slots[n].page};
    forall p | p in rest
      ensures HasSlot(slots[..n], p)
    {
      var i :| 0 <= i < |slots| && Finds(slots[i], p);
      assert Finds(slots[..n][i], p);
    }
  }

  method CopyBytes(dst: array<Byte>, at: nat, src: seq<Byte>)
    requires at + |src| <= dst.Length
    modifies dst
    ensures forall k :: 0 <= k < dst.Length ==> dst[k] == if at <= k < at + |src| then src[k - at] else old(dst[k])
  {
    forall k | 0 <= k < |src| {
      dst[at + k] := src[k];
    }
  }

  class CacheMap {
    const clusterSize: nat
    const canWrite: bool              // Callbacks.ActualWrite != NULL
    const accepts: nat -> bool        // the clusters on which the driver's write succeeds
    const plenty: bool                // memory for the map and its pages never runs out
    var device: Device
    var slots: array<Slot>            // PageCacheMap, of MaxCachedPages entries
    var cachedPages: nat
    var shouldRebuild: nat
    var rebuildCount: nat
    ghost var pages: Pages

    /** With plenty of memory the map is enlarged before it is full. */
    ghost predicate Valid()
      reads this, slots
    {
      Holds() && (plenty ==> cachedPages < slots.Length)
    }

    ghost predicate Holds()
      reads this, slots
    {
      && Sane(pages, device, clusterSize)
      && Shows(slots[..], pages)
      && slots.Length >= MIN_CACHED_PAGES
      && |pages| <= cachedPages
    }

    /** CcInitializeFileCaching, for a cluster size with whole pages and enough memory. */
    constructor (cs: nat, dev: Device, canWrite: bool, accepts: nat -> bool, plenty: bool)
      requires Whole(cs) && WellSized(dev, cs)
      ensures Valid() && fresh(slots) && pages == map[] && device == dev && clusterSize == cs
      ensures this.canWrite == canWrite && this.accepts == accepts && this.plenty == plenty && slots.Length == 32
    {
      this.clusterSize, this.device, this.canWrite, this.accepts, this.plenty := cs, dev, canWrite, accepts, plenty;
      this.cachedPages, this.shouldRebuild, this.rebuildCount := 0, 0, 0;
      this.pages := map[];
      this.slots := new Slot[MIN_CACHED_PAGES](_ => EMPTY);
    }

    // -------------------------------------------------------------- adding a page

    /** Double the page array; the second half is zeroed. */
    method DoubleMap()
      requires Holds()
      modifies this`slots
      ensures Holds() && fresh(slots) && slots.Length == 2 * old(slots.Length)
      ensures slots[..] == old(slots[..]) + seq(old(slots.Length), _ => EMPTY)
      ensures ModifiedPages(slots[..]) == old(ModifiedPages(slots[..]))
    {
      hide Shows, ModifiedPages;
      var n := slots.Length;
      ghost var s0 := slots[..];
      var bigger := new Slot[2 * n];
      forall i | 0 <= i < 2 * n {
        bigger[i] := if i < n then slots[i] else EMPTY;
      }
      slots := bigger;
      assert slots[..] == s0 + seq(n, _ => EMPTY);
      ShowsGrown(s0, pages, n);
    }

    /** CcpCacheFilePage, rebuilding being compiled out: add a page that is not cached yet.  Growing
        and getting a buffer may each fail for want of memory, and only for that: with plenty of it every page
        is added.  It finds no slot only when a growth failed before, and then the map never grows again. */
    method CacheFilePage(p: nat, page: seq<Byte>) returns (status: Status)
      requires Valid() && p !in pages && |page| == PAGE
      modifies this`slots, this`cachedPages, this`pages, slots
      ensures Valid() && (slots == old(slots) || fresh(slots))
      ensures status in {Success, InsufficientResources, Unsuccessful} && (plenty ==> status == Success)
      ensures pages == if status == Success then old(pages)[p := page] else old(pages)
      ensures ModifiedPages(slots[..]) == old(ModifiedPages(slots[..]))
      ensures status == Unsuccessful ==> old(cachedPages) + 1 >= slots.Length
      ensures old(cachedPages) >= old(slots.Length) ==> slots.Length == old(slots.Length) && cachedPages >= slots.Length
    {
      hide Shows, ModifiedPages;
      cachedPages := cachedPages + 1;
      if cachedPages == slots.Length {
        var memory: bool := *;
        if memory || plenty {
          DoubleMap();
        }
      }
      var i := 0;
      while i < slots.Length && slots[i].cached
        invariant 0 <= i <= slots.Length && forall j :: 0 <= j < i ==> slots[j].cached
      {
        i := i + 1;
      }
      status := Unsuccessful;
      if i < slots.Length {
        status := FillSlot(i, p, page);
      } else {
        FullShows(slots[..], pages);
      }
    }

    /** The free slot takes a copy of the page, if there is memory for its buffer. */
    method FillSlot(i: nat, p: nat, page: seq<Byte>) returns (status: Status)
      requires Sane(pages, device, clusterSize) && Shows(slots[..], pages)
      requires p !in pages && |page| == PAGE && i < slots.Length && !slots[i].cached
      modifies this`pages, slots
      ensures status in {Success, InsufficientResources} && (plenty ==> status == Success)
      ensures pages == if status == Success then old(pages)[p := page] else old(pages)
      ensures |pages| <= |old(pages)| + 1 && Paged(pages)
      ensures Shows(slots[..], pages) && ModifiedPages(slots[..]) == old(ModifiedPages(slots[..]))
    {
      hide Shows, ModifiedPages;
      ghost var s0 := slots[..];
      var memory: bool := *;
      if memory || plenty {
        slots[i] := slots[i].(cached := true, modified := false, page := p, useCount := 1, buffer := page);
        assert slots[..] == s0[i := slots[i]];
        ShowsAdded(s0, pages, i, slots[i]);
        AddedSize(pages, p, page);
        pages := pages[p := page];
        status := Success;
      } else {
        slots[i] := slots[i].(cached := false, modified := false, page := p, useCount := 1, buffer := []);
        assert slots[..] == s0[i := slots[i]];
        ShowsCleared(s0, pages, i, slots[i]);
        status := InsufficientResources;
      }
    }

    // -------------------------------------------------------------- moving bytes

    /** The first slot that holds page p, or the number of slots. */
    method FindPage(p: nat) returns (i: nat)
      requires Valid()
      ensures i <= slots.Length && (i < slots.Length <==> p in pages)
      ensures i < slots.Length ==> Finds(slots[i], p) && forall j :: 0 <= j < i ==> !Finds(slots[j], p)
    {
      i := 0;
      while i < slots.Length && !Finds(slots[i], p)
        invariant 0 <= i <= slots.Length && forall j :: 0 <= j < i ==> !Finds(slots[j], p)
      {
        i := i + 1;
      }
    }

    /** Copy n bytes between the page in slot i, from offset o on, and the caller's buffer. */
    method Transfer(i: nat, write: bool, o: nat, buf: array<Byte>, pos: nat, n: nat)
      requires Valid() && i < slots.Length && slots[i].cached && o + n <= PAGE && pos + n <= buf.Length
      modifies this`pages, slots, buf
      ensures Valid() && Touched(old(slots[..]), slots[..], {}) && SameKeys(old(pages), pages)
      ensures Finds(slots[i], old(slots[i].page))
      ensures Moved(write, old(pages), pages, device, clusterSize, old(slots[i].page) * PAGE + o,
                    old(buf[..]), buf[..], pos, n)
    {
      hide Shows, Moved, Touched;
      ghost var s0, p0, b0 := slots[..], pages, buf[..];
      var s := slots[i];
      ShownPage(s0, pages, i);
      if write {
        var page := s.buffer[..o] + buf[pos..pos + n] + s.buffer[o + n..];
        slots[i] := s.(useCount := (s.useCount + 1) % 0x2000, buffer := page);
        pages := pages[s.page := page];
        PageWritten(p0, device, clusterSize, s.page, o, buf[..], pos, n);
      } else {
        slots[i] := s.(useCount := (s.useCount + 1) % 0x2000);
        CopyBytes(buf, pos, s.buffer[o..o + n]);
        PageRead(p0, device, clusterSize, s.page, o, b0, buf[..], pos, n);
      }
      assert slots[..] == s0[i := slots[i]];
      ShowsStored(s0, p0, i, slots[i], pages);
    }

    /** Transfer after n0 bytes have been moved since the given state. */
    method TransferMore(i: nat, write: bool, o: nat, buf: array<Byte>, pos: nat, n: nat,
                        ghost at: nat, ghost s0: seq<Slot>, ghost p0: Pages, ghost b0: seq<Byte>, ghost pos0: nat, ghost n0: nat)
      requires Valid() && i < slots.Length && slots[i].cached && o + n <= PAGE && pos + n <= buf.Length
      requires pos == pos0 + n0 && slots[i].page * PAGE + o == at + n0 && Sane(p0, device, clusterSize)
      requires Touched(s0, slots[..], {}) && Moved(write, p0, pages, device, clusterSize, at, b0, buf[..], pos0, n0)
      modifies this`pages, slots, buf
      ensures Valid() && SameKeys(old(pages), pages) && Finds(slots[i], old(slots[i].page))
      ensures Touched(s0, slots[..], {}) && Moved(write, p0, pages, device, clusterSize, at, b0, buf[..], pos0, n0 + n)
    {
      hide Shows, Moved, Touched, Sane;
      ghost var s1, p1, b1 := slots[..], pages, buf[..];
      Transfer(i, write, o, buf, pos, n);
      TouchedTwice(s0, s1, slots[..]);
      MovedTwice(write, p0, p1, pages, device, clusterSize, at, b0, b1, buf[..], pos0, n0, n);
    }

    method MarkModified(i: nat, q: nat)
      requires Valid() && i < slots.Length && Finds(slots[i], q)
      modifies slots
      ensures Valid()
      ensures forall s0: seq<Slot> :: Touched(s0, old(slots[..]), {}) ==> Touched(s0, slots[..], {q})
    {
      ghost var s1 := slots[..];
      slots[i] := slots[i].(modified := true);
      assert slots[..] == s1[i := slots[i]];
      ShowsMarked(s1, pages, i, true, slots[i].writeError);
      forall s0: seq<Slot> | Touched(s0, s1, {})
        ensures Touched(s0, slots[..], {q})
      {
        MarkTouches(s0, s1, pages, i, q);
      }
    }

    /** CcpFindAndReadWrite: move bytes while the pages are cached.  It stops with NotFound at the first
        page that is not, and says where. */
    method FindAndReadWrite(pn0: nat, po0: nat, write: bool, buf: array<Byte>, pos0: nat, size0: nat)
      returns (status: Status, pn: nat, po: nat, pos: nat, size: nat, done: nat)
      requires Valid() && po0 < PAGE && pos0 + size0 <= buf.Length
      modifies this`pages, slots, buf
      ensures Valid() && SameKeys(old(pages), pages) && (status == Success || status == NotFound)
      ensures Touched(old(slots[..]), slots[..], if write && status == Success then {pn} else {})
      ensures size <= size0 && po < PAGE && pos == pos0 + (size0 - size)
      ensures pn * PAGE + po == pn0 * PAGE + po0 + (size0 - size)
      ensures forall q :: pn0 <= q < pn ==> q in pages
      ensures size < size0 ==> size > 0 && po == 0
      ensures pn <= LastPage(pn0 * PAGE + po0, size0)
      ensures status == NotFound ==> pn !in pages && done == size0 - size
      ensures status == Success ==> pn in pages && done == size0 && pn == LastPage(pn0 * PAGE + po0, size0)
      ensures Moved(write, old(pages), pages, device, clusterSize, pn0 * PAGE + po0, old(buf[..]), buf[..], pos0, done)
    {
      hide Shows, Moved, Touched, Sane, LastPage, SameKeys;
      ghost var at, p0 := pn0 * PAGE + po0, pages;
      var i;
      i, pn, po, pos, size, done := FindRun(pn0, po0, write, buf, pos0, size0);
      status := NotFound;
      if i < slots.Length {
        ghost var p1 := pages;
        TransferMore(i, write, po, buf, pos, size, at, old(slots[..]), p0, old(buf[..]), pos0, done);
        SameKeysTwice(p0, p1, pages);
        done := done + size;
        status := Success;
        if write {
          MarkModified(i, pn);
        }
      }
      LastPageReached(at, size0, pn, po, size);
    }

    /** The rounds of CcpFindAndReadWrite that use up a whole page; i is the slot of the page after them. */
    method FindRun(pn0: nat, po0: nat, write: bool, buf: array<Byte>, pos0: nat, size0: nat)
      returns (i: nat, pn: nat, po: nat, pos: nat, size: nat, done: nat)
      requires Valid() && po0 < PAGE && pos0 + size0 <= buf.Length
      modifies this`pages, slots, buf
      ensures Valid() && SameKeys(old(pages), pages) && Touched(old(slots[..]), slots[..], {})
      ensures size <= size0 && po < PAGE && pos == pos0 + (size0 - size) && done == size0 - size
      ensures pn * PAGE + po == pn0 * PAGE + po0 + (size0 - size)
      ensures forall q :: pn0 <= q < pn ==> q in pages
      ensures size < size0 ==> size > 0 && po == 0
      ensures i <= slots.Length && (i < slots.Length <==> pn in pages)
      ensures i < slots.Length ==> Finds(slots[i], pn) && size <= PAGE - po
      ensures Moved(write, old(pages), pages, device, clusterSize, pn0 * PAGE + po0, old(buf[..]), buf[..], pos0, done)
    {
      hide Shows, Moved, Touched, Sane, SameKeys, AllCached;
      NoneCached(pages, pn0);
      pn, po, pos, size, done := pn0, po0, pos0, size0, 0;
      ghost var at := pn0 * PAGE + po0;
      MovedNothing(write, pages, device, clusterSize, at, buf[..], pos0);
      NotTouched(slots[..]);
      i := FindPage(pn);
      while i < slots.Length && PAGE - po < size
        invariant Valid() && SameKeys(old(pages), pages) && Touched(old(slots[..]), slots[..], {})
        invariant size <= size0 && po < PAGE && pos == pos0 + (size0 - size) && done == size0 - size
        invariant pn * PAGE + po == at + (size0 - size)
        invariant AllCached(old(pages), pn0, pn)
        invariant size < size0 ==> size > 0 && po == 0
        invariant i <= slots.Length && (i < slots.Length <==> pn in pages)
        invariant i < slots.Length ==> Finds(slots[i], pn)
        invariant Moved(write, old(pages), pages, device, clusterSize, at, old(buf[..]), buf[..], pos0, done)
        decreases size
      {
        ghost var p1 := pages;
        TransferMore(i, write, po, buf, pos, PAGE - po, at, old(slots[..]), old(pages), old(buf[..]), pos0, done);
        OneMoreCached(old(pages), p1, pn0, pn);
        SameKeysTwice(old(pages), p1, pages);
        pn, size, pos, done, po := pn + 1, size - (PAGE - po), pos + (PAGE - po), done + (PAGE - po), 0;
        i := FindPage(pn);
      }
      CachedSame(old(pages), pages, pn0, pn);
    }

    // -------------------------------------------------------------- reading

    /** The driver's ActualRead for the i-th cluster of page p: data arrives in the page buffer, or the
        buffer stays as it is. */
    method ReadCluster(p: nat, i: nat, buf: array<Byte>) returns (status: Status, stop: bool)
      requires clusterSize > 0 && Sane(pages, device, clusterSize) && i < ClustersPerPage(clusterSize)
      requires ReadSoFar(device, clusterSize, p, buf[..], i)
      modifies buf
      ensures var f := device(FirstCluster(clusterSize, p) + i); status == FetchStatus(f) && stop == (f.EndOfFile? || f.NoMedia?)
      ensures ReadSoFar(device, clusterSize, p, buf[..], if stop then i else i + 1)
    {
      hide ReadSoFar, Whole, WellSized, Paged, ClustersPerPage, FirstCluster;
      var f := device(FirstCluster(clusterSize, p) + i);
      status, stop := FetchStatus(f), f.EndOfFile? || f.NoMedia?;
      if !stop {
        ghost var b0 := buf[..];
        ReadSoFarSize(device, clusterSize, p, b0, i);
        ClusterFits(device, clusterSize, i, FirstCluster(clusterSize, p) + i);
        if f.Data? {
          CopyBytes(buf, i * clusterSize, f.bytes);
        }
        ReadOneMore(device, clusterSize, p, b0, buf[..], i);
      }
    }

    /** CcpActualReadPage: read page p, cluster by cluster, into a page buffer. */
    method ActualReadPage(p: nat, buf: array<Byte>) returns (status: Status)
      requires clusterSize > 0 && Sane(pages, device, clusterSize) && buf.Length == PAGE
      modifies buf
      ensures status == PageStatus(device, clusterSize, p)
      ensures PageEnds(device, clusterSize, p, status)
      ensures status.Ok() ==> Agrees(device, clusterSize, p, buf[..])
    {
      hide Agrees, ReadSoFar, Stop, PageStatus, PageEnds, Whole, WellSized, Paged, ClustersPerPage, FirstCluster;
      var n := ClustersPerPage(clusterSize);
      ghost var c := FirstCluster(clusterSize, p);
      var i, stop := 0, false;
      status := Unsuccessful;
      NothingRead(device, clusterSize, p, buf[..]);
      while i < n && !stop
        invariant 0 <= i <= n && i <= Stop(device, c, n)
        invariant ReadSoFar(device, clusterSize, p, buf[..], i)
        invariant stop ==> i < n && (device(c + i).EndOfFile? || device(c + i).NoMedia?)
        invariant stop || i > 0 ==> status == FetchStatus(device(c + if stop then i else i - 1))
        decreases n - i + if stop then 0 else 1
      {
        status, stop := ReadCluster(p, i, buf);
        if !stop {
          GoesOn(device, c, n, i);
          i := i + 1;
        }
      }
      StopsAt(device, clusterSize, p, i);
      StopIsEnd(device, clusterSize, p);
      if status.Ok() {
        ReadAll(device, clusterSize, p, buf[..], i);
      }
    }

    /** The part of CcpActualRead that reads one page and copies from it. */
    method ReadOnePage(pn: nat, po: nat, buf: array<Byte>, pos: nat, n: nat, done0: nat, keep: bool)
      returns (status: Status, done: nat)
      requires Valid() && po + n <= PAGE && pos + n <= buf.Length && (keep ==> pn !in pages)
      modifies this`slots, this`cachedPages, this`pages, slots, buf
      ensures Valid() && (slots == old(slots) || fresh(slots))
      ensures ModifiedPages(slots[..]) == old(ModifiedPages(slots[..]))
      ensures Filled(old(pages), pages, device, clusterSize, pn, pn) && (!keep ==> pages == old(pages))
      ensures keep && plenty ==> Kept(old(pages), pages, device, clusterSize, pn, pn)
      ensures status == PageStatus(device, clusterSize, pn) && done == done0 + if status.Ok() then n else 0
      ensures Sane(old(pages) - {pn}, device, clusterSize)
        && Delivered(old(pages) - {pn}, device, clusterSize, pn * PAGE + po, old(buf[..]), buf[..], pos, n)
    {
      hide Shows, ModifiedPages, Delivered, PageStatus, Whole, WellSized, Agrees, Kept, Filled;
      ghost var p0, b0, rest := pages, buf[..], pages - {pn};
      WholeIsPositive(clusterSize);
      FilledNot(p0, device, clusterSize, pn, pn);
      var temp := new Byte[PAGE];
      status := ActualReadPage(pn, temp);
      done := done0;
      if status.Ok() {
        AgreesSize(device, clusterSize, pn, temp[..]);
        CopyBytes(buf, pos, temp[po..po + n]);
        PageDelivered(rest, device, clusterSize, pn, po, temp[..], b0, buf[..], pos, n);
        done := done + n;
        if keep {
          FilledOne(p0, temp[..], device, clusterSize, pn);
          var kept := CacheFilePage(pn, temp[..]);
        }
      } else {
        PageSkipped(rest, device, clusterSize, pn, po, b0, pos, n);
      }
      if keep && plenty {
        KeptOne(p0, pages, device, clusterSize, pn);
      }
    }

    /** CcpActualRead: read the page the request starts in from the device, keep it if asked, and go on
        with the pages behind it, from the cache where they are there.  The status is the last page's. */
    method ActualRead(pn: nat, po: nat, buf: array<Byte>, pos: nat, size: nat, done0: nat, keep: bool)
      returns (status: Status, done: nat)
      requires Valid() && po < PAGE && pos + size <= buf.Length && (keep ==> pn !in pages)
      modifies this`slots, this`cachedPages, this`pages, slots, buf
      ensures Valid() && (slots == old(slots) || fresh(slots))
      ensures ModifiedPages(slots[..]) == old(ModifiedPages(slots[..]))
      ensures Filled(old(pages), pages, device, clusterSize, pn, LastPage(pn * PAGE + po, size))
      ensures !keep ==> pages == old(pages)
      ensures keep && plenty ==> Kept(old(pages), pages, device, clusterSize, pn, LastPage(pn * PAGE + po, size))
      ensures Sane(old(pages) - {pn}, device, clusterSize)
        && Delivered(old(pages) - {pn}, device, clusterSize, pn * PAGE + po, old(buf[..]), buf[..], pos, size)
      ensures var last := LastPage(pn * PAGE + po, size);
        status == if last != pn && last in old(pages) then Success else PageStatus(device, clusterSize, last)
      ensures size <= PAGE - po ==> done == done0 + if status.Ok() then size else 0
      ensures size > PAGE - po ==>
        done <= size - (PAGE - po) && done == Counted(old(pages), (pn + 1) * PAGE, size - (PAGE - po), status.Ok())
      decreases size, 0
    {
      hide Shows, ModifiedPages, Filled, Delivered, PageStatus, LastPage, Whole, WellSized, Paged, Agrees, AllCached, Counted, Reports, Kept;
      var n := if size > PAGE - po then PAGE - po else size;
      ghost var p0, b0, at := pages, buf[..], pn * PAGE + po;
      LastPageReached(at, size, pn, po, size);
      status, done := ReadOnePage(pn, po, buf, pos, n, done0, keep);
      FilledOnly(p0, pages, device, clusterSize, pn);
      if size > PAGE - po {
        ghost var p1, b1 := pages, buf[..];
        LastPageReached(at + n, size - n, pn + 1, 0, size - n);
        var missed;
        status, done, missed := ReadOn(pn + 1, 0, buf, pos + n, size - n, keep);
        DeliveredBehind(p0, p1, pn, device, clusterSize, at, b0, b1, buf[..], pos, n, size - n);
        FilledTwice(p0, p1, pages, device, clusterSize, pn, pn + 1, LastPage(at, size));
        ReportsCount(p1, device, clusterSize, at + n, size - n, status, done);
        CountedAlike(p1, p0, pn, size - n, status.Ok());
        if keep && plenty {
          FilledGrows(p0, p1, device, clusterSize, pn, pn);
          FilledGrows(p1, pages, device, clusterSize, pn + 1, LastPage(at, size));
          KeptTwice(p0, p1, pages, device, clusterSize, pn, pn, LastPage(at, size));
        }
      }
    }

    /** Look the pages up with CcpFindAndReadWrite, which starts the count anew, and read with
        CcpActualRead from the first one that is missing. */
    method ReadOn(pn: nat, po: nat, buf: array<Byte>, pos: nat, size: nat, keep: bool)
      returns (status: Status, done: nat, missed: bool)
      requires Valid() && po < PAGE && pos + size <= buf.Length
      modifies this`slots, this`cachedPages, this`pages, slots, buf
      ensures Valid() && (slots == old(slots) || fresh(slots))
      ensures ModifiedPages(slots[..]) == old(ModifiedPages(slots[..]))
      ensures Filled(old(pages), pages, device, clusterSize, pn, LastPage(pn * PAGE + po, size))
      ensures !keep ==> pages == old(pages)
      ensures keep && plenty ==> Kept(old(pages), pages, device, clusterSize, pn, LastPage(pn * PAGE + po, size))
      ensures Delivered(old(pages), device, clusterSize, pn * PAGE + po, old(buf[..]), buf[..], pos, size)
      ensures Reports(old(pages), device, clusterSize, pn * PAGE + po, size, status, done)
      ensures missed <==> !AllCached(old(pages), pn, LastPage(pn * PAGE + po, size) + 1)
      decreases size, 1
    {
      hide Shows, ModifiedPages, Filled, Delivered, PageStatus, LastPage, Whole, WellSized, Paged, Agrees, Reports, Touched, Moved, Counted, Kept;
      ghost var p0, b0, s0, at := pages, buf[..], slots[..], pn * PAGE + po;
      var pn', po', pos', size';
      status, pn', po', pos', size', done := FindAndReadWrite(pn, po, false, buf, pos, size);
      FoundInCache(p0, device, clusterSize, at, b0, buf[..], pos, done, pages);
      TouchedMarks(s0, slots[..], p0, {});
      LastPageReached(at, size, pn', po', size');
      FilledNot(p0, device, clusterSize, pn, LastPage(at, size));
      missed := status == NotFound;
      if missed {
        ghost var b1 := buf[..];
        status, done := ActualRead(pn', po', buf, pos', size', done, keep);
        ReadJoined(p0, pages, device, clusterSize, at, size, pn, pn', po', size', b0, b1, buf[..], pos, status, done);
        FilledGrows(p0, pages, device, clusterSize, pn, LastPage(at, size));
        LastPageSame(at, size, size');
      } else {
        ReportsFound(p0, device, clusterSize, at, size);
      }
      if keep && plenty {
        KeptFrom(p0, p0, pages, device, clusterSize, pn, if missed then pn' else pn' + 1, LastPage(at, size));
      }
    }

    /** CcCacheReadFile.  Read-through takes the first page from the device even if it is cached. */
    method CacheReadFile(offset: nat, buf: array<Byte>, size: nat, readThrough: bool, done0: nat)
      returns (status: Status, done: nat)
      requires Valid() && size <= buf.Length
      modifies this`slots, this`cachedPages, this`pages, this`shouldRebuild, slots, buf
      ensures Valid() && (slots == old(slots) || fresh(slots))
      ensures ModifiedPages(slots[..]) == old(ModifiedPages(slots[..]))
      ensures Filled(old(pages), pages, device, clusterSize, offset / PAGE, LastPage(offset, size))
      ensures readThrough ==> pages == old(pages)
      ensures !readThrough && plenty ==> Kept(old(pages), pages, device, clusterSize, offset / PAGE, LastPage(offset, size))
      ensures Sane(old(pages) - {offset / PAGE}, device, clusterSize)
      ensures readThrough ==>
        Delivered(old(pages) - {offset / PAGE}, device, clusterSize, offset, old(buf[..]), buf[..], 0, size)
      ensures !readThrough ==>
        var s := LastStatus(old(pages), device, clusterSize, LastPage(offset, size));
        && Delivered(old(pages), device, clusterSize, offset, old(buf[..]), buf[..], 0, size)
        && Reports(old(pages), device, clusterSize, offset, size, s, done)
        && status == if s.Ok() && !AllCached(old(pages), offset / PAGE, LastPage(offset, size) + 1) then StatusCached else s
      ensures !readThrough && OneMissing(old(pages), offset, size) ==>
        && clusterSize > 0 && status != Success
        && PageEnds(device, clusterSize, offset / PAGE, if status == StatusCached then Success else status)
        && if status == StatusCached then done == size else done == 0 && buf[..] == old(buf[..]) && pages == old(pages)
      ensures readThrough ==>
        var last := LastPage(offset, size);
        && status == (if last != offset / PAGE && last in old(pages) then Success else PageStatus(device, clusterSize, last))
        && (last == offset / PAGE ==> done == done0 + if status.Ok() then size else 0)
        && (last != offset / PAGE ==> done == Counted(old(pages), (offset / PAGE + 1) * PAGE,
                                                      offset + size - (offset / PAGE + 1) * PAGE, status.Ok()))
    {
      hide Shows, ModifiedPages, Filled, Delivered, PageStatus, LastPage, Whole, WellSized, Paged, Agrees, AllCached,
        Counted, Reports, PageEnds, Kept;
      var pn, po := offset / PAGE, offset % PAGE;
      ghost var p0, b0 := pages, buf[..];
      assert pn * PAGE + po == offset;
      LastPageReached(offset, size, pn, po, size);
      RemovedSane(pages, device, clusterSize, pn);
      if readThrough {
        if size > PAGE - po {
          LastPageReached(offset, size, pn + 1, 0, size - (PAGE - po));
        }
        status, done := ActualRead(pn, po, buf, 0, size, done0, false);
        return;
      }
      var missed;
      status, done, missed := ReadOn(pn, po, buf, 0, size, true);
      WholeIsPositive(clusterSize);
      if OneMissing(p0, offset, size) {
        OneMissingPage(p0, pages, device, clusterSize, offset, size, b0, buf[..], status, done);
      }
      ReportedStatus(p0, device, clusterSize, offset, size, status, done);
      if missed && status.Ok() {
        status := StatusCached;
      }
      shouldRebuild := shouldRebuild + 1;
    }

    // -------------------------------------------------------------- writing into the cache

    /** The part of CcpActualWrite that reads one page, stores the caller's bytes in it and keeps it; the
        page is not marked modified, and a failure to keep it goes unnoticed. */
    method WriteOnePage(pn: nat, po: nat, buf: array<Byte>, pos: nat, n: nat, done0: nat)
      returns (status: Status, done: nat)
      requires Valid() && po < PAGE && po + n <= PAGE && pos + n <= buf.Length && pn !in pages
      modifies this`slots, this`cachedPages, this`pages, slots
      ensures Valid() && (slots == old(slots) || fresh(slots))
      ensures ModifiedPages(slots[..]) == old(ModifiedPages(slots[..]))
      ensures WrittenTo(old(pages), pages, device, clusterSize, pn * PAGE + po, buf[..], pos, n, pn)
      ensures plenty ==> Kept(old(pages), pages, device, clusterSize, pn, pn)
      ensures status == PageStatus(device, clusterSize, pn) && done == done0 + if status.Ok() then n else 0
      ensures forall p :: p != pn ==> (p in pages <==> p in old(pages))
    {
      hide Shows, ModifiedPages, WrittenTo, PageStatus, Whole, WellSized, Agrees, Kept;
      ghost var p0 := pages;
      WholeIsPositive(clusterSize);
      NotAddedIsWritten(p0, device, clusterSize, pn, po, buf[..], pos, n);
      var temp := new Byte[PAGE];
      status := ActualReadPage(pn, temp);
      done := done0;
      if status.Ok() {
        ghost var t0 := temp[..];
        CopyBytes(temp, po, buf[pos..pos + n]);
        AddedIsWritten(p0, device, clusterSize, pn, po, buf[..], pos, n, t0, temp[..]);
        done := done + n;
        var kept := CacheFilePage(pn, temp[..]);
      }
      if plenty {
        KeptOne(p0, pages, device, clusterSize, pn);
      }
    }

    /** CcpActualWrite: store the first page's bytes by way of the device and go on with the pages behind. */
    method ActualWrite(pn: nat, po: nat, buf: array<Byte>, pos: nat, size: nat, done0: nat)
      returns (status: Status, done: nat)
      requires Valid() && po < PAGE && pos + size <= buf.Length && pn !in pages
      modifies this`slots, this`cachedPages, this`pages, slots, buf
      ensures Valid()
      ensures slots == old(slots) || fresh(slots)
      ensures buf[..] == old(buf[..])
      ensures WroteFrom(old(pages), old(ModifiedPages(slots[..])), pages, ModifiedPages(slots[..]), device, clusterSize, pn, po, buf[..],
                        pos, size, done0, status, done)
      ensures plenty ==> Kept(old(pages), pages, device, clusterSize, pn, LastPage(pn * PAGE + po, size))
      decreases size, 0
    {
      hide Shows, ModifiedPages, WrittenTo, PageStatus, LastPage, Whole, WellSized, Paged, Agrees, AllCached, Reports, WithMark, WroteFrom, WroteOn, Counted, Kept;
      var n := if size > PAGE - po then PAGE - po else size;
      ghost var p0, b0, m0 := pages, buf[..], ModifiedPages(slots[..]);
      status, done := WriteOnePage(pn, po, buf, pos, n, done0);
      ghost var p1, slots1 := pages, slots;
      assert buf[..] == b0 && (slots1 == old(slots) || fresh(slots1));
      if size > PAGE - po {
        var missed;
        status, done, missed := WriteOn(pn + 1, 0, buf, pos + n, size - n);
        assert buf[..] == b0 && (slots == slots1 || fresh(slots));
        WroteBehind(p0, p1, m0, pages, ModifiedPages(slots[..]), device, clusterSize, pn, po, b0, pos, size, done0, status, done,
                    missed, plenty);
      } else {
        WroteOne(p0, m0, pages, device, clusterSize, pn, po, b0, pos, size, done0, status, done);
        LastPageReached(pn * PAGE + po, size, pn, po, size);
      }
    }

    /** Store bytes with CcpFindAndReadWrite, and with CcpActualWrite from the first missing page on. */
    method WriteOn(pn: nat, po: nat, buf: array<Byte>, pos: nat, size: nat)
      returns (status: Status, done: nat, missed: bool)
      requires Valid() && po < PAGE && pos + size <= buf.Length
      modifies this`slots, this`cachedPages, this`pages, slots, buf
      ensures Valid()
      ensures slots == old(slots) || fresh(slots)
      ensures buf[..] == old(buf[..])
      ensures WroteOn(old(pages), old(ModifiedPages(slots[..])), pages, ModifiedPages(slots[..]), device, clusterSize, pn * PAGE + po,
                      buf[..], pos, size, status, done, missed, plenty)
      decreases size, 1
    {
      hide Shows, ModifiedPages, WrittenTo, PageStatus, LastPage, Whole, WellSized, Paged, Agrees, Reports, Touched, Moved,
        Marked, WithMark, Wrote, Counted, Kept, WroteOn, WroteFrom;
      ghost var p0, b0, s0, at := pages, buf[..], slots[..], pn * PAGE + po;
      ghost var m0 := ModifiedPages(s0);
      var pn', po', pos', size';
      status, pn', po', pos', size', done := FindAndReadWrite(pn, po, true, buf, pos, size);
      MovedOut(p0, pages, device, clusterSize, at, b0, buf[..], pos, done);
      LastPageReached(at, size, pn', po', size');
      FoundMarks(s0, slots[..], p0, at, size, status == Success, pn');
      missed := status == NotFound;
      if missed {
        ghost var p1, slots1 := pages, slots;
        assert slots1 == old(slots) && ModifiedPages(slots[..]) == m0;
        status, done := ActualWrite(pn', po', buf, pos', size', done);
        assert slots == slots1 || fresh(slots);
        WroteMissed(p0, m0, p1, pages, ModifiedPages(slots[..]), device, clusterSize, at, size, pn, pn', po', size', b0, pos,
                    status, done, plenty);
      } else {
        WroteFound(p0, m0, pages, ModifiedPages(slots[..]), device, clusterSize, at, b0, pos, size, pn', plenty);
      }
    }

    /** CcCacheWriteFile, without write-through. */
    method CacheWriteFile(offset: nat, buf: array<Byte>, size: nat) returns (status: Status, done: nat)
      requires Valid() && size <= buf.Length
      modifies this`slots, this`cachedPages, this`pages, this`shouldRebuild, slots, buf
      ensures Valid()
      ensures slots == old(slots) || fresh(slots)
      ensures buf[..] == old(buf[..])
      ensures ModifiedPages(slots[..]) == WithMark(old(ModifiedPages(slots[..])), old(pages), offset, size)
      ensures WrittenTo(old(pages), pages, device, clusterSize, offset, buf[..], 0, size, LastPage(offset, size))
      ensures plenty ==> Kept(old(pages), pages, device, clusterSize, offset / PAGE, LastPage(offset, size))
      ensures var s := LastStatus(old(pages), device, clusterSize, LastPage(offset, size));
        && Reports(old(pages), device, clusterSize, offset, size, s, done)
        && status == if s.Ok() && !AllCached(old(pages), offset / PAGE, LastPage(offset, size) + 1) then StatusCached else s
      ensures OneMissing(old(pages), offset, size) ==>
        && clusterSize > 0 && status != Success
        && PageEnds(device, clusterSize, offset / PAGE, if status == StatusCached then Success else status)
        && if status == StatusCached then done == size else done == 0 && pages == old(pages)
    {
      hide Shows, ModifiedPages, WrittenTo, PageStatus, LastPage, Whole, WellSized, Paged, Agrees, AllCached, Kept, Counted,
        Reports, PageEnds;
      ghost var p0 := pages;
      var pn, po := offset / PAGE, offset % PAGE;
      assert pn * PAGE + po == offset;
      var missed;
      status, done, missed := WriteOn(pn, po, buf, 0, size);
      WholeIsPositive(clusterSize);
      if OneMissing(p0, offset, size) {
        OneMissingWrite(p0, pages, device, clusterSize, offset, buf[..], 0, size, status, done);
      }
      ReportedStatus(p0, device, clusterSize, offset, size, status, done);
      if missed && status.Ok() {
        status := StatusCached;
      }
      shouldRebuild := shouldRebuild + 1;
    }

    // -------------------------------------------------------------- writing back

    /** The driver's ActualWrite for one cluster. */
    method WriteCluster(c: nat, bytes: seq<Byte>) returns (status: Status)
      modifies this`device
      ensures status == if accepts(c) then Success else WriteFailed
      ensures forall k: nat :: device(k) == if k == c && accepts(c) then Data(bytes) else old(device)(k)
    {
      if !accepts(c) {
        return WriteFailed;
      }
      var before := device;
      device := (k: nat) => if k == c then Data(bytes) else before(k);
      return Success;
    }

    /** CcpActualWritePage: write a page cluster by cluster; only the last status is looked at. */
    method ActualWritePage(i: nat) returns (status: Status)
      requires Valid() && i < slots.Length && slots[i].cached
      modifies this`device
      ensures Valid()
      ensures status.Ok() <==> PageAccepted(clusterSize, canWrite, accepts, slots[i].page)
      ensures clusterSize > 0 && slots[i].page * (PAGE / clusterSize) + PAGE / clusterSize > 0
      ensures status == if !canWrite then NotSupported
                        else if accepts(slots[i].page * (PAGE / clusterSize) + PAGE / clusterSize - 1) then Success
                        else WriteFailed
      ensures StoredPage(old(device), device, clusterSize, accepts, slots[i].page, slots[i].buffer,
                         if canWrite then ClustersPerPage(clusterSize) else 0)
    {
      hide Shows, Whole, FirstCluster, ClustersPerPage, StoredPage, WellSized, Piece;
      ShownPage(slots[..], pages, i);
      WholeHasClusters(clusterSize);
      WholeIsExact(clusterSize);
      FirstIs(clusterSize, slots[i].page);
      NothingStored(device, clusterSize, accepts, slots[i].page, slots[i].buffer);
      if !canWrite {
        return NotSupported;
      }
      var n, c := ClustersPerPage(clusterSize), FirstCluster(clusterSize, slots[i].page);
      status := Unsuccessful;
      for k := 0 to n
        invariant WellSized(device, clusterSize)
        invariant StoredPage(old(device), device, clusterSize, accepts, slots[i].page, slots[i].buffer, k)
        invariant k > 0 ==> status == if accepts(c + k - 1) then Success else WriteFailed
      {
        ghost var d1 := device;
        PieceFits(slots[i].buffer, clusterSize, k);
        status := WriteCluster(c + k, Piece(slots[i].buffer, clusterSize, k));
        StoredOneMore(old(device), d1, device, clusterSize, accepts, slots[i].page, slots[i].buffer, k);
      }
    }

    /** Write the page in slot i back if it is modified: its mark goes if that worked, else the error is noted. */
    method WriteBack(i: nat) returns (status: Status)
      requires Valid() && i < slots.Length && slots[i].cached
      modifies this`device, slots
      ensures Valid()
      ensures status.Ok() <==> (old(slots[i].modified) ==> PageAccepted(clusterSize, canWrite, accepts, old(slots[i].page)))
      ensures slots[i] == old(slots[i]).(modified := !status.Ok(), writeError := old(slots[i].writeError) || !status.Ok())
      ensures forall j :: 0 <= j < slots.Length && j != i ==> slots[j] == old(slots[j])
      ensures Flushed(clusterSize, canWrite, accepts, old(pages), old(device), old(ModifiedPages(slots[..])),
                      pages, device, ModifiedPages(slots[..]))
    {
      hide Shows, Whole, Flushed, PageAccepted, StoredPage, ModifiedPages, WellSized, Paged;
      ghost var s0, d0, p := slots[..], device, slots[i].page;
      status := Success;
      if slots[i].modified {
        ShownPage(s0, pages, i);
        ModifiedHas(s0, i);
        status := ActualWritePage(i);
        if status.Ok() {
          slots[i] := slots[i].(modified := false);
        } else {
          slots[i] := slots[i].(writeError := true);
        }
        assert slots[..] == s0[i := slots[i]];
        ShowsMarked(s0, pages, i, slots[i].modified, slots[i].writeError);
        MarkChanged(s0, pages, i, slots[i].modified, slots[i].writeError);
        FlushedPage(pages, d0, device, clusterSize, canWrite, accepts, p, ModifiedPages(s0), ModifiedPages(slots[..]));
      } else {
        FlushedNot(clusterSize, canWrite, accepts, pages, device, ModifiedPages(s0));
      }
    }

    /** CcPurgeCacheFile: write every modified page, up to the first that fails. */
    method PurgeCacheFile() returns (status: Status)
      requires Valid()
      modifies this`device, slots
      ensures Valid()
      ensures status.Ok() <==>
        forall p :: p in old(ModifiedPages(slots[..])) ==> PageAccepted(clusterSize, canWrite, accepts, p)
      ensures status.Ok() ==> ModifiedPages(slots[..]) == {}
      ensures Flushed(clusterSize, canWrite, accepts, old(pages), old(device), old(ModifiedPages(slots[..])),
                      pages, device, ModifiedPages(slots[..]))
    {
      hide Shows, Whole, Flushed, PageAccepted, ModifiedPages, WellSized;
      ghost var s0, m0, d0 := slots[..], ModifiedPages(slots[..]), device;
      status := Success;
      var i := 0;
      FlushedNot(clusterSize, canWrite, accepts, pages, d0, m0);
      EachModified(s0);
      ModifiedShown(s0);
      while i < slots.Length && status.Ok()
        invariant Valid() && 0 <= i <= slots.Length && (forall j :: i <= j < slots.Length ==> slots[j] == s0[j])
        invariant forall j :: 0 <= j < i && s0[j].cached && s0[j].modified && status.Ok() ==>
          PageAccepted(clusterSize, canWrite, accepts, s0[j].page)
        invariant status.Ok() ==> forall j :: 0 <= j < i && slots[j].cached ==> !slots[j].modified
        invariant !status.Ok() ==> exists p :: p in m0 && !PageAccepted(clusterSize, canWrite, accepts, p)
        invariant Flushed(clusterSize, canWrite, accepts, pages, d0, m0, pages, device, ModifiedPages(slots[..]))
      {
        if slots[i].cached && slots[i].modified {
          ghost var d1, m1 := device, ModifiedPages(slots[..]);
          status := WriteBack(i);
          FlushedTwice(clusterSize, canWrite, accepts, pages, d0, m0, pages, d1, m1, pages, device, ModifiedPages(slots[..]));
        }
        i := i + 1;
      }
      if status.Ok() {
        NoneModified(slots[..]);
      }
    }

    // -------------------------------------------------------------- evicting

    /** A slot whose page may go: no write ever failed on it, and it is clean or can be written. */
    ghost predicate Evictable(s: Slot)
      requires Whole(clusterSize)
    {
      s.cached && !s.writeError && (s.modified ==> PageAccepted(clusterSize, canWrite, accepts, s.page))
    }

    ghost predicate HasEvictable(slots: seq<Slot>)
      requires Whole(clusterSize)
    {
      exists i :: 0 <= i < |slots| && Evictable(slots[i])
    }

    /** Slot s after a pass that did not evict it. */
    ghost predicate Passed(s: Slot, s': Slot)
      requires Whole(clusterSize)
    {
      && s' == s.(useCount := Aged(s.useCount), modified := s'.modified, writeError := s'.writeError)
      && (s.cached ==> (Evictable(s') <==> Evictable(s)))
    }

    /** Remove the page in slot i. */
    method DeletePage(i: nat)
      requires Valid() && i < slots.Length && slots[i].cached && !slots[i].modified
      modifies this`pages, this`cachedPages, slots
      ensures Valid() && pages == old(pages) - {old(slots[i].page)} && |pages| + 1 == |old(pages)|
      ensures slots[i] == old(slots[i]).(cached := false) && forall j :: 0 <= j < slots.Length && j != i ==> slots[j] == old(slots[j])
      ensures ModifiedPages(slots[..]) == old(ModifiedPages(slots[..]))
    {
      hide Shows, Whole, WellSized, ModifiedPages;
      ghost var s0, p := slots[..], slots[i].page;
      ShownPage(s0, pages, i);
      slots[i] := slots[i].(cached := false);
      assert slots[..] == s0[i := s0[i].(cached := false)];
      ShowsDeleted(s0, pages, i);
      ModifiedKept(s0, i, slots[i]);
      DeletedSize(pages, p);
      pages := pages - {p};
      cachedPages := cachedPages - 1;
    }

    method AgePage(i: nat)
      requires Valid() && i < slots.Length
      modifies slots
      ensures Valid() && ModifiedPages(slots[..]) == old(ModifiedPages(slots[..]))
      ensures slots[i] == old(slots[i]).(useCount := Aged(old(slots[i].useCount)))
      ensures slots[i].useCount == if old(slots[i].useCount) == 0 then 0 else old(slots[i].useCount) - 1
      ensures forall j :: 0 <= j < slots.Length && j != i ==> slots[j] == old(slots[j])
    {
      hide Shows, Whole, WellSized, Paged, ModifiedPages;
      ghost var s0 := slots[..];
      slots[i] := slots[i].(useCount := Aged(slots[i].useCount));
      assert slots[..] == s0[i := s0[i].(useCount := Aged(s0[i].useCount))];
      AgedShows(s0, pages, i);
    }

    /** Write a page that is due back if it is modified, and delete it if no write ever failed. */
    method EvictPage(i: nat) returns (deleted: bool)
      requires Valid() && i < slots.Length && slots[i].cached
      modifies this`device, this`pages, this`cachedPages, slots
      ensures Valid() && forall j :: 0 <= j < slots.Length && j != i ==> slots[j] == old(slots[j])
      ensures deleted == Evictable(old(slots[i])) && |pages| + (if deleted then 1 else 0) == |old(pages)|
      ensures !deleted ==> pages == old(pages) && !Evictable(slots[i])
      ensures !deleted ==>
        slots[i] == old(slots[i]).(modified := slots[i].modified, writeError := slots[i].writeError)
      ensures Flushed(clusterSize, canWrite, accepts, old(pages), old(device), old(ModifiedPages(slots[..])),
                      pages, device, ModifiedPages(slots[..]))
    {
      hide Shows, Whole, WellSized, Paged, Flushed, PageAccepted, ModifiedPages;
      ghost var p0, d0, m0 := pages, device, ModifiedPages(slots[..]);
      var status := WriteBack(i);
      deleted := !slots[i].modified && !slots[i].writeError;
      if deleted {
        ghost var m1 := ModifiedPages(slots[..]);
        NotModified(slots[..], pages, i);
        DeletePage(i);
        FlushedAway(clusterSize, canWrite, accepts, p0, device, m1, old(slots[i].page));
        FlushedTwice(clusterSize, canWrite, accepts, p0, d0, m0, p0, device, m1, pages, device, m1);
      }
    }

    /** What CcpRebuildCacheMap does with one cached page. */
    method RebuildPage(i: nat, force: bool, threshold: nat) returns (deleted: bool)
      requires Valid() && i < slots.Length && slots[i].cached
      modifies this`device, this`pages, this`cachedPages, slots
      ensures Valid() && forall j :: 0 <= j < slots.Length && j != i ==> slots[j] == old(slots[j])
      ensures deleted == (Aged(old(slots[i].useCount)) <= threshold
                          && (force || rebuildCount >= REBUILD_COUNT_THRESHOLD) && Evictable(old(slots[i])))
      ensures |pages| + (if deleted then 1 else 0) == |old(pages)|
      ensures !deleted ==> pages == old(pages) && Passed(old(slots[i]), slots[i])
      ensures Flushed(clusterSize, canWrite, accepts, old(pages), old(device), old(ModifiedPages(slots[..])),
                      pages, device, ModifiedPages(slots[..]))
    {
      hide Shows, Whole, WellSized, Paged, Flushed, PageAccepted, ModifiedPages;
      ghost var m0, d0 := ModifiedPages(slots[..]), device;
      AgePage(i);
      FlushedNot(clusterSize, canWrite, accepts, pages, device, m0);
      deleted := false;
      if slots[i].useCount <= threshold {
        if rebuildCount >= REBUILD_COUNT_THRESHOLD && !force {
          var status := WriteBack(i);
        }
        if rebuildCount >= REBUILD_COUNT_THRESHOLD || force {
          ghost var p1, d1, m1 := pages, device, ModifiedPages(slots[..]);
          deleted := EvictPage(i);
          FlushedTwice(clusterSize, canWrite, accepts, p1, d0, m0, p1, d1, m1, pages, device, ModifiedPages(slots[..]));
        }
      }
    }

    /** Slot s after a pass that evicted nothing: a page that could go was used too often to be due. */
    ghost predicate PassedOver(s: Slot, s': Slot, force: bool, threshold: nat)
      requires Whole(clusterSize)
    {
      if s.cached then Passed(s, s') && (force && Evictable(s) ==> s'.useCount > threshold) else s' == s
    }

    /** A pass over slots without a page that can go leaves none that can. */
    lemma StaysStuck(slots: seq<Slot>, slots': seq<Slot>, force: bool, threshold: nat)
      requires Whole(clusterSize) && !HasEvictable(slots) && |slots| == |slots'|
      requires forall j :: 0 <= j < |slots| ==> PassedOver(slots[j], slots'[j], force, threshold)
      ensures !HasEvictable(slots')
    {
      hide Whole, PageAccepted;
      forall j | 0 <= j < |slots'|
        ensures !Evictable(slots'[j])
      {
        assert PassedOver(slots[j], slots'[j], force, threshold) && !Evictable(slots[j]);
      }
    }

    /** One pass over the slots; how many pages it evicted. */
    method RebuildPass(force: bool, threshold: nat) returns (deleted: nat)
      requires Valid()
      modifies this`device, this`pages, this`cachedPages, slots
      ensures Valid() && |pages| + deleted == |old(pages)|
      ensures deleted > 0 ==> HasEvictable(old(slots[..]))
      ensures deleted == 0 ==> pages == old(pages) && forall j :: 0 <= j < slots.Length ==>
        PassedOver(old(slots[..])[j], slots[j], force, threshold)
      ensures Flushed(clusterSize, canWrite, accepts, old(pages), old(device), old(ModifiedPages(slots[..])),
                      pages, device, ModifiedPages(slots[..]))
    {
      hide Shows, Whole, WellSized, Paged, Flushed, PageAccepted, ModifiedPages, Evictable;
      ghost var s0, m0, d0, p0 := slots[..], ModifiedPages(slots[..]), device, pages;
      FlushedNot(clusterSize, canWrite, accepts, pages, device, m0);
      deleted := 0;
      for i := 0 to slots.Length
        invariant Valid() && (forall j :: i <= j < slots.Length ==> slots[j] == s0[j]) && |pages| + deleted == |p0|
        invariant deleted > 0 ==> HasEvictable(s0)
        invariant deleted == 0 ==> pages == p0 && forall j :: 0 <= j < i ==> PassedOver(s0[j], slots[j], force, threshold)
        invariant Flushed(clusterSize, canWrite, accepts, p0, d0, m0, pages, device, ModifiedPages(slots[..]))
      {
        if slots[i].cached {
          ghost var p1, d1, m1, s1 := pages, device, ModifiedPages(slots[..]), slots[..];
          var gone := RebuildPage(i, force, threshold);
          FlushedTwice(clusterSize, canWrite, accepts, p0, d0, m0, p1, d1, m1, pages, device, ModifiedPages(slots[..]));
          if gone {
            deleted := deleted + 1;
          }
        }
      }
    }

    /** A forced rebuild with no page that can go: after any number of its rounds no page has gone, and none
        can, so the rounds never end. */
    method RebuildRounds(n: nat)
      requires Valid() && !HasEvictable(slots[..])
      modifies this`device, this`pages, this`cachedPages, slots
      ensures Valid() && pages == old(pages) && !HasEvictable(slots[..])
    {
      hide Shows, Whole, WellSized, Paged, Flushed, PageAccepted, ModifiedPages, Evictable, HasEvictable;
      for threshold := 0 to n
        invariant Valid() && pages == old(pages) && !HasEvictable(slots[..])
      {
        ghost var s := slots[..];
        var deleted := RebuildPass(true, threshold);
        StaysStuck(s, slots[..], true, threshold);
      }
    }

    /** CcpRebuildCacheMap, were it not compiled out.  A forced rebuild repeats its pass with a rising
        threshold until a page goes; it ends because some page can. */
    method RebuildCacheMap(force: bool)
      requires Valid() && (force ==> HasEvictable(slots[..]))
      modifies this`device, this`pages, this`cachedPages, this`rebuildCount, slots
      ensures Valid() && (force ==> |pages| < |old(pages)|) && rebuildCount == old(rebuildCount) + 1
      ensures Flushed(clusterSize, canWrite, accepts, old(pages), old(device), old(ModifiedPages(slots[..])),
                      pages, device, ModifiedPages(slots[..]))
    {
      hide Shows, Whole, WellSized, Paged, Flushed, PageAccepted, ModifiedPages;
      ghost var m0, d0, p0 := ModifiedPages(slots[..]), device, pages;
      var deleted := RebuildPass(force, 0);
      if force && deleted == 0 {
        ghost var p1, d1, m1, s1 := pages, device, ModifiedPages(slots[..]), slots[..];
        ghost var w :| 0 <= w < slots.Length && Evictable(old(slots[..])[w]);
        assert PassedOver(old(slots[..])[w], slots[w], force, 0);
        RebuildHarder(w);
        FlushedTwice(clusterSize, canWrite, accepts, p0, d0, m0, p1, d1, m1, pages, device, ModifiedPages(slots[..]));
      }
      rebuildCount := rebuildCount + 1;
    }

    /** CcFreeCacheMap: write everything back, then free the pages; counting the pages freed against
        CachedPages never stops too early. */
    method FreeCacheMap() returns (status: Status)
      requires Valid()
      modifies this`device, this`pages, this`cachedPages, slots
      ensures Valid()
      ensures status.Ok() <==>
        forall p :: p in old(ModifiedPages(slots[..])) ==> PageAccepted(clusterSize, canWrite, accepts, p)
      ensures status.Ok() ==> pages == map[] && forall j :: 0 <= j < slots.Length ==> !slots[j].cached
      ensures Flushed(clusterSize, canWrite, accepts, old(pages), old(device), old(ModifiedPages(slots[..])),
                      pages, device, ModifiedPages(slots[..]))
    {
      hide Shows, Whole, WellSized, Paged, Flushed, PageAccepted, ModifiedPages;
      status := PurgeCacheFile();
      if !status.Ok() {
        return;
      }
      ghost var p0, d0, m0 := old(pages), old(device), old(ModifiedPages(slots[..]));
      var limit := cachedPages;
      var i, j := 0, 0;
      while i < slots.Length && j < limit
        invariant Valid() && 0 <= i <= slots.Length && |pages| + j == |p0| <= limit
        invariant forall k :: 0 <= k < i ==> !slots[k].cached
        invariant ModifiedPages(slots[..]) == {}
        invariant Flushed(clusterSize, canWrite, accepts, p0, d0, m0, pages, device, {})
      {
        if slots[i].cached {
          ghost var p1, q := pages, slots[i].page;
          NoMarks(slots[..], i);
          DeletePage(i);
          FlushedAway(clusterSize, canWrite, accepts, p1, device, {}, q);
          FlushedTwice(clusterSize, canWrite, accepts, p0, d0, m0, p1, device, {}, pages, device, {});
          j := j + 1;
        }
        i := i + 1;
      }
      NothingLeft(slots[..], pages, i);
    }

    /** The passes after a first one that evicted nothing; the page in slot w can go. */
    method RebuildHarder(ghost w: nat)
      requires Valid() && w < slots.Length && Evictable(slots[w]) && slots[w].useCount > 0
      modifies this`device, this`pages, this`cachedPages, slots
      ensures Valid() && |pages| < |old(pages)|
      ensures Flushed(clusterSize, canWrite, accepts, old(pages), old(device), old(ModifiedPages(slots[..])),
                      pages, device, ModifiedPages(slots[..]))
    {
      hide Shows, Whole, WellSized, Paged, Flushed, PageAccepted, ModifiedPages;
      ghost var m0, d0, p0 := ModifiedPages(slots[..]), device, pages;
      FlushedNot(clusterSize, canWrite, accepts, pages, device, m0);
      var threshold, deleted := 0, 0;
      while deleted == 0
        invariant Valid() && |pages| + deleted == |p0|
        invariant deleted == 0 ==> Evictable(slots[w]) && slots[w].useCount > threshold
        invariant Flushed(clusterSize, canWrite, accepts, p0, d0, m0, pages, device, ModifiedPages(slots[..]))
        decreases if deleted == 0 then slots[w].useCount else 0
      {
        ghost var p1, d1, m1, s1 := pages, device, ModifiedPages(slots[..]), slots[..];
        threshold := threshold + 1;
        deleted := RebuildPass(true, threshold);
        FlushedTwice(clusterSize, canWrite, accepts, p0, d0, m0, p1, d1, m1, pages, device, ModifiedPages(slots[..]));
        assert deleted == 0 ==> PassedOver(s1[w], slots[w], true, threshold);
      }
    }
  }

  const REBUILD_COUNT_THRESHOLD := 10

  function Aged(n: nat): nat { if n > 0 then n - 1 else 0 }

  /** Same slots but for use counts, contents, and marks on the given pages. */
  ghost predicate Touched(slots: seq<Slot>, slots': seq<Slot>, marks: set<nat>) {
    && |slots| == |slots'|
    && (forall i :: 0 <= i < |slots| ==> slots'[i] == slots[i].(useCount := slots'[i].useCount,
         buffer := slots'[i].buffer, modified := slots[i].modified || (slots[i].cached && slots[i].page in marks)))
  }

  lemma NotTouched(slots: seq<Slot>)
    ensures Touched(slots, slots, {})
  {
  }

  lemma ShowsDeleted(slots: seq<Slot>, pages: Pages, i: nat)
    requires Shows(slots, pages) && i < |slots| && slots[i].cached
    ensures Shows(slots[i := slots[i].(cached := false)], pages - {slots[i].page})
  {
    var t := slots[i := slots[i].(cached := false)];
    forall p | p in pages && p != slots[i].page
      ensures HasSlot(t, p)
    {
      var j :| 0 <= j < |slots| && Finds(slots[j], p);
      assert Finds(t[j], p);
    }
  }

  lemma DeletedSize(pages: Pages, p: nat)
    requires p in pages
    ensures |pages - {p}| + 1 == |pages|
  {
    assert pages.Keys == (pages - {p}).Keys + {p};
  }

  lemma AgedShows(slots: seq<Slot>, pages: Pages, i: nat)
    requires Shows(slots, pages) && i < |slots|
    ensures var t := slots[i := slots[i].(useCount := Aged(slots[i].useCount))];
      Shows(t, pages) && ModifiedPages(t) == ModifiedPages(slots)
  {
    var t := slots[i := slots[i].(useCount := Aged(slots[i].useCount))];
    forall p | p in pages
      ensures HasSlot(t, p)
    {
      var j :| 0 <= j < |slots| && Finds(slots[j], p);
      assert Finds(t[j], p);
    }
    assert Touched(slots, t, {});
    TouchedMarks(slots, t, pages, {});
  }

  lemma ModifiedHas(slots: seq<Slot>, i: nat)
    requires i < |slots| && slots[i].cached && slots[i].modified
    ensures slots[i].page in ModifiedPages(slots)
  {
  }

  lemma NoMarks(slots: seq<Slot>, i: nat)
    requires ModifiedPages(slots) == {} && i < |slots| && slots[i].cached
    ensures !slots[i].modified
  {
    if slots[i].modified {
      ModifiedHas(slots, i);
    }
  }

  lemma NothingLeft(slots: seq<Slot>, pages: Pages, i: nat)
    requires Shows(slots, pages) && i <= |slots| && forall k :: 0 <= k < i ==> !slots[k].cached
    requires i == |slots| || |pages| == 0
    ensures pages == map[] && forall k :: 0 <= k < |slots| ==> !slots[k].cached
  {
    if i == |slots| {
      forall p
        ensures p !in pages
      {
        assert !HasSlot(slots, p);
      }
    }
    assert forall k :: 0 <= k < |slots| ==> (slots[k].cached ==> slots[k].page in pages);
  }

  lemma NotModified(slots: seq<Slot>, pages: Pages, i: nat)
    requires Shows(slots, pages) && i < |slots| && slots[i].cached && !slots[i].modified
    ensures slots[i].page !in ModifiedPages(slots)
  {
  }

  lemma EachModified(slots: seq<Slot>)
    ensures forall i :: 0 <= i < |slots| && slots[i].cached && slots[i].modified ==> slots[i].page in ModifiedPages(slots)
  {
  }

  lemma ModifiedShown(slots: seq<Slot>)
    ensures forall p :: p in ModifiedPages(slots) ==> exists i :: 0 <= i < |slots| && Finds(slots[i], p) && slots[i].modified
  {
  }

  lemma NoneModified(slots: seq<Slot>)
    requires forall i :: 0 <= i < |slots| && slots[i].cached ==> !slots[i].modified
    ensures ModifiedPages(slots) == {}
  {
  }

  lemma MarkChanged(slots: seq<Slot>, pages: Pages, i: nat, modified: bool, writeError: bool)
    requires Shows(slots, pages) && i < |slots| && slots[i].cached && slots[i].modified
    ensures ModifiedPages(slots[i := slots[i].(modified := modified, writeError := writeError)])
         == ModifiedPages(slots) - if modified then {} else {slots[i].page}
  {
    var t := slots[i := slots[i].(modified := modified, writeError := writeError)];
    var m := ModifiedPages(slots) - if modified then {} else {slots[i].page};
    forall p
      ensures p in ModifiedPages(t) <==> p in m
    {
      ModifiedAre(slots, p);
      ModifiedAre(t, p);
      if j :| 0 <= j < |slots| && Finds(slots[j], p) && slots[j].modified {
        assert j != i ==> t[j] == slots[j];
        assert Finds(t[j], p);
      }
      if j :| 0 <= j < |t| && Finds(t[j], p) && t[j].modified {
        assert Finds(slots[j], p) && slots[j].modified;
      }
    }
  }

  lemma TouchedMarks(slots: seq<Slot>, slots': seq<Slot>, pages: Pages, marks: set<nat>)
    requires Touched(slots, slots', marks) && Shows(slots, pages)
    ensures ModifiedPages(slots') == ModifiedPages(slots) + (marks * pages.Keys)
  {
    forall p
      ensures p in ModifiedPages(slots') <==> p in ModifiedPages(slots) || (p in marks && p in pages)
    {
      ModifiedAre(slots, p);
      ModifiedAre(slots', p);
      if p in pages {
        var i :| 0 <= i < |slots| && Finds(slots[i], p);
        assert Finds(slots'[i], p);
      }
      if j :| 0 <= j < |slots| && Finds(slots[j], p) && slots[j].modified {
        assert Finds(slots'[j], p);
      }
    }
  }

  lemma NoneCached(pages: Pages, first: nat)
    ensures AllCached(pages, first, first) && SameKeys(pages, pages)
  {
  }

  lemma OneMoreCached(pages: Pages, pages': Pages, first: nat, p: nat)
    requires AllCached(pages, first, p) && SameKeys(pages, pages') && p in pages'
    ensures AllCached(pages, first, p + 1)
  {
  }

  lemma CachedSame(pages: Pages, pages': Pages, first: nat, last: nat)
    requires AllCached(pages, first, last) && SameKeys(pages, pages')
    ensures forall q :: first <= q < last ==> q in pages'
  {
  }

  /** The mark CcpFindAndReadWrite leaves when it gets to the last page of a write. */
  lemma FoundMarks(slots: seq<Slot>, slots': seq<Slot>, pages: Pages, at: nat, size: nat, found: bool, pn: nat)
    requires Touched(slots, slots', if found then {pn} else {}) && Shows(slots, pages)
    requires found ==> pn in pages && pn == LastPage(at, size)
    ensures ModifiedPages(slots') == if found then WithMark(ModifiedPages(slots), pages, at, size) else ModifiedPages(slots)
  {
    hide Shows, Touched, LastPage, ModifiedPages;
    TouchedMarks(slots, slots', pages, if found then {pn} else {});
  }

  lemma TouchedTwice(s0: seq<Slot>, s1: seq<Slot>, s2: seq<Slot>)
    requires Touched(s0, s1, {}) && Touched(s1, s2, {})
    ensures Touched(s0, s2, {})
  {
    forall i | 0 <= i < |s0|
      ensures s2[i] == s0[i].(useCount := s2[i].useCount, buffer := s2[i].buffer)
    {
      assert s1[i] == s0[i].(useCount := s1[i].useCount, buffer := s1[i].buffer);
    }
  }

  lemma MarkTouches(s0: seq<Slot>, s1: seq<Slot>, pages: Pages, i: nat, q: nat)
    requires Shows(s1, pages) && Touched(s0, s1, {}) && i < |s1| && Finds(s1[i], q)
    ensures Touched(s0, s1[i := s1[i].(modified := true)], {q})
  {
    forall j | 0 <= j < |s0| && j != i
      ensures !Finds(s0[j], q)
    {
      assert s1[j].cached ==> s1[j].page != s1[i].page;
    }
  }

  lemma ShowsMarked(slots: seq<Slot>, pages: Pages, i: nat, modified: bool, writeError: bool)
    requires Shows(slots, pages) && i < |slots|
    ensures Shows(slots[i := slots[i].(modified := modified, writeError := writeError)], pages)
  {
    var t := slots[i := slots[i].(modified := modified, writeError := writeError)];
    forall p | p in pages
      ensures HasSlot(t, p)
    {
      var j :| 0 <= j < |slots| && Finds(slots[j], p);
      assert Finds(t[j], p);
    }
  }

  lemma ShownPage(slots: seq<Slot>, pages: Pages, i: nat)
    requires Shows(slots, pages) && i < |slots| && slots[i].cached
    ensures slots[i].page in pages && pages[slots[i].page] == slots[i].buffer && |slots[i].buffer| == PAGE
  {
  }

  lemma SlotStays(slots: seq<Slot>, i: nat, s: Slot, p: nat)
    requires HasSlot(slots, p) && i < |slots| && s.cached == slots[i].cached && s.page == slots[i].page
    ensures HasSlot(slots[i := s], p)
  {
    var j :| 0 <= j < |slots| && Finds(slots[j], p);
    assert Finds(slots[i := s][j], p);
  }

  /** A slot used, with the same or new contents. */
  lemma ShowsStored(slots: seq<Slot>, pages: Pages, i: nat, s: Slot, pages': Pages)
    requires Shows(slots, pages) && i < |slots| && slots[i].cached && |s.buffer| == PAGE
    requires s == slots[i].(useCount := s.useCount, buffer := s.buffer)
    requires pages' == pages[s.page := s.buffer] || (pages' == pages && s.buffer == slots[i].buffer)
    ensures Shows(slots[i := s], pages') && Touched(slots, slots[i := s], {})
  {
    var t := slots[i := s];
    assert s.page in pages && forall p :: p in pages' <==> p in pages;
    forall p | p in pages
      ensures HasSlot(t, p)
    {
      SlotStays(slots, i, s, p);
    }
    forall j | 0 <= j < |t| && t[j].cached
      ensures |t[j].buffer| == PAGE && t[j].page in pages' && pages'[t[j].page] == t[j].buffer
    {
      assert j != i ==> slots[j].page != slots[i].page;
    }
  }

  lemma PageWritten(pages: Pages, dev: Device, cs: nat, p: nat, o: nat, src: seq<Byte>, pos: nat, n: nat)
    requires Sane(pages, dev, cs) && p in pages && o + n <= PAGE && pos + n <= |src|
    ensures var pages' := pages[p := pages[p][..o] + src[pos..pos + n] + pages[p][o + n..]];
      Moved(true, pages, pages', dev, cs, p * PAGE + o, src, src, pos, n) && Paged(pages') && pages'.Keys == pages.Keys
  {
    var page := pages[p][..o] + src[pos..pos + n] + pages[p][o + n..];
    assert pages[p := page].Keys == pages.Keys;
    forall k | 0 <= k < PAGE
      ensures page[k] == if o <= k < o + n then src[pos + k - o] else pages[p][k]
    {
    }
  }

  lemma PageRead(pages: Pages, dev: Device, cs: nat, p: nat, o: nat, before: seq<Byte>, after: seq<Byte>, pos: nat, n: nat)
    requires Sane(pages, dev, cs) && p in pages && o + n <= PAGE && pos + n <= |before| == |after|
    requires forall k :: 0 <= k < |after| ==>
      after[k] == if pos <= k < pos + n then pages[p][o..o + n][k - pos] else before[k]
    ensures Moved(false, pages, pages, dev, cs, p * PAGE + o, before, after, pos, n)
  {
    forall k | pos <= k < pos + n
      ensures ContentAt(pages, dev, cs, p * PAGE + o + k - pos) == Known(after[k])
    {
      var x := p * PAGE + (o + k - pos);
      assert x / PAGE == p && x % PAGE == o + k - pos;
    }
  }

  lemma ShowsGrown(slots: seq<Slot>, pages: Pages, n: nat)
    requires Shows(slots, pages)
    ensures Shows(slots + seq(n, _ => EMPTY), pages)
    ensures ModifiedPages(slots + seq(n, _ => EMPTY)) == ModifiedPages(slots)
  {
    var t := slots + seq(n, _ => EMPTY);
    forall p
      ensures p in ModifiedPages(t) <==> p in ModifiedPages(slots)
    {
      ModifiedAre(slots, p);
      ModifiedAre(t, p);
      if j :| 0 <= j < |slots| && Finds(slots[j], p) && slots[j].modified {
        assert t[j] == slots[j];
      }
    }
    forall p | p in pages
      ensures HasSlot(t, p)
    {
      var i :| 0 <= i < |slots| && Finds(slots[i], p);
      assert Finds(t[i], p);
    }
  }

  lemma AddedSize(pages: Pages, p: nat, page: seq<Byte>)
    requires p !in pages
    ensures |pages[p := page]| == |pages| + 1
  {
    assert pages[p := page].Keys == pages.Keys + {p};
  }

  lemma ShowsAdded(slots: seq<Slot>, pages: Pages, i: nat, s: Slot)
    requires Shows(slots, pages) && i < |slots| && !slots[i].cached
    requires s.cached && s.page !in pages && |s.buffer| == PAGE
    ensures Shows(slots[i := s], pages[s.page := s.buffer])
    ensures !s.modified ==> ModifiedPages(slots[i := s]) == ModifiedPages(slots)
  {
    ModifiedKept(slots, i, s);
    assert Finds(slots[i := s][i], s.page);
    forall p | p in pages
      ensures HasSlot(slots[i := s], p)
    {
      var j :| 0 <= j < |slots| && Finds(slots[j], p);
      assert Finds(slots[i := s][j], p);
    }
  }

  lemma ShowsCleared(slots: seq<Slot>, pages: Pages, i: nat, s: Slot)
    requires Shows(slots, pages) && i < |slots| && !slots[i].cached && !s.cached
    ensures Shows(slots[i := s], pages)
    ensures ModifiedPages(slots[i := s]) == ModifiedPages(slots)
  {
    ModifiedKept(slots, i, s);
    forall p | p in pages
      ensures HasSlot(slots[i := s], p)
    {
      var j :| 0 <= j < |slots| && Finds(slots[j], p);
      assert Finds(slots[i := s][j], p);
    }
  }

  lemma ModifiedKept(slots: seq<Slot>, i: nat, s: Slot)
    requires i < |slots| && (slots[i].cached ==> !slots[i].modified)
    ensures (s.cached ==> !s.modified) ==> ModifiedPages(slots[i := s]) == ModifiedPages(slots)
  {
    var t := slots[i := s];
    forall p | s.cached ==> !s.modified
      ensures p in ModifiedPages(t) <==> p in ModifiedPages(slots)
    {
      ModifiedAre(slots, p);
      ModifiedAre(t, p);
      if j :| 0 <= j < |slots| && Finds(slots[j], p) && slots[j].modified {
        assert t[j] == slots[j];
      }
      if j :| 0 <= j < |t| && Finds(t[j], p) && t[j].modified {
        assert slots[j] == t[j];
      }
    }
  }
}
