/** Writing cached pages back to the device, and what that means for the file (kernel/cc.cpp). */
module CacheWrites {
  import opened Common
  import opened CacheContent

  /** The bytes of a page buffer that go to its i-th cluster. */
  function Piece(page: seq<Byte>, cs: nat, i: nat): seq<Byte> {
    if i * cs + cs <= |page| then page[i * cs..i * cs + cs] else []
  }

  /** The device after page p was written: the clusters that accept a write hold their piece. */
  ghost predicate StoredPage(dev: Device, dev': Device, cs: nat, accepts: nat -> bool, p: nat, page: seq<Byte>, n: nat)
    requires Whole(cs)
  {
    var c := FirstCluster(cs, p);
    forall k: nat :: dev'(k) == if c <= k < c + n && accepts(k) then Data(Piece(page, cs, k - c)) else dev(k)
  }

  lemma NothingStored(dev: Device, cs: nat, accepts: nat -> bool, p: nat, page: seq<Byte>)
    requires Whole(cs)
    ensures StoredPage(dev, dev, cs, accepts, p, page, 0)
  {
  }

  lemma StoredOneMore(d0: Device, d1: Device, d2: Device, cs: nat, accepts: nat -> bool, p: nat, page: seq<Byte>, n: nat)
    requires Whole(cs) && WellSized(d1, cs) && |page| == PAGE && n < ClustersPerPage(cs)
    requires StoredPage(d0, d1, cs, accepts, p, page, n)
    requires var c := FirstCluster(cs, p) + n;
      forall k: nat :: d2(k) == if k == c && accepts(c) then Data(Piece(page, cs, n)) else d1(k)
    ensures StoredPage(d0, d2, cs, accepts, p, page, n + 1) && WellSized(d2, cs)
  {
    PieceFits(page, cs, n);
    hide FirstCluster, ClustersPerPage, Whole;
  }

  /** CcpActualWritePage reports success: the last cluster accepted its write. */
  predicate PageAccepted(cs: nat, canWrite: bool, accepts: nat -> bool, p: nat)
    requires Whole(cs)
  {
    canWrite && ClustersPerPage(cs) > 0 && accepts(FirstCluster(cs, p) + ClustersPerPage(cs) - 1)
  }

  /** Every cluster of the page accepts its write. */
  ghost predicate AllAccepted(cs: nat, accepts: nat -> bool, p: nat)
    requires Whole(cs)
  {
    forall k :: FirstCluster(cs, p) <= k < FirstCluster(cs, p) + ClustersPerPage(cs) ==> accepts(k)
  }

  lemma PieceFits(page: seq<Byte>, cs: nat, i: nat)
    requires Whole(cs) && i < ClustersPerPage(cs) && |page| == PAGE
    ensures i * cs + cs <= PAGE && |Piece(page, cs, i)| == cs
  {
    MulGrows(i + 1, ClustersPerPage(cs), cs);
  }

  /** Clusters of different pages differ. */
  lemma PagesApart(cs: nat, p: nat, q: nat)
    requires Whole(cs) && p < q
    ensures FirstCluster(cs, p) + ClustersPerPage(cs) <= FirstCluster(cs, q)
  {
    MulGrows(p + 1, q, ClustersPerPage(cs));
  }

  lemma {:induction false} StopSame(dev: Device, dev': Device, c: nat, n: nat)
    requires forall k :: c <= k < c + n ==> dev'(k) == dev(k)
    ensures Stop(dev', c, n) == Stop(dev, c, n)
    decreases n
  {
    if n > 0 {
      StopSame(dev, dev', c + 1, n - 1);
    }
  }

  /** The device has page p unchanged. */
  ghost predicate SamePage(dev: Device, dev': Device, cs: nat, p: nat)
    requires Whole(cs)
  {
    forall k :: FirstCluster(cs, p) <= k < FirstCluster(cs, p) + ClustersPerPage(cs) ==> dev'(k) == dev(k)
  }

  lemma SameStatus(dev: Device, dev': Device, cs: nat, p: nat)
    requires Whole(cs) && SamePage(dev, dev', cs, p)
    ensures PageStatus(dev', cs, p) == PageStatus(dev, cs, p)
  {
    hide FirstCluster, ClustersPerPage;
    WholeHasClusters(cs);
    StopSame(dev, dev', FirstCluster(cs, p), ClustersPerPage(cs));
  }

  lemma WholeHasClusters(cs: nat)
    requires Whole(cs)
    ensures cs > 0 && ClustersPerPage(cs) > 0
  {
  }

  lemma SameBytes(dev: Device, dev': Device, cs: nat, c: nat, n: nat, o: nat)
    requires cs > 0 && WellSized(dev, cs) && WellSized(dev', cs) && o < n * cs
    requires forall k :: c <= k < c + n ==> dev'(k) == dev(k)
    ensures ClusterByte(dev', cs, c, o) == ClusterByte(dev, cs, c, o)
  {
    InCluster(o, cs, n);
  }

  lemma SamePageBytes(dev: Device, dev': Device, cs: nat, p: nat, o: nat)
    requires Whole(cs) && WellSized(dev, cs) && WellSized(dev', cs) && SamePage(dev, dev', cs, p) && o < PAGE
    ensures DeviceByte(dev', cs, p, o) == DeviceByte(dev, cs, p, o)
  {
    hide FirstCluster, ClustersPerPage, PageStatus, ClusterByte, Stop, WellSized;
    WholeHasClusters(cs);
    SameStatus(dev, dev', cs, p);
    var c, n := FirstCluster(cs, p), ClustersPerPage(cs);
    StopSame(dev, dev', c, n);
    var k := Stop(dev, c, n);
    if o < k * cs {
      assert forall j :: c <= j < c + k ==> dev'(j) == dev(j);
      SameBytes(dev, dev', cs, c, k, o);
    }
  }

  lemma InCluster(o: nat, cs: nat, n: nat)
    requires cs > 0 && o < n * cs
    ensures o / cs < n
  {
    if o / cs >= n {
      MulGrows(n, o / cs, cs);
    }
  }

  lemma StoredElsewhere(dev: Device, dev': Device, cs: nat, accepts: nat -> bool, p: nat, page: seq<Byte>, q: nat)
    requires Whole(cs) && StoredPage(dev, dev', cs, accepts, p, page, ClustersPerPage(cs)) && q != p
    ensures SamePage(dev, dev', cs, q)
  {
    if q < p {
      PagesApart(cs, q, p);
    } else {
      PagesApart(cs, p, q);
    }
  }

  // ---------------------------------------------------------------- what the device then holds

  ghost predicate PageHasData(dev: Device, cs: nat, p: nat)
    requires Whole(cs)
  {
    forall k :: FirstCluster(cs, p) <= k < FirstCluster(cs, p) + ClustersPerPage(cs) ==> dev(k).Data?
  }

  ghost predicate PieceStored(dev: Device, cs: nat, p: nat, page: seq<Byte>, i: nat)
    requires Whole(cs)
  {
    dev(FirstCluster(cs, p) + i) == Data(Piece(page, cs, i))
  }

  lemma {:induction false} NoStop(dev: Device, c: nat, n: nat)
    requires forall k :: c <= k < c + n ==> dev(k).Data?
    ensures Stop(dev, c, n) == n
    decreases n
  {
    if n > 0 {
      NoStop(dev, c + 1, n - 1);
    }
  }

  lemma DataPageByte(dev: Device, cs: nat, p: nat, o: nat)
    requires Whole(cs) && WellSized(dev, cs) && PageHasData(dev, cs, p) && o < PAGE
    ensures PageStatus(dev, cs, p) == Success && DeviceByte(dev, cs, p, o) == ClusterByte(dev, cs, FirstCluster(cs, p), o)
  {
    hide FirstCluster, ClustersPerPage, WellSized, ClusterByte;
    WholeHasClusters(cs);
    NoStop(dev, FirstCluster(cs, p), ClustersPerPage(cs));
  }

  /** A page the device has all clusters of agrees with a buffer exactly when every piece does. */
  lemma AgreesByPieces(dev: Device, cs: nat, p: nat, page: seq<Byte>)
    requires Whole(cs) && WellSized(dev, cs) && PageHasData(dev, cs, p) && |page| == PAGE
    ensures Agrees(dev, cs, p, page) <==> forall i: nat :: i < ClustersPerPage(cs) ==> PieceStored(dev, cs, p, page, i)
  {
    hide DeviceByte, PageStatus;
    if Agrees(dev, cs, p, page) {
      forall i: nat | i < ClustersPerPage(cs)
        ensures PieceStored(dev, cs, p, page, i)
      {
        AgreedPiece(dev, cs, p, page, i);
      }
    }
    if forall i: nat :: i < ClustersPerPage(cs) ==> PieceStored(dev, cs, p, page, i) {
      forall o: nat | o < PAGE
        ensures DeviceByte(dev, cs, p, o) == Known(page[o])
      {
        StoredByte(dev, cs, p, page, o);
      }
    }
  }

  lemma AgreedPiece(dev: Device, cs: nat, p: nat, page: seq<Byte>, i: nat)
    requires Whole(cs) && WellSized(dev, cs) && PageHasData(dev, cs, p) && |page| == PAGE
    requires Agrees(dev, cs, p, page) && i < ClustersPerPage(cs)
    ensures PieceStored(dev, cs, p, page, i)
  {
    hide DeviceByte, PageStatus, FirstCluster;
    PieceFits(page, cs, i);
    var f := dev(FirstCluster(cs, p) + i);
    forall j | 0 <= j < cs
      ensures f.bytes[j] == Piece(page, cs, i)[j]
    {
      var o := i * cs + j;
      ClusterOf(o, cs, i);
      DataPageByte(dev, cs, p, o);
      assert DeviceByte(dev, cs, p, o) == Known(page[o]);
    }
  }

  lemma StoredByte(dev: Device, cs: nat, p: nat, page: seq<Byte>, o: nat)
    requires Whole(cs) && WellSized(dev, cs) && PageHasData(dev, cs, p) && |page| == PAGE && o < PAGE
    requires forall i: nat :: i < ClustersPerPage(cs) ==> PieceStored(dev, cs, p, page, i)
    ensures DeviceByte(dev, cs, p, o) == Known(page[o])
  {
    hide DeviceByte, PageStatus, FirstCluster, ClustersPerPage, Whole, Piece;
    WholeHasClusters(cs);
    InPage(cs, o);
    DataPageByte(dev, cs, p, o);
    PieceByte(page, cs, o);
    assert PieceStored(dev, cs, p, page, o / cs);
  }

  lemma InPage(cs: nat, o: nat)
    requires Whole(cs) && o < PAGE
    ensures o / cs < ClustersPerPage(cs)
  {
    hide ClustersPerPage;
    InCluster(o, cs, ClustersPerPage(cs));
  }

  lemma PieceByte(page: seq<Byte>, cs: nat, o: nat)
    requires Whole(cs) && |page| == PAGE && o < PAGE
    ensures |Piece(page, cs, o / cs)| == cs > o % cs && Piece(page, cs, o / cs)[o % cs] == page[o]
  {
    hide ClustersPerPage;
    InPage(cs, o);
    PieceFits(page, cs, o / cs);
    hide Whole;
    DivisionRest(o, cs);
  }

  lemma DivisionRest(o: nat, cs: nat)
    requires cs > 0
    ensures o == o / cs * cs + o % cs && o % cs < cs
  {
  }

  /** A page whose clusters all accepted the write is on the device byte for byte. */
  lemma AllStoredAgrees(dev: Device, dev': Device, cs: nat, accepts: nat -> bool, p: nat, page: seq<Byte>)
    requires Whole(cs) && WellSized(dev', cs) && |page| == PAGE && AllAccepted(cs, accepts, p)
    requires StoredPage(dev, dev', cs, accepts, p, page, ClustersPerPage(cs))
    ensures Agrees(dev', cs, p, page) && PageHasData(dev', cs, p)
  {
    hide Agrees, FirstCluster, WellSized;
    forall i: nat | i < ClustersPerPage(cs)
      ensures PieceStored(dev', cs, p, page, i)
    {
    }
    AgreesByPieces(dev', cs, p, page);
  }

  /** Exactly when the write of a page is faithful: every refused cluster already held its piece.  A
      refused cluster before the last one is not reported (PageAccepted looks at the last alone). */
  lemma StoredAgreesExactly(dev: Device, dev': Device, cs: nat, accepts: nat -> bool, p: nat, page: seq<Byte>)
    requires Whole(cs) && WellSized(dev', cs) && |page| == PAGE && PageHasData(dev, cs, p)
    requires StoredPage(dev, dev', cs, accepts, p, page, ClustersPerPage(cs))
    ensures Agrees(dev', cs, p, page) <==>
      forall i: nat :: i < ClustersPerPage(cs) ==> accepts(FirstCluster(cs, p) + i) || PieceStored(dev, cs, p, page, i)
  {
    hide Agrees, FirstCluster, WellSized;
    forall i: nat | i < ClustersPerPage(cs)
      ensures PieceStored(dev', cs, p, page, i) <==> accepts(FirstCluster(cs, p) + i) || PieceStored(dev, cs, p, page, i)
    {
    }
    AgreesByPieces(dev', cs, p, page);
  }

  // ---------------------------------------------------------------- agreement of cache and device

  /** Every cached page not marked modified agrees with the device. */
  ghost predicate Clean(pages: Pages, dev: Device, cs: nat, modified: set<nat>)
    requires Whole(cs) && WellSized(dev, cs)
  {
    forall p :: p in pages && p !in modified ==> Agrees(dev, cs, p, pages[p])
  }

  /** A write the driver refuses for the first of the two clusters of a page, which held zeros: success is
      reported, and the device does not hold the page. */
  lemma RefusalGoesUnnoticed()
    ensures var cs, zeros, ones := 2048, seq(2048, _ => 0 as Byte), seq(2048, _ => 1 as Byte);
      var dev: Device := (n: nat) => Data(zeros);
      var dev': Device := (n: nat) => if n == 1 then Data(ones) else Data(zeros);
      var accepts := (n: nat) => n != 0;
      && Whole(cs) && WellSized(dev, cs) && WellSized(dev', cs)
      && StoredPage(dev, dev', cs, accepts, 0, ones + ones, ClustersPerPage(cs))
      && PageAccepted(cs, true, accepts, 0) && !Agrees(dev', cs, 0, ones + ones)
  {
    var cs, zeros, ones := 2048, seq(2048, _ => 0 as Byte), seq(2048, _ => 1 as Byte);
    var dev: Device := (n: nat) => Data(zeros);
    var dev': Device := (n: nat) => if n == 1 then Data(ones) else Data(zeros);
    var accepts := (n: nat) => n != 0;
    var page := ones + ones;
    assert ClustersPerPage(cs) == 2;
    assert page[0..2048] == ones && page[2048..4096] == ones;
    StoredAgreesExactly(dev, dev', cs, accepts, 0, page);
    assert Piece(page, cs, 0)[0] == 1 && zeros[0] == 0;
    assert !PieceStored(dev, cs, 0, page, 0);
  }

  /** Reading keeps the cache clean. */
  lemma FilledClean(pages: Pages, pages': Pages, dev: Device, cs: nat, first: nat, last: nat, modified: set<nat>)
    requires Sane(pages, dev, cs) && Filled(pages, pages', dev, cs, first, last) && Clean(pages, dev, cs, modified)
    ensures Clean(pages', dev, cs, modified)
  {
    hide Agrees, PageStatus;
  }

  /** The write of one marked page, none of whose clusters refuses it, keeps the cache clean. */
  lemma StoredClean(pages: Pages, dev: Device, dev': Device, cs: nat, accepts: nat -> bool, p: nat, modified: set<nat>)
    requires Sane(pages, dev, cs) && WellSized(dev', cs) && p in pages
    requires StoredPage(dev, dev', cs, accepts, p, pages[p], ClustersPerPage(cs))
    requires Clean(pages, dev, cs, modified)
    ensures AllAccepted(cs, accepts, p) ==> Clean(pages, dev', cs, modified - {p})
    ensures Clean(pages, dev', cs, modified + {p})
  {
    hide Agrees, AllAccepted, StoredPage, Whole, WellSized;
    if AllAccepted(cs, accepts, p) {
      AllStoredAgrees(dev, dev', cs, accepts, p, pages[p]);
    }
    forall q | q in pages && q != p && q !in modified
      ensures Agrees(dev', cs, q, pages[q])
    {
      StoredElsewhere(dev, dev', cs, accepts, p, pages[p], q);
      SameAgrees(dev, dev', cs, q, pages[q]);
    }
  }

  lemma SameAgrees(dev: Device, dev': Device, cs: nat, p: nat, page: seq<Byte>)
    requires Whole(cs) && WellSized(dev, cs) && WellSized(dev', cs) && SamePage(dev, dev', cs, p)
    ensures Agrees(dev', cs, p, page) == Agrees(dev, cs, p, page)
  {
    hide DeviceByte, SamePage;
    forall o: nat | o < PAGE
      ensures DeviceByte(dev', cs, p, o) == DeviceByte(dev, cs, p, o)
    {
      SamePageBytes(dev, dev', cs, p, o);
    }
  }

  /** No page of the set reports success with a refused cluster in it. */
  ghost predicate Honest(cs: nat, canWrite: bool, accepts: nat -> bool, modified: set<nat>)
    requires Whole(cs)
  {
    forall p :: p in modified && PageAccepted(cs, canWrite, accepts, p) ==> AllAccepted(cs, accepts, p)
  }

  /** Writing pages back and evicting them: marks only go away, pages stay as they are or go, the device
      changes at marked pages only; unless a write is reported falsely, a clean cache stays clean and the
      device has what was evicted. */
  ghost predicate Flushed(cs: nat, canWrite: bool, accepts: nat -> bool, pages: Pages, dev: Device, modified: set<nat>,
                          pages': Pages, dev': Device, modified': set<nat>)
    requires Whole(cs) && WellSized(dev, cs) && WellSized(dev', cs)
  {
    && modified' <= modified
    && (forall p :: p in pages' ==> p in pages && pages'[p] == pages[p])
    && (forall q :: q !in modified ==> SamePage(dev, dev', cs, q))
    && (Clean(pages, dev, cs, modified) && Honest(cs, canWrite, accepts, modified) ==>
         && Clean(pages', dev', cs, modified')
         && (forall p :: p in pages && p !in pages' ==> p !in modified' && Agrees(dev', cs, p, pages[p])))
  }

  lemma FlushedNot(cs: nat, canWrite: bool, accepts: nat -> bool, pages: Pages, dev: Device, modified: set<nat>)
    requires Whole(cs) && WellSized(dev, cs)
    ensures Flushed(cs, canWrite, accepts, pages, dev, modified, pages, dev, modified)
  {
  }

  lemma FlushedTwice(cs: nat, canWrite: bool, accepts: nat -> bool, p0: Pages, d0: Device, m0: set<nat>,
                     p1: Pages, d1: Device, m1: set<nat>, p2: Pages, d2: Device, m2: set<nat>)
    requires Whole(cs) && WellSized(d0, cs) && WellSized(d1, cs) && WellSized(d2, cs)
    requires Flushed(cs, canWrite, accepts, p0, d0, m0, p1, d1, m1)
    requires Flushed(cs, canWrite, accepts, p1, d1, m1, p2, d2, m2)
    ensures Flushed(cs, canWrite, accepts, p0, d0, m0, p2, d2, m2)
  {
    hide Clean, PageAccepted, AllAccepted, Agrees;
    forall q | q !in m0
      ensures SamePage(d0, d2, cs, q)
    {
      assert SamePage(d0, d1, cs, q) && SamePage(d1, d2, cs, q);
    }
    forall p | p in p0 && p !in p1 && p !in m1
      ensures Agrees(d2, cs, p, p0[p]) == Agrees(d1, cs, p, p0[p])
    {
      SameAgrees(d1, d2, cs, p, p0[p]);
    }
  }

  lemma FlushedAway(cs: nat, canWrite: bool, accepts: nat -> bool, pages: Pages, dev: Device, modified: set<nat>, p: nat)
    requires Whole(cs) && WellSized(dev, cs) && p !in modified
    ensures Flushed(cs, canWrite, accepts, pages, dev, modified, pages - {p}, dev, modified)
  {
  }

  lemma FlushedPage(pages: Pages, dev: Device, dev': Device, cs: nat, canWrite: bool, accepts: nat -> bool, p: nat,
                    modified: set<nat>, modified': set<nat>)
    requires Sane(pages, dev, cs) && WellSized(dev', cs) && p in pages && p in modified
    requires StoredPage(dev, dev', cs, accepts, p, pages[p], if canWrite then ClustersPerPage(cs) else 0)
    requires modified' == modified - if PageAccepted(cs, canWrite, accepts, p) then {p} else {}
    ensures Flushed(cs, canWrite, accepts, pages, dev, modified, pages, dev', modified')
  {
    hide Agrees, AllAccepted, Whole, WellSized;
    if canWrite {
      forall q | q != p
        ensures SamePage(dev, dev', cs, q)
      {
        StoredElsewhere(dev, dev', cs, accepts, p, pages[p], q);
      }
      if Clean(pages, dev, cs, modified) {
        StoredClean(pages, dev, dev', cs, accepts, p, modified);
        assert modified + {p} == modified;
      }
    } else {
      forall q | q in pages && q !in modified'
        ensures Clean(pages, dev, cs, modified) ==> Agrees(dev', cs, q, pages[q])
      {
        SameAgrees(dev, dev', cs, q, pages[q]);
      }
    }
  }

  // ---------------------------------------------------------------- writing into the cache

  /** Byte o of page p before the write. */
  function Was(pages: Pages, dev: Device, cs: nat, p: nat, o: nat): Content
    requires Sane(pages, dev, cs) && o < PAGE
  {
    if p in pages then Known(pages[p][o]) else DeviceByte(dev, cs, p, o)
  }

  ghost predicate ByteWritten(pages: Pages, dev: Device, cs: nat, at: nat, src: seq<Byte>, pos: nat, n: nat,
                              p: nat, o: nat, b: Byte)
    requires Sane(pages, dev, cs) && o < PAGE && pos + n <= |src|
  {
    if at <= p * PAGE + o < at + n then b == src[pos + (p * PAGE + o - at)] else Lands(Was(pages, dev, cs, p, o), b, b)
  }

  /** n bytes were stored from `at` on: every page that is cached now shows them, and what it held before
      elsewhere; pages may have been added, up to page last.  A page that is not cached got nothing. */
  ghost predicate WrittenTo(pages: Pages, pages': Pages, dev: Device, cs: nat, at: nat, src: seq<Byte>, pos: nat, n: nat, last: nat)
    requires Sane(pages, dev, cs)
  {
    && Paged(pages') && pos + n <= |src|
    && (forall p :: p in pages ==> p in pages')
    && (forall p :: p in pages' && p !in pages ==> at / PAGE <= p <= last && PageStatus(dev, cs, p).Ok())
    && (forall p, o {:trigger pages'[p][o]} :: p in pages' && 0 <= o < PAGE ==>
         ByteWritten(pages, dev, cs, at, src, pos, n, p, o, pages'[p][o]))
  }

  lemma WrittenGrows(p0: Pages, p1: Pages, dev: Device, cs: nat, at: nat, src: seq<Byte>, pos: nat, n: nat, last: nat)
    requires Sane(p0, dev, cs) && WrittenTo(p0, p1, dev, cs, at, src, pos, n, last)
    ensures forall p :: p in p0 ==> p in p1
  {
  }

  lemma WroteIsWritten(pages: Pages, pages': Pages, dev: Device, cs: nat, at: nat, src: seq<Byte>, pos: nat, n: nat, last: nat)
    requires Sane(pages, dev, cs) && Wrote(pages, pages', at, src, pos, n)
    ensures WrittenTo(pages, pages', dev, cs, at, src, pos, n, last)
  {
    hide Whole, WellSized, DeviceByte, PageStatus;
    forall p, o {:trigger pages'[p][o]} | p in pages' && 0 <= o < PAGE
      ensures ByteWritten(pages, dev, cs, at, src, pos, n, p, o, pages'[p][o])
    {
      assert p in pages;
    }
  }

  lemma WrittenTwice(p0: Pages, p1: Pages, p2: Pages, dev: Device, cs: nat, at: nat, src: seq<Byte>, pos: nat,
                     n: nat, n': nat, mid: nat, last: nat)
    requires Sane(p0, dev, cs) && Sane(p1, dev, cs) && mid <= last && (n == 0 || (at + n) % PAGE == 0)
    requires WrittenTo(p0, p1, dev, cs, at, src, pos, n, mid)
    requires WrittenTo(p1, p2, dev, cs, at + n, src, pos + n, n', last)
    ensures WrittenTo(p0, p2, dev, cs, at, src, pos, n + n', last)
  {
    hide Whole, WellSized, DeviceByte, PageStatus;
    forall p, o {:trigger p2[p][o]} | p in p2 && 0 <= o < PAGE
      ensures ByteWritten(p0, dev, cs, at, src, pos, n + n', p, o, p2[p][o])
    {
      assert ByteWritten(p1, dev, cs, at + n, src, pos + n, n', p, o, p2[p][o]);
      if p in p1 {
        assert ByteWritten(p0, dev, cs, at, src, pos, n, p, o, p1[p][o]);
      }
    }
  }

  /** A page read from the device, overlaid with n bytes and added to the cache. */
  lemma AddedIsWritten(pages: Pages, dev: Device, cs: nat, p: nat, o: nat, src: seq<Byte>, pos: nat, n: nat,
                       temp: seq<Byte>, page: seq<Byte>)
    requires Sane(pages, dev, cs) && p !in pages && PageStatus(dev, cs, p).Ok() && Agrees(dev, cs, p, temp)
    requires o < PAGE && o + n <= PAGE && pos + n <= |src| && |page| == PAGE
    requires forall k :: 0 <= k < PAGE ==> page[k] == if o <= k < o + n then src[pos..pos + n][k - o] else temp[k]
    ensures WrittenTo(pages, pages[p := page], dev, cs, p * PAGE + o, src, pos, n, p)
  {
    hide Whole, WellSized, DeviceByte, PageStatus;
    var pages' := pages[p := page];
    forall q, k {:trigger pages'[q][k]} | q in pages' && 0 <= k < PAGE
      ensures ByteWritten(pages, dev, cs, p * PAGE + o, src, pos, n, q, k, pages'[q][k])
    {
      if q == p && !(o <= k < o + n) {
        assert DeviceByte(dev, cs, p, k).Known? ==> DeviceByte(dev, cs, p, k) == Known(temp[k]);
      }
    }
  }

  lemma NotAddedIsWritten(pages: Pages, dev: Device, cs: nat, p: nat, o: nat, src: seq<Byte>, pos: nat, n: nat)
    requires Sane(pages, dev, cs) && p !in pages && o < PAGE && o + n <= PAGE && pos + n <= |src|
    ensures WrittenTo(pages, pages, dev, cs, p * PAGE + o, src, pos, n, p)
  {
  }

  /** What a write from the missing page pn on does: the bytes, the mark, the status of the last page, the
      count. */
  ghost predicate WroteFrom(p0: Pages, m0: set<nat>, p1: Pages, m1: set<nat>, dev: Device, cs: nat, pn: nat, po: nat, src: seq<Byte>,
                            pos: nat, size: nat, done0: nat, status: Status, done: nat)
    requires Sane(p0, dev, cs) && po < PAGE
  {
    var at := pn * PAGE + po;
    var last := LastPage(at, size);
    && WrittenTo(p0, p1, dev, cs, at, src, pos, size, last) && m1 == WithMark(m0, p0, at, size)
    && status == (if last != pn && last in p0 then Success else PageStatus(dev, cs, last))
    && (size <= PAGE - po ==> done == done0 + if status.Ok() then size else 0)
    && (size > PAGE - po ==>
         done <= size - (PAGE - po) && done == Counted(p0, (pn + 1) * PAGE, size - (PAGE - po), status.Ok()))
  }

  /** What storing bytes at `at` on does, from the cache as far as the pages are there: the bytes, the mark, the
      status and the count, whether a page was missing, and with plenty of memory which pages are kept. */
  ghost predicate WroteOn(p0: Pages, m0: set<nat>, p1: Pages, m1: set<nat>, dev: Device, cs: nat, at: nat, src: seq<Byte>, pos: nat,
                          size: nat, status: Status, done: nat, missed: bool, plenty: bool)
    requires Sane(p0, dev, cs)
  {
    var last := LastPage(at, size);
    && m1 == WithMark(m0, p0, at, size) && WrittenTo(p0, p1, dev, cs, at, src, pos, size, last)
    && Reports(p0, dev, cs, at, size, status, done)
    && (missed <==> !AllCached(p0, at / PAGE, last + 1))
    && (plenty ==> Kept(p0, p1, dev, cs, at / PAGE, last))
  }

  /** All pages were cached. */
  lemma WroteFound(p0: Pages, m0: set<nat>, p1: Pages, m1: set<nat>, dev: Device, cs: nat, at: nat, src: seq<Byte>, pos: nat, size: nat,
                   pn: nat, plenty: bool)
    requires Sane(p0, dev, cs) && Wrote(p0, p1, at, src, pos, size) && m1 == WithMark(m0, p0, at, size)
    requires AllCached(p0, at / PAGE, pn) && pn in p0 && pn == LastPage(at, size)
    ensures WroteOn(p0, m0, p1, m1, dev, cs, at, src, pos, size, Success, size, false, plenty)
  {
    hide WrittenTo, PageStatus, LastPage, Whole, WellSized, Paged, Reports, WithMark, Kept;
    WroteIsWritten(p0, p1, dev, cs, at, src, pos, size, LastPage(at, size));
    ReportsFound(p0, dev, cs, at, size);
    WrittenGrows(p0, p1, dev, cs, at, src, pos, size, LastPage(at, size));
    KeptFrom(p0, p0, p1, dev, cs, at / PAGE, pn + 1, LastPage(at, size));
  }

  /** Bytes stored in cached pages, then from the first missing page pn' on. */
  lemma WroteMissed(p0: Pages, m0: set<nat>, p1: Pages, p2: Pages, m2: set<nat>, dev: Device, cs: nat, at: nat, size: nat, pn: nat,
                    pn': nat, po': nat, rest: nat, src: seq<Byte>, pos: nat, status: Status, done: nat, plenty: bool)
    requires Sane(p0, dev, cs) && pn == at / PAGE && pn <= pn' && AllCached(p0, pn, pn') && pn' !in p0 && po' < PAGE
    requires rest <= size && pn' * PAGE + po' == at + (size - rest) && (rest < size ==> rest > 0 && po' == 0)
    requires Wrote(p0, p1, at, src, pos, size - rest) && Sane(p1, dev, cs)
    requires WroteFrom(p1, m0, p2, m2, dev, cs, pn', po', src, pos + (size - rest), rest, size - rest, status, done)
    requires plenty ==> Kept(p1, p2, dev, cs, pn', LastPage(pn' * PAGE + po', rest))
    ensures WroteOn(p0, m0, p2, m2, dev, cs, at, src, pos, size, status, done, true, plenty)
  {
    hide WrittenTo, PageStatus, LastPage, Whole, WellSized, Paged, Reports, Kept, AllCached, Marked, Counted, Wrote;
    WriteJoined(p0, p1, p2, dev, cs, at, size, pn, pn', po', rest, src, pos, status, done);
    SameMark(m0, p1, pn' * PAGE + po', rest, p0, at, size);
    LastPageSame(at, size, rest);
    WrittenGrows(p0, p2, dev, cs, at, src, pos, size, LastPage(at, size));
    WroteKeys(p0, p1, at, src, pos, size - rest);
    if plenty {
      KeptFrom(p0, p1, p2, dev, cs, pn, pn', LastPage(at, size));
    }
  }

  lemma WroteKeys(p0: Pages, p1: Pages, at: nat, src: seq<Byte>, pos: nat, n: nat)
    requires Paged(p0) && Wrote(p0, p1, at, src, pos, n)
    ensures forall p :: p in p1 <==> p in p0
  {
  }

  /** Bytes of a single page, which is missing, are stored as far as the page can be read; otherwise nothing
      happens to the cache. */
  lemma OneMissingWrite(p0: Pages, p1: Pages, dev: Device, cs: nat, at: nat, src: seq<Byte>, pos: nat, size: nat,
                        status: Status, done: nat)
    requires Sane(p0, dev, cs) && OneMissing(p0, at, size)
    requires WrittenTo(p0, p1, dev, cs, at, src, pos, size, LastPage(at, size)) && Reports(p0, dev, cs, at, size, status, done)
    ensures LastPage(at, size) == at / PAGE && !AllCached(p0, at / PAGE, LastPage(at, size) + 1)
    ensures PageEnds(dev, cs, at / PAGE, status) && (status.Ok() ==> done == size)
    ensures !status.Ok() ==> done == 0 && p1 == p0
  {
    hide PageStatus, Whole, WellSized, PageEnds, DeviceByte;
    var p := at / PAGE;
    LastPageReached(at, size, p, at % PAGE, size);
    StopIsEnd(dev, cs, p);
    if !status.Ok() {
      forall q | q in p1
        ensures q in p0 && p1[q] == p0[q]
      {
        forall o | 0 <= o < PAGE
          ensures p1[q][o] == p0[q][o]
        {
          assert ByteWritten(p0, dev, cs, at, src, pos, size, q, o, p1[q][o]);
        }
      }
    }
  }

  lemma WroteOne(p0: Pages, m: set<nat>, p1: Pages, dev: Device, cs: nat, pn: nat, po: nat, src: seq<Byte>, pos: nat, size: nat,
                 done0: nat, status: Status, done: nat)
    requires Sane(p0, dev, cs) && po < PAGE && size <= PAGE - po && pn !in p0
    requires WrittenTo(p0, p1, dev, cs, pn * PAGE + po, src, pos, size, pn)
    requires status == PageStatus(dev, cs, pn) && done == done0 + if status.Ok() then size else 0
    ensures WroteFrom(p0, m, p1, m, dev, cs, pn, po, src, pos, size, done0, status, done)
  {
    hide WrittenTo, PageStatus, LastPage, Whole, WellSized, Paged, WithMark;
    LastPageReached(pn * PAGE + po, size, pn, po, size);
    NotMarked(m, p0, pn * PAGE + po, size);
  }

  lemma WroteBehind(p0: Pages, p1: Pages, m: set<nat>, p2: Pages, m2: set<nat>, dev: Device, cs: nat, pn: nat, po: nat, src: seq<Byte>,
                    pos: nat, size: nat, done0: nat, status: Status, done: nat, missed: bool, plenty: bool)
    requires Sane(p0, dev, cs) && Sane(p1, dev, cs) && po < PAGE && size > PAGE - po && pn !in p0
    requires WrittenTo(p0, p1, dev, cs, pn * PAGE + po, src, pos, PAGE - po, pn)
    requires forall p :: p != pn ==> (p in p0 <==> p in p1)
    requires WroteOn(p1, m, p2, m2, dev, cs, (pn + 1) * PAGE + 0, src, pos + (PAGE - po), size - (PAGE - po), status, done, missed, plenty)
    ensures WroteFrom(p0, m, p2, m2, dev, cs, pn, po, src, pos, size, done0, status, done)
    ensures plenty && Kept(p0, p1, dev, cs, pn, pn) ==> Kept(p0, p2, dev, cs, pn, LastPage(pn * PAGE + po, size))
  {
    hide WrittenTo, PageStatus, LastPage, Whole, WellSized, Paged, WithMark, Marked, Reports, Counted, Kept, AllCached;
    var at, n := pn * PAGE + po, PAGE - po;
    assert at + n == (pn + 1) * PAGE + 0;
    ReportsCount(p1, dev, cs, at + n, size - n, status, done);
    CountedAlike(p1, p0, pn, size - n, status.Ok());
    WriteBehind(p0, p1, p2, pn, dev, cs, at, size, src, pos, n, status, done);
    SameMark(m, p1, at + n, size - n, p0, at, size);
    if plenty && Kept(p0, p1, dev, cs, pn, pn) {
      KeptOn(p0, p1, p2, dev, cs, pn, po, src, pos, size);
    }
  }

  /** Pages kept: the first one, then those behind it. */
  lemma KeptOn(p0: Pages, p1: Pages, p2: Pages, dev: Device, cs: nat, pn: nat, po: nat, src: seq<Byte>, pos: nat, size: nat)
    requires Sane(p0, dev, cs) && Sane(p1, dev, cs) && po < PAGE && size > PAGE - po
    requires WrittenTo(p0, p1, dev, cs, pn * PAGE + po, src, pos, PAGE - po, pn)
    requires var (at, n) := ((pn + 1) * PAGE + 0, size - (PAGE - po));
      && WrittenTo(p1, p2, dev, cs, at, src, pos + (PAGE - po), n, LastPage(at, n))
      && Kept(p0, p1, dev, cs, pn, pn) && Kept(p1, p2, dev, cs, pn + 1, LastPage(at, n))
    ensures Kept(p0, p2, dev, cs, pn, LastPage(pn * PAGE + po, size))
  {
    hide WrittenTo, PageStatus, LastPage, Whole, WellSized, Paged, Kept;
    var at, n := pn * PAGE + po, PAGE - po;
    assert at + n == (pn + 1) * PAGE + 0;
    LastPageSame(at, size, size - n);
    WrittenGrows(p0, p1, dev, cs, at, src, pos, n, pn);
    WrittenGrows(p1, p2, dev, cs, at + n, src, pos + n, size - n, LastPage(at + n, size - n));
    KeptTwice(p0, p1, p2, dev, cs, pn, pn, LastPage(at, size));
  }

  /** Bytes stored in cached pages, then bytes stored from the first missing page pn' on. */
  lemma WriteJoined(p0: Pages, p1: Pages, p2: Pages, dev: Device, cs: nat, at: nat, size: nat, pn: nat, pn': nat, po': nat,
                    rest: nat, src: seq<Byte>, pos: nat, status: Status, done: nat)
    requires Sane(p0, dev, cs) && pn == at / PAGE && pn <= pn' && AllCached(p0, pn, pn') && pn' !in p0 && po' < PAGE
    requires rest <= size && pn' * PAGE + po' == at + (size - rest) && (rest < size ==> rest > 0 && po' == 0)
    requires Wrote(p0, p1, at, src, pos, size - rest)
    requires Sane(p1, dev, cs) && WrittenTo(p1, p2, dev, cs, pn' * PAGE + po', src, pos + (size - rest), rest,
                                            LastPage(pn' * PAGE + po', rest))
    requires var last := LastPage(pn' * PAGE + po', rest);
      status == if last != pn' && last in p1 then Success else PageStatus(dev, cs, last)
    requires rest <= PAGE - po' ==> done == (size - rest) + if status.Ok() then rest else 0
    requires rest > PAGE - po' ==>
      done <= rest - (PAGE - po') && done == Counted(p1, (pn' + 1) * PAGE, rest - (PAGE - po'), status.Ok())
    ensures WrittenTo(p0, p2, dev, cs, at, src, pos, size, LastPage(at, size))
    ensures Reports(p0, dev, cs, at, size, status, done) && !AllCached(p0, pn, LastPage(at, size) + 1)
    ensures Marked(p1, pn' * PAGE + po', rest) == Marked(p0, at, size)
  {
    hide WrittenTo, PageStatus, LastPage, Whole, WellSized, Reports, AllCached, Counted;
    LastPageSame(at, size, rest);
    var last := LastPage(at, size);
    LastPageReached(at, size, pn', po', rest);
    WroteIsWritten(p0, p1, dev, cs, at, src, pos, size - rest, pn');
    WrittenTwice(p0, p1, p2, dev, cs, at, src, pos, size - rest, rest, pn', last);
    assert last in p1 <==> last in p0;
    if rest > PAGE - po' {
      CountedAlike(p1, p0, pn', rest - (PAGE - po'), status.Ok());
    }
    ReportsMissed(p0, dev, cs, at, size, pn', po', rest, status, done);
  }

  /** The page a write marks modified: the last one, if it was cached before. */
  ghost function Marked(pages: Pages, at: nat, size: nat): set<nat> {
    if LastPage(at, size) in pages then {LastPage(at, size)} else {}
  }

  /** The pages marked once a write has marked what it marks. */
  ghost function WithMark(modified: set<nat>, pages: Pages, at: nat, size: nat): set<nat> {
    modified + Marked(pages, at, size)
  }

  lemma NotMarked(modified: set<nat>, pages: Pages, at: nat, size: nat)
    requires LastPage(at, size) !in pages
    ensures WithMark(modified, pages, at, size) == modified
  {
  }

  lemma SameMark(modified: set<nat>, p: Pages, at: nat, size: nat, q: Pages, at': nat, size': nat)
    requires Marked(p, at, size) == Marked(q, at', size')
    ensures WithMark(modified, p, at, size) == WithMark(modified, q, at', size')
  {
  }

  lemma MovedOut(pages: Pages, pages': Pages, dev: Device, cs: nat, at: nat, b: seq<Byte>, b': seq<Byte>, pos: nat, n: nat)
    requires Sane(pages, dev, cs) && Moved(true, pages, pages', dev, cs, at, b, b', pos, n)
    ensures b' == b && Wrote(pages, pages', at, b, pos, n) && pages'.Keys == pages.Keys
  {
  }

  /** The first page, then the pages behind it. */
  lemma WriteBehind(p0: Pages, p1: Pages, p2: Pages, pn: nat, dev: Device, cs: nat, at: nat, size: nat, src: seq<Byte>,
                    pos: nat, n: nat, status: Status, done: nat)
    requires Sane(p0, dev, cs) && Sane(p1, dev, cs) && n < size && at + n == (pn + 1) * PAGE && pn !in p0
    requires WrittenTo(p0, p1, dev, cs, at, src, pos, n, pn)
    requires forall p :: p != pn ==> (p in p0 <==> p in p1)
    requires WrittenTo(p1, p2, dev, cs, at + n, src, pos + n, size - n, LastPage(at + n, size - n))
    requires Reports(p1, dev, cs, at + n, size - n, status, done)
    ensures WrittenTo(p0, p2, dev, cs, at, src, pos, size, LastPage(at, size))
    ensures Marked(p1, at + n, size - n) == Marked(p0, at, size) && done <= size - n
    ensures var last := LastPage(at, size);
      last != pn && status == if last in p0 then Success else PageStatus(dev, cs, last)
  {
    hide WrittenTo, PageStatus, Whole, WellSized, Paged;
    LastPageReached(at + n, size - n, pn + 1, 0, size - n);
    LastPageSame(at, size, size - n);
    WrittenTwice(p0, p1, p2, dev, cs, at, src, pos, n, size - n, pn, LastPage(at, size));
  }
}
