/** What a cached file holds: pages kept in memory where there are any, the device underneath
    elsewhere (kernel/cc.cpp, kernel/inc/cc.h). */
module CacheContent {
  import opened Common

  const PAGE := 4096

  /** What the driver's read callback does for one cluster of the file. */
  datatype Fetch = Data(bytes: seq<Byte>) | EndOfFile | NoMedia | Failed

  type Device = nat -> Fetch

  datatype Status =
    | Success
    | StatusCached
    | NotFound
    | NoMediaInDevice
    | ReadFailed
    | WriteFailed
    | NotSupported
    | InsufficientResources
    | Unsuccessful
  {
    predicate Ok() { Success? || StatusCached? }
  }

  // ---------------------------------------------------------------- geometry

  /** CacheMap->ClustersPerPage, a UCHAR. */
  function ClustersPerPage(cs: nat): nat
    requires cs > 0
  {
    if cs < PAGE then (PAGE / cs) % 0x100 else 0
  }

  /** The clusters of a page fill it. */
  ghost predicate Whole(cs: nat) {
    cs > 0 && ClustersPerPage(cs) * cs == PAGE
  }

  lemma MulGrows(a: nat, b: nat, c: nat)
    requires a <= b
    ensures a * c <= b * c
  {
  }

  /** Of the cluster sizes CcInitializeFileCaching accepts, those between 17 and 4095 fill a page;
      smaller ones overflow the UCHAR, larger ones give no cluster per page. */
  lemma WholeExactly(cs: nat)
    requires cs > 0 && (cs < PAGE ==> PAGE % cs == 0)
    ensures Whole(cs) <==> 16 < cs < PAGE
  {
    if cs < PAGE {
      var q := PAGE / cs;
      assert q * cs == PAGE;
      if cs <= 16 {
        MulGrows(q % 0x100, 0xFF, cs);
      } else if q >= 0x100 {
        MulGrows(0x100, q, cs);
      }
    }
  }

  ghost predicate WellSized(dev: Device, cs: nat) {
    forall c: nat :: dev(c).Data? ==> |dev(c).bytes| == cs
  }

  lemma ClusterOf(o: nat, cs: nat, i: nat)
    requires cs > 0 && i * cs <= o < i * cs + cs
    ensures o / cs == i && o % cs == o - i * cs
  {
    var q: nat, r: nat := o / cs, o % cs;
    assert o == q * cs + r;
    if q < i {
      MulGrows(q + 1, i, cs);
    } else if q > i {
      MulGrows(i + 1, q, cs);
    }
  }

  // ---------------------------------------------------------------- reading a page

  /** How many of the n clusters from c on are read before the end of the file or a missing medium
      stops the loop. */
  function Stop(dev: Device, c: nat, n: nat): (k: nat)
    ensures k <= n
    ensures k < n ==> dev(c + k).EndOfFile? || dev(c + k).NoMedia?
    ensures forall j :: c <= j < c + k ==> !dev(j).EndOfFile? && !dev(j).NoMedia?
    decreases n
  {
    if n == 0 || dev(c).EndOfFile? || dev(c).NoMedia? then 0 else 1 + Stop(dev, c + 1, n - 1)
  }

  /** The number of the cluster page p starts with. */
  function FirstCluster(cs: nat, p: nat): nat
    requires cs > 0
  {
    p * ClustersPerPage(cs)
  }

  function FetchStatus(f: Fetch): Status {
    match f
    case Data(_) => Success
    case EndOfFile => Success
    case NoMedia => NoMediaInDevice
    case Failed => ReadFailed
  }

  /** The status of the cluster the loop ended on: failures of earlier clusters are forgotten. */
  function PageStatus(dev: Device, cs: nat, p: nat): Status
    requires Whole(cs)
  {
    var n := ClustersPerPage(cs);
    var k := Stop(dev, FirstCluster(cs, p), n);
    FetchStatus(dev(FirstCluster(cs, p) + if k < n then k else n - 1))
  }

  /** The loop over the PAGE / cs clusters of page p, which is cluster p * (PAGE / cs) of the file and those behind
      it, gets as far as the i-th of them: the ones before hold data or failed, and it is none of those. */
  ghost predicate EndsAt(dev: Device, cs: nat, p: nat, i: nat)
    requires cs > 0
  {
    && i <= PAGE / cs
    && (forall c: nat :: p * (PAGE / cs) <= c < p * (PAGE / cs) + i ==> dev(c).Data? || dev(c).Failed?)
    && (i < PAGE / cs ==> dev(p * (PAGE / cs) + i).EndOfFile? || dev(p * (PAGE / cs) + i).NoMedia?)
  }

  /** The end of the file makes a success of the page and a missing medium its status; a page without either has
      the status of its last cluster. */
  ghost predicate EndStatus(dev: Device, cs: nat, p: nat, i: nat, status: Status)
    requires cs > 0
  {
    if i < PAGE / cs then
      status == if dev(p * (PAGE / cs) + i).NoMedia? then NoMediaInDevice else Success
    else
      i > 0 && status == if dev(p * (PAGE / cs) + i - 1).Data? then Success else ReadFailed
  }

  /** The status is that of reading page p, by the clusters of the page. */
  ghost predicate PageEnds(dev: Device, cs: nat, p: nat, status: Status)
    requires cs > 0
  {
    exists i: nat :: EndsAt(dev, cs, p, i) && EndStatus(dev, cs, p, i, status)
  }

  /** Only one cluster is the one the loop ends at, so only one status can be that of the page. */
  lemma PageStatusIs(dev: Device, cs: nat, p: nat, i: nat)
    requires Whole(cs) && EndsAt(dev, cs, p, i)
    ensures EndStatus(dev, cs, p, i, PageStatus(dev, cs, p))
    ensures i == Stop(dev, FirstCluster(cs, p), ClustersPerPage(cs))
  {
    hide Stop;
    WholeIsExact(cs);
    var c, n := FirstCluster(cs, p), ClustersPerPage(cs);
    var k := Stop(dev, c, n);
    var atStop, atEnd, last := dev(c + k), dev(c + i), dev(c + n - 1);
    assert k == i;
  }

  lemma StopIsEnd(dev: Device, cs: nat, p: nat)
    requires Whole(cs)
    ensures PageEnds(dev, cs, p, PageStatus(dev, cs, p))
  {
    hide Stop, PageStatus, EndStatus;
    WholeIsExact(cs);
    var k := Stop(dev, FirstCluster(cs, p), ClustersPerPage(cs));
    forall c: nat | p * (PAGE / cs) <= c < p * (PAGE / cs) + k
      ensures dev(c).Data? || dev(c).Failed?
    {
      var f := dev(c);
      assert !f.EndOfFile? && !f.NoMedia?;
    }
    assert EndsAt(dev, cs, p, k);
    PageStatusIs(dev, cs, p, k);
  }

  lemma WholeIsExact(cs: nat)
    requires Whole(cs)
    ensures ClustersPerPage(cs) == PAGE / cs > 0
  {
    var n := ClustersPerPage(cs);
    assert n * cs == PAGE;
    DivideExactly(n, cs);
  }

  lemma FirstIs(cs: nat, p: nat)
    requires Whole(cs)
    ensures FirstCluster(cs, p) == p * (PAGE / cs)
  {
    WholeIsExact(cs);
  }

  lemma DivideExactly(n: nat, cs: nat)
    requires cs > 0
    ensures (n * cs) / cs == n
  {
    ClusterOf(n * cs, cs, n);
  }

  /** What a read makes of one byte of the file: its value, nothing that can be relied on (the page
      was accepted with that cluster not read), or the buffer left alone. */
  datatype Content = Known(b: Byte) | Stale | Unread

  /** Byte o of the clusters from c on. */
  function ClusterByte(dev: Device, cs: nat, c: nat, o: nat): Content
    requires cs > 0 && WellSized(dev, cs)
  {
    if dev(c + o / cs).Data? then Known(dev(c + o / cs).bytes[o % cs]) else Stale
  }

  function DeviceByte(dev: Device, cs: nat, p: nat, o: nat): Content
    requires Whole(cs) && WellSized(dev, cs) && o < PAGE
  {
    var n := ClustersPerPage(cs);
    if !PageStatus(dev, cs, p).Ok() then Unread
    else if o < Stop(dev, FirstCluster(cs, p), n) * cs then ClusterByte(dev, cs, FirstCluster(cs, p), o)
    else Stale
  }

  // ---------------------------------------------------------------- the file

  type Pages = map<nat, seq<Byte>>

  ghost predicate Paged(pages: Pages) {
    forall p :: p in pages ==> |pages[p]| == PAGE
  }

  ghost predicate Sane(pages: Pages, dev: Device, cs: nat) {
    Whole(cs) && WellSized(dev, cs) && Paged(pages)
  }

  /** The same pages are cached. */
  ghost predicate SameKeys(pages: Pages, pages': Pages) {
    forall p :: p in pages' <==> p in pages
  }

  lemma SameKeysTwice(p0: Pages, p1: Pages, p2: Pages)
    requires SameKeys(p0, p1) && SameKeys(p1, p2)
    ensures SameKeys(p0, p2) && forall p :: p in p1 <==> p in p2
  {
  }

  /** Byte k of the file: from the cached page if there is one, else from the device. */
  function ContentAt(pages: Pages, dev: Device, cs: nat, k: nat): Content
    requires Sane(pages, dev, cs)
  {
    var p, o := k / PAGE, k % PAGE;
    if p in pages then Known(pages[p][o]) else DeviceByte(dev, cs, p, o)
  }

  predicate Lands(c: Content, before: Byte, after: Byte) {
    match c
    case Known(b) => after == b
    case Unread => after == before
    case Stale => true
  }

  /** A buffer that held `before` and was given, from index pos on, n bytes of the file from `at` on. */
  ghost predicate Delivered(pages: Pages, dev: Device, cs: nat, at: nat, before: seq<Byte>, after: seq<Byte>, pos: nat, n: nat)
    requires Sane(pages, dev, cs)
  {
    && |before| == |after| && pos + n <= |after|
    && (forall k :: 0 <= k < |after| ==>
         if pos <= k < pos + n then Lands(ContentAt(pages, dev, cs, at + k - pos), before[k], after[k])
         else after[k] == before[k])
  }

  lemma DeliveredTwice(pages: Pages, dev: Device, cs: nat, at: nat, b0: seq<Byte>, b1: seq<Byte>, b2: seq<Byte>,
                       pos: nat, n: nat, n': nat)
    requires Sane(pages, dev, cs)
    requires Delivered(pages, dev, cs, at, b0, b1, pos, n) && Delivered(pages, dev, cs, at + n, b1, b2, pos + n, n')
    ensures Delivered(pages, dev, cs, at, b0, b2, pos, n + n')
  {
    forall k | 0 <= k < |b2|
      ensures if pos <= k < pos + n + n' then Lands(ContentAt(pages, dev, cs, at + k - pos), b0[k], b2[k])
              else b2[k] == b0[k]
    {
      assert pos + n <= k ==> b1[k] == b0[k];
      assert k < pos + n ==> b2[k] == b1[k];
    }
  }

  /** The cached pages after n bytes of src, from index pos on, were stored at `at`. */
  ghost predicate Wrote(pages: Pages, pages': Pages, at: nat, src: seq<Byte>, pos: nat, n: nat)
    requires Paged(pages)
  {
    && Paged(pages') && pages'.Keys == pages.Keys && pos + n <= |src|
    && (forall p, o {:trigger pages'[p][o]} :: p in pages && 0 <= o < PAGE ==>
         pages'[p][o] == if at <= p * PAGE + o < at + n then src[pos + p * PAGE + o - at] else pages[p][o])
  }

  lemma WroteTwice(p0: Pages, p1: Pages, p2: Pages, at: nat, src: seq<Byte>, pos: nat, n: nat, n': nat)
    requires Paged(p0) && Wrote(p0, p1, at, src, pos, n) && Wrote(p1, p2, at + n, src, pos + n, n')
    ensures Wrote(p0, p2, at, src, pos, n + n')
  {
    forall p, o {:trigger p2[p][o]} | p in p0 && 0 <= o < PAGE
      ensures p2[p][o] == if at <= p * PAGE + o < at + n + n' then src[pos + p * PAGE + o - at] else p0[p][o]
    {
      assert p in p1;
      var x := p1[p][o];
    }
  }

  /** n bytes went from the cached file to the buffer, or the other way. */
  ghost predicate Moved(write: bool, pages: Pages, pages': Pages, dev: Device, cs: nat, at: nat,
                        before: seq<Byte>, after: seq<Byte>, pos: nat, n: nat)
    requires Sane(pages, dev, cs)
  {
    if write then after == before && Wrote(pages, pages', at, after, pos, n)
    else pages' == pages && Delivered(pages, dev, cs, at, before, after, pos, n)
  }

  lemma MovedNothing(write: bool, pages: Pages, dev: Device, cs: nat, at: nat, b: seq<Byte>, pos: nat)
    requires Sane(pages, dev, cs) && pos <= |b|
    ensures Moved(write, pages, pages, dev, cs, at, b, b, pos, 0)
  {
  }

  lemma MovedTwice(write: bool, p0: Pages, p1: Pages, p2: Pages, dev: Device, cs: nat, at: nat,
                   b0: seq<Byte>, b1: seq<Byte>, b2: seq<Byte>, pos: nat, n: nat, n': nat)
    requires Sane(p0, dev, cs) && Moved(write, p0, p1, dev, cs, at, b0, b1, pos, n)
    requires Sane(p1, dev, cs) && Moved(write, p1, p2, dev, cs, at + n, b1, b2, pos + n, n')
    ensures Moved(write, p0, p2, dev, cs, at, b0, b2, pos, n + n')
  {
    hide Wrote, Delivered;
    if write {
      WroteTwice(p0, p1, p2, at, b0, pos, n, n');
    } else {
      DeliveredTwice(p0, dev, cs, at, b0, b1, b2, pos, n, n');
    }
  }

  /** The page a request ends in. */
  function LastPage(at: nat, size: nat): nat {
    if size == 0 then at / PAGE else (at + size - 1) / PAGE
  }

  lemma LastPageReached(at: nat, size: nat, pn: nat, po: nat, rest: nat)
    requires rest <= size && pn * PAGE + po == at + (size - rest) && po < PAGE
    requires rest < size ==> rest > 0
    ensures pn <= LastPage(at, size) && (rest <= PAGE - po ==> pn == LastPage(at, size))
    ensures rest > PAGE - po ==> LastPage(at, size) == LastPage((pn + 1) * PAGE, rest - (PAGE - po))
  {
  }

  /** Pages first up to last, last not included, are all cached. */
  ghost predicate AllCached(pages: Pages, first: nat, last: nat) {
    forall q :: first <= q < last ==> q in pages
  }

  function LastStatus(pages: Pages, dev: Device, cs: nat, last: nat): Status
    requires Whole(cs)
  {
    if last in pages then Success else PageStatus(dev, cs, last)
  }

  /** Where the count of a request that ends in page `last` starts: behind the last page before that one that was
      missing, since looking up the pages behind a missing one counts anew. */
  function CountsFrom(pages: Pages, at: nat, last: nat): (from: nat)
    ensures last > at / PAGE && last - 1 !in pages ==> from == last * PAGE
    ensures from == at <==> AllCached(pages, at / PAGE, last)
    ensures at <= from
    decreases last
  {
    if last <= at / PAGE then at
    else if last - 1 !in pages then last * PAGE
    else
      assert AllCached(pages, at / PAGE, last) <==> AllCached(pages, at / PAGE, last - 1);
      CountsFrom(pages, at, last - 1)
  }

  /** The count of bytes [at, at + size): up to their end if the last page is cached or could be read, else up to
      that page. */
  function Counted(pages: Pages, at: nat, size: nat, ok: bool): int {
    var last := LastPage(at, size);
    (if ok then at + size else if last * PAGE > at then last * PAGE else at) - CountsFrom(pages, at, last)
  }

  /** What a read reports for bytes [at, at + size) of the file: the status of the last page alone, and
      a byte count that is right exactly when only that page may have been missing and could be read. */
  ghost predicate Reports(pages: Pages, dev: Device, cs: nat, at: nat, size: nat, status: Status, done: nat)
    requires Whole(cs)
  {
    var first, last := at / PAGE, LastPage(at, size);
    && status == LastStatus(pages, dev, cs, last)
    && done <= size && done == Counted(pages, at, size, status.Ok())
    && (size > 0 ==> (done == size <==> AllCached(pages, first, last) && status.Ok()))
  }

  /** Page pn was missing: what counts is behind it. */
  lemma {:induction false} CountsBehind(pages: Pages, at: nat, pn: nat, last: nat)
    requires pn !in pages && at / PAGE <= pn < last
    ensures CountsFrom(pages, at, last) == CountsFrom(pages, (pn + 1) * PAGE, last)
    decreases last
  {
    if last > pn + 1 {
      CountsBehind(pages, at, pn, last - 1);
    }
  }

  lemma {:induction false} CountsAlike(p0: Pages, p1: Pages, at: nat, last: nat)
    requires forall p :: p * PAGE >= at ==> (p in p0 <==> p in p1)
    requires at % PAGE == 0
    ensures CountsFrom(p0, at, last) == CountsFrom(p1, at, last)
    decreases last
  {
    if last > at / PAGE {
      CountsAlike(p0, p1, at, last - 1);
      assert (last - 1) * PAGE >= at;
    }
  }

  /** Whether page pn is cached does not matter to what is counted behind it. */
  lemma CountedAlike(p0: Pages, p1: Pages, pn: nat, size: nat, ok: bool)
    requires forall p :: p != pn ==> (p in p0 <==> p in p1)
    ensures Counted(p0, (pn + 1) * PAGE, size, ok) == Counted(p1, (pn + 1) * PAGE, size, ok)
  {
    hide CountsFrom;
    CountsAlike(p0, p1, (pn + 1) * PAGE, LastPage((pn + 1) * PAGE, size));
  }

  /** What the rest of a report says of the count. */
  lemma ReportsCount(pages: Pages, dev: Device, cs: nat, at: nat, size: nat, status: Status, done: nat)
    requires Whole(cs) && Reports(pages, dev, cs, at, size, status, done)
    ensures done <= size && done == Counted(pages, at, size, status.Ok())
    ensures status == LastStatus(pages, dev, cs, LastPage(at, size))
  {
  }

  lemma ReportedStatus(pages: Pages, dev: Device, cs: nat, at: nat, size: nat, status: Status, done: nat)
    requires Whole(cs) && Reports(pages, dev, cs, at, size, status, done)
    ensures status == LastStatus(pages, dev, cs, LastPage(at, size))
    ensures status != StatusCached && (status.Ok() ==> status == Success)
  {
    hide Counted;
  }

  /** What is counted behind the missing page pn. */
  lemma CountedBehind(pages: Pages, at: nat, size: nat, pn: nat, po: nat, rest: nat, ok: bool)
    requires pn !in pages && at / PAGE <= pn && po < PAGE && PAGE - po < rest <= size && pn * PAGE + po == at + (size - rest)
    ensures Counted(pages, at, size, ok) == Counted(pages, (pn + 1) * PAGE, rest - (PAGE - po), ok)
  {
    hide CountsFrom;
    var last := LastPage(at, size);
    LastPageReached(at, size, pn, po, rest);
    LastPageReached(at, size, pn + 1, 0, rest - (PAGE - po));
    CountsBehind(pages, at, pn, last);
  }

  lemma ReportsFound(pages: Pages, dev: Device, cs: nat, at: nat, size: nat)
    requires Whole(cs) && AllCached(pages, at / PAGE, LastPage(at, size) + 1)
    ensures Reports(pages, dev, cs, at, size, Success, size)
  {
    hide PageStatus, Whole;
    assert at / PAGE <= LastPage(at, size);
  }

  /** The first page missing is pn; done0 bytes were found before it. */
  lemma ReportsMissed(pages: Pages, dev: Device, cs: nat, at: nat, size: nat, pn: nat, po: nat, rest: nat, status: Status, done: nat)
    requires Whole(cs) && AllCached(pages, at / PAGE, pn) && pn !in pages && at / PAGE <= pn && po < PAGE
    requires rest <= size && pn * PAGE + po == at + (size - rest) && (rest < size ==> rest > 0 && po == 0)
    requires var last := LastPage(at, size);
      status == if last != pn && last in pages then Success else PageStatus(dev, cs, last)
    requires rest <= PAGE - po ==> done == (size - rest) + if status.Ok() then rest else 0
    requires rest > PAGE - po ==>
      done <= rest - (PAGE - po) && done == Counted(pages, (pn + 1) * PAGE, rest - (PAGE - po), status.Ok())
    ensures Reports(pages, dev, cs, at, size, status, done) && !AllCached(pages, at / PAGE, LastPage(at, size) + 1)
  {
    hide PageStatus, Whole, LastPage;
    LastPageReached(at, size, pn, po, rest);
    if rest > PAGE - po {
      LastPageReached(at, size, pn + 1, 0, rest - (PAGE - po));
      CountedBehind(pages, at, size, pn, po, rest, status.Ok());
    }
  }

  /** A page buffer just read from the device. */
  ghost predicate Agrees(dev: Device, cs: nat, p: nat, page: seq<Byte>)
    requires Whole(cs) && WellSized(dev, cs)
  {
    && |page| == PAGE
    && (forall o: nat :: o < PAGE && DeviceByte(dev, cs, p, o).Known? ==> DeviceByte(dev, cs, p, o) == Known(page[o]))
  }

  /** Reading may have added pages between first and last, each as the device has it. */
  ghost predicate Filled(pages: Pages, pages': Pages, dev: Device, cs: nat, first: nat, last: nat)
    requires Whole(cs) && WellSized(dev, cs)
  {
    && (forall p :: p in pages ==> p in pages' && pages'[p] == pages[p])
    && (forall p :: p in pages' && p !in pages ==>
         first <= p <= last && PageStatus(dev, cs, p).Ok() && Agrees(dev, cs, p, pages'[p]))
  }

  /** The pages from first to last that were cached before or can be read are cached now. */
  ghost predicate Kept(pages: Pages, pages': Pages, dev: Device, cs: nat, first: nat, last: nat)
    requires Whole(cs)
  {
    forall p :: first <= p <= last && (p in pages || PageStatus(dev, cs, p).Ok()) ==> p in pages'
  }

  lemma KeptTwice(p0: Pages, p1: Pages, p2: Pages, dev: Device, cs: nat, first: nat, mid: nat, last: nat)
    requires Whole(cs) && Kept(p0, p1, dev, cs, first, mid) && Kept(p1, p2, dev, cs, mid + 1, last)
    requires (forall p :: p in p0 ==> p in p1) && (forall p :: p in p1 ==> p in p2)
    ensures Kept(p0, p2, dev, cs, first, last)
  {
    hide PageStatus, Whole;
  }

  /** Pages first up to mid were cached before and still are. */
  lemma KeptFrom(p0: Pages, p1: Pages, p2: Pages, dev: Device, cs: nat, first: nat, mid: nat, last: nat)
    requires Whole(cs) && AllCached(p0, first, mid) && (mid <= last ==> Kept(p1, p2, dev, cs, mid, last))
    requires forall p :: p in p0 ==> p in p1 && p in p2
    ensures Kept(p0, p2, dev, cs, first, last)
  {
    hide PageStatus, Whole;
  }

  lemma KeptOne(p0: Pages, p1: Pages, dev: Device, cs: nat, p: nat)
    requires Whole(cs) && (p in p0 || PageStatus(dev, cs, p).Ok() ==> p in p1)
    ensures Kept(p0, p1, dev, cs, p, p)
  {
    hide PageStatus, Whole;
  }

  lemma FilledOne(pages: Pages, page: seq<Byte>, dev: Device, cs: nat, p: nat)
    requires Whole(cs) && WellSized(dev, cs) && p !in pages && PageStatus(dev, cs, p).Ok() && Agrees(dev, cs, p, page)
    ensures Filled(pages, pages[p := page], dev, cs, p, p)
  {
    hide PageStatus, Whole, WellSized, Agrees;
  }

  lemma FilledGrows(p0: Pages, p1: Pages, dev: Device, cs: nat, first: nat, last: nat)
    requires Whole(cs) && WellSized(dev, cs) && Filled(p0, p1, dev, cs, first, last)
    ensures forall p :: p in p0 ==> p in p1
  {
  }

  /** Reading never changes a byte of the file that was known before. */
  lemma FilledKeeps(pages: Pages, pages': Pages, dev: Device, cs: nat, first: nat, last: nat, k: nat)
    requires Sane(pages, dev, cs) && Sane(pages', dev, cs) && Filled(pages, pages', dev, cs, first, last)
    ensures ContentAt(pages, dev, cs, k).Known? ==> ContentAt(pages', dev, cs, k) == ContentAt(pages, dev, cs, k)
    ensures !(first <= k / PAGE <= last) ==> ContentAt(pages', dev, cs, k) == ContentAt(pages, dev, cs, k)
  {
    var p, o := k / PAGE, k % PAGE;
    if p !in pages && p in pages' {
      assert Agrees(dev, cs, p, pages'[p]);
    }
  }

  /** The request is for bytes of a single page, which is missing. */
  ghost predicate OneMissing(pages: Pages, at: nat, size: nat) {
    at % PAGE + size <= PAGE && at / PAGE !in pages
  }

  /** A read of bytes of a single page, which is missing: it succeeds as far as reading the page does, and a
      failure delivers and caches nothing. */
  lemma OneMissingPage(p0: Pages, p1: Pages, dev: Device, cs: nat, at: nat, size: nat, b0: seq<Byte>, b1: seq<Byte>,
                       status: Status, done: nat)
    requires Sane(p0, dev, cs) && OneMissing(p0, at, size)
    requires Filled(p0, p1, dev, cs, at / PAGE, LastPage(at, size))
    requires Delivered(p0, dev, cs, at, b0, b1, 0, size) && Reports(p0, dev, cs, at, size, status, done)
    ensures LastPage(at, size) == at / PAGE && !AllCached(p0, at / PAGE, LastPage(at, size) + 1)
    ensures PageEnds(dev, cs, at / PAGE, status) && (status.Ok() ==> done == size)
    ensures !status.Ok() ==> done == 0 && b1 == b0 && p1 == p0
  {
    hide PageStatus, Whole, WellSized, PageEnds, Agrees;
    var p := at / PAGE;
    LastPageReached(at, size, p, at % PAGE, size);
    StopIsEnd(dev, cs, p);
    if !status.Ok() {
      forall k | 0 <= k < |b1|
        ensures b1[k] == b0[k]
      {
        if k < size {
          assert (at + k) / PAGE == p;
          assert ContentAt(p0, dev, cs, at + k - 0) == Unread;
        }
      }
    }
  }

  // ---------------------------------------------------------------- reading pages

  /** The first i clusters of page p have been read into the buffer, those that hold data. */
  ghost predicate ReadSoFar(dev: Device, cs: nat, p: nat, buf: seq<Byte>, i: nat)
    requires Whole(cs) && WellSized(dev, cs)
  {
    && |buf| == PAGE
    && (forall o: nat {:trigger buf[o]} :: o < PAGE && o < i * cs ==>
         Lands(ClusterByte(dev, cs, FirstCluster(cs, p), o), buf[o], buf[o]))
  }

  /** The loop over the clusters of page p stops at cluster i, or runs out of clusters there. */
  lemma StopsAt(dev: Device, cs: nat, p: nat, i: nat)
    requires Whole(cs) && i <= ClustersPerPage(cs)
    requires i <= Stop(dev, FirstCluster(cs, p), ClustersPerPage(cs))
    requires i < ClustersPerPage(cs) ==>
      var f := dev(FirstCluster(cs, p) + i); f.EndOfFile? || f.NoMedia?
    ensures i == Stop(dev, FirstCluster(cs, p), ClustersPerPage(cs))
    ensures PageStatus(dev, cs, p) == FetchStatus(dev(FirstCluster(cs, p) + if i < ClustersPerPage(cs) then i else i - 1))
  {
  }

  lemma GoesOn(dev: Device, c: nat, n: nat, i: nat)
    requires i < n && i <= Stop(dev, c, n) && (dev(c + i).Data? || dev(c + i).Failed?)
    ensures i + 1 <= Stop(dev, c, n)
  {
  }

  lemma ClusterFits(dev: Device, cs: nat, i: nat, c: nat)
    requires Whole(cs) && WellSized(dev, cs) && i < ClustersPerPage(cs)
    ensures i * cs + cs <= PAGE && (dev(c).Data? ==> |dev(c).bytes| == cs)
  {
    MulGrows(i + 1, ClustersPerPage(cs), cs);
  }

  lemma NothingRead(dev: Device, cs: nat, p: nat, buf: seq<Byte>)
    requires Whole(cs) && WellSized(dev, cs) && |buf| == PAGE
    ensures ReadSoFar(dev, cs, p, buf, 0) && ClustersPerPage(cs) > 0
  {
  }

  lemma ReadSoFarSize(dev: Device, cs: nat, p: nat, buf: seq<Byte>, i: nat)
    requires Whole(cs) && WellSized(dev, cs) && ReadSoFar(dev, cs, p, buf, i)
    ensures |buf| == PAGE
  {
  }

  lemma ReadOneMore(dev: Device, cs: nat, p: nat, before: seq<Byte>, after: seq<Byte>, i: nat)
    requires Whole(cs) && WellSized(dev, cs) && i < ClustersPerPage(cs)
    requires ReadSoFar(dev, cs, p, before, i) && |after| == PAGE
    requires forall o :: 0 <= o < PAGE && !(i * cs <= o < i * cs + cs) ==> after[o] == before[o]
    requires var c := FirstCluster(cs, p) + i; dev(c).Data? ==>
      forall o :: i * cs <= o < i * cs + cs && o < PAGE ==> after[o] == dev(c).bytes[o - i * cs]
    ensures ReadSoFar(dev, cs, p, after, i + 1)
  {
    forall o: nat {:trigger after[o]} | o < PAGE && o < (i + 1) * cs
      ensures Lands(ClusterByte(dev, cs, FirstCluster(cs, p), o), after[o], after[o])
    {
      if o < i * cs {
        assert after[o] == before[o];
      } else {
        ClusterOf(o, cs, i);
      }
    }
  }

  lemma ReadAll(dev: Device, cs: nat, p: nat, buf: seq<Byte>, i: nat)
    requires Whole(cs) && WellSized(dev, cs) && ReadSoFar(dev, cs, p, buf, i)
    requires i == Stop(dev, FirstCluster(cs, p), ClustersPerPage(cs))
    ensures Agrees(dev, cs, p, buf)
  {
    hide ClusterByte, PageStatus, Stop, ClustersPerPage, Whole, WellSized;
    forall o: nat | o < PAGE && DeviceByte(dev, cs, p, o).Known?
      ensures DeviceByte(dev, cs, p, o) == Known(buf[o])
    {
      assert Lands(ClusterByte(dev, cs, FirstCluster(cs, p), o), buf[o], buf[o]);
    }
  }

  /** A page read from the device gives its bytes to the request, whatever page it is. */
  lemma PageDelivered(pages: Pages, dev: Device, cs: nat, p: nat, o: nat, page: seq<Byte>,
                      before: seq<Byte>, after: seq<Byte>, pos: nat, n: nat)
    requires Sane(pages, dev, cs) && p !in pages && Agrees(dev, cs, p, page) && PageStatus(dev, cs, p).Ok()
    requires o + n <= PAGE && pos + n <= |before| == |after|
    requires forall k :: 0 <= k < |after| ==>
      after[k] == if pos <= k < pos + n then page[o..o + n][k - pos] else before[k]
    ensures Delivered(pages, dev, cs, p * PAGE + o, before, after, pos, n)
  {
    forall k | pos <= k < pos + n
      ensures Lands(ContentAt(pages, dev, cs, p * PAGE + o + k - pos), before[k], after[k])
    {
      var x := p * PAGE + (o + k - pos);
      assert x / PAGE == p && x % PAGE == o + k - pos;
      assert after[k] == page[o + k - pos];
    }
  }

  /** A page that cannot be read leaves the buffer alone. */
  lemma PageSkipped(pages: Pages, dev: Device, cs: nat, p: nat, o: nat, b: seq<Byte>, pos: nat, n: nat)
    requires Sane(pages, dev, cs) && p !in pages && !PageStatus(dev, cs, p).Ok()
    requires o + n <= PAGE && pos + n <= |b|
    ensures Delivered(pages, dev, cs, p * PAGE + o, b, b, pos, n)
  {
    forall k | pos <= k < pos + n
      ensures Lands(ContentAt(pages, dev, cs, p * PAGE + o + k - pos), b[k], b[k])
    {
      var x := p * PAGE + (o + k - pos);
      assert x / PAGE == p && x % PAGE == o + k - pos;
    }
  }

  /** Pages added below `at` do not change what is delivered from there on. */
  lemma DeliveredAfter(pages: Pages, pages': Pages, dev: Device, cs: nat, at: nat, b: seq<Byte>, b': seq<Byte>, pos: nat, n: nat)
    requires Sane(pages, dev, cs) && Sane(pages', dev, cs) && Delivered(pages', dev, cs, at, b, b', pos, n)
    requires forall p :: p * PAGE + PAGE > at ==>
      (p in pages <==> p in pages') && (p in pages ==> pages'[p] == pages[p])
    ensures Delivered(pages, dev, cs, at, b, b', pos, n)
  {
    forall k | 0 <= k < |b'|
      ensures if pos <= k < pos + n then Lands(ContentAt(pages, dev, cs, at + k - pos), b[k], b'[k]) else b'[k] == b[k]
    {
      if pos <= k < pos + n {
        var p := (at + k - pos) / PAGE;
        assert p * PAGE + PAGE > at;
        assert ContentAt(pages, dev, cs, at + k - pos) == ContentAt(pages', dev, cs, at + k - pos);
      }
    }
  }

  /** The bytes of page pn come from the device, the ones behind from the pages p1 that were there after. */
  lemma DeliveredBehind(p0: Pages, p1: Pages, pn: nat, dev: Device, cs: nat, at: nat,
                        b0: seq<Byte>, b1: seq<Byte>, b2: seq<Byte>, pos: nat, n: nat, n': nat)
    requires Sane(p0, dev, cs) && Sane(p1, dev, cs) && Filled(p0, p1, dev, cs, pn, pn)
    requires at + n == (pn + 1) * PAGE
    requires Sane(p0 - {pn}, dev, cs) && Delivered(p0 - {pn}, dev, cs, at, b0, b1, pos, n)
    requires Delivered(p1, dev, cs, at + n, b1, b2, pos + n, n')
    ensures Delivered(p0 - {pn}, dev, cs, at, b0, b2, pos, n + n')
  {
    hide Delivered, Agrees, Whole, WellSized, PageStatus;
    DeliveredAfter(p0 - {pn}, p1, dev, cs, at + n, b1, b2, pos + n, n');
    DeliveredTwice(p0 - {pn}, dev, cs, at, b0, b1, b2, pos, n, n');
  }

  lemma FilledTwice(p0: Pages, p1: Pages, p2: Pages, dev: Device, cs: nat, first: nat, mid: nat, last: nat)
    requires Whole(cs) && WellSized(dev, cs) && first <= mid <= last
    requires Filled(p0, p1, dev, cs, first, first) && Filled(p1, p2, dev, cs, mid, last)
    ensures Filled(p0, p2, dev, cs, first, last)
  {
    forall p | p in p2 && p !in p0
      ensures first <= p <= last && PageStatus(dev, cs, p).Ok() && Agrees(dev, cs, p, p2[p])
    {
    }
  }

  lemma WholeIsPositive(cs: nat)
    requires Whole(cs)
    ensures cs > 0
  {
  }

  lemma AgreesSize(dev: Device, cs: nat, p: nat, page: seq<Byte>)
    requires Whole(cs) && WellSized(dev, cs) && Agrees(dev, cs, p, page)
    ensures |page| == PAGE
  {
  }

  lemma NothingRemoved(pages: Pages, p: nat)
    requires p !in pages
    ensures pages - {p} == pages
  {
  }

  lemma RemovedSane(pages: Pages, dev: Device, cs: nat, p: nat)
    requires Sane(pages, dev, cs)
    ensures Sane(pages - {p}, dev, cs)
  {
  }

  lemma FilledNot(pages: Pages, dev: Device, cs: nat, first: nat, last: nat)
    requires Whole(cs) && WellSized(dev, cs)
    ensures Filled(pages, pages, dev, cs, first, last)
  {
  }

  lemma FilledWider(p0: Pages, p1: Pages, dev: Device, cs: nat, first: nat, mid: nat, last: nat)
    requires Whole(cs) && WellSized(dev, cs) && first <= mid && Filled(p0, p1, dev, cs, mid, last)
    ensures Filled(p0, p1, dev, cs, first, last)
  {
  }

  lemma FilledOnly(p0: Pages, p1: Pages, dev: Device, cs: nat, pn: nat)
    requires Whole(cs) && WellSized(dev, cs) && Filled(p0, p1, dev, cs, pn, pn)
    ensures forall p :: p != pn ==> (p in p0 <==> p in p1)
  {
  }

  lemma FoundInCache(pages: Pages, dev: Device, cs: nat, at: nat, b: seq<Byte>, b': seq<Byte>, pos: nat, n: nat, pages': Pages)
    requires Sane(pages, dev, cs) && Moved(false, pages, pages', dev, cs, at, b, b', pos, n)
    ensures pages' == pages && Delivered(pages, dev, cs, at, b, b', pos, n)
  {
  }

  lemma LastPageSame(at: nat, size: nat, rest: nat)
    requires rest <= size && (rest < size ==> rest > 0)
    ensures LastPage(at + (size - rest), rest) == LastPage(at, size)
  {
  }

  /** Bytes found in the cache, then bytes read from the first missing page pn' on. */
  lemma ReadJoined(p0: Pages, p1: Pages, dev: Device, cs: nat, at: nat, size: nat, pn: nat, pn': nat, po': nat, rest: nat,
                   b0: seq<Byte>, b1: seq<Byte>, b2: seq<Byte>, pos: nat, status: Status, done: nat)
    requires Sane(p0, dev, cs) && pn == at / PAGE && pn <= pn' && AllCached(p0, pn, pn') && pn' !in p0 && po' < PAGE
    requires rest <= size && pn' * PAGE + po' == at + (size - rest) && (rest < size ==> rest > 0 && po' == 0)
    requires Delivered(p0, dev, cs, at, b0, b1, pos, size - rest)
    requires Sane(p0 - {pn'}, dev, cs)
      && Delivered(p0 - {pn'}, dev, cs, pn' * PAGE + po', b1, b2, pos + (size - rest), rest)
    requires Filled(p0, p1, dev, cs, pn', LastPage(pn' * PAGE + po', rest))
    requires var last := LastPage(pn' * PAGE + po', rest);
      status == if last != pn' && last in p0 then Success else PageStatus(dev, cs, last)
    requires rest <= PAGE - po' ==> done == (size - rest) + if status.Ok() then rest else 0
    requires rest > PAGE - po' ==>
      done <= rest - (PAGE - po') && done == Counted(p0, (pn' + 1) * PAGE, rest - (PAGE - po'), status.Ok())
    ensures Delivered(p0, dev, cs, at, b0, b2, pos, size)
    ensures Filled(p0, p1, dev, cs, pn, LastPage(at, size))
    ensures Reports(p0, dev, cs, at, size, status, done) && !AllCached(p0, pn, LastPage(at, size) + 1)
  {
    hide Delivered, Filled, PageStatus, LastPage, Whole, WellSized, Reports, AllCached;
    LastPageSame(at, size, rest);
    NothingRemoved(p0, pn');
    DeliveredTwice(p0, dev, cs, at, b0, b1, b2, pos, size - rest, rest);
    FilledWider(p0, p1, dev, cs, pn, pn', LastPage(at, size));
    ReportsMissed(p0, dev, cs, at, size, pn', po', rest, status, done);
  }
}
