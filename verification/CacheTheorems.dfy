/** What the file cache promises: reads give the file, writes are seen by later reads, and flushing
    loses nothing the device can give back. */
module CacheTheorems {
  import opened Common
  import opened CacheContent
  import opened CacheWrites

  /** Reading a stretch of the file whose bytes are known gives exactly those bytes. */
  lemma ReadGivesFile(pages: Pages, dev: Device, cs: nat, at: nat, before: seq<Byte>, after: seq<Byte>, pos: nat, n: nat, file: seq<Byte>)
    requires Sane(pages, dev, cs) && Delivered(pages, dev, cs, at, before, after, pos, n) && at + n <= |file|
    requires forall k :: at <= k < at + n ==> ContentAt(pages, dev, cs, k) == Known(file[k])
    ensures after[pos..pos + n] == file[at..at + n]
  {
    forall k | pos <= k < pos + n
      ensures after[k] == file[at + k - pos]
    {
      assert Lands(ContentAt(pages, dev, cs, at + k - pos), before[k], after[k]);
    }
  }

  /** Where byte k of a file lies, by page and by cluster. */
  lemma PageAndCluster(cs: nat, k: nat)
    requires Whole(cs)
    ensures k / cs == FirstCluster(cs, k / PAGE) + (k % PAGE) / cs && k % cs == (k % PAGE) % cs
  {
    var n, p, o := ClustersPerPage(cs), k / PAGE, k % PAGE;
    var q, r := o / cs, o % cs;
    assert p * PAGE == p * n * cs;
    assert k == (p * n + q) * cs + r;
    ClusterOf(k, cs, p * n + q);
  }

  /** Byte r of cluster q is byte k == q * cs + r of the file.  Where its page p is not cached it is known exactly
      if that cluster has data and the page can be read and does not end before it. */
  lemma UncachedByte(pages: Pages, dev: Device, cs: nat, k: nat, p: nat, q: nat, r: nat, i: nat, status: Status)
    requires Sane(pages, dev, cs) && p !in pages && cs > 0
    requires k / PAGE == p && k == q * cs + r && r < cs
    requires EndsAt(dev, cs, p, i) && EndStatus(dev, cs, p, i, status)
    ensures status == PageStatus(dev, cs, p)
    ensures !status.Ok() ==> ContentAt(pages, dev, cs, k) == Unread
    ensures status.Ok() && q < p * (PAGE / cs) + i && dev(q).Data? ==> IsByte(ContentAt(pages, dev, cs, k), dev(q).bytes, r)
    ensures status.Ok() && !(q < p * (PAGE / cs) + i && dev(q).Data?) ==> ContentAt(pages, dev, cs, k) == Stale
  {
    hide Stop, PageStatus, EndsAt, ClustersPerPage, Whole, WellSized, EndStatus;
    PageAndCluster(cs, k);
    ClusterOf(k, cs, q);
    ClusterSized(dev, cs, q);
    WholeIsExact(cs);
    PageStatusIs(dev, cs, p, i);
    OneEndStatus(dev, cs, p, i, status, PageStatus(dev, cs, p));
    BeforeStop(k % PAGE, cs, i);
  }

  predicate IsByte(c: Content, bytes: seq<Byte>, r: nat) { r < |bytes| && c == Known(bytes[r]) }

  lemma OneEndStatus(dev: Device, cs: nat, p: nat, i: nat, s: Status, t: Status)
    requires cs > 0 && EndStatus(dev, cs, p, i, s) && EndStatus(dev, cs, p, i, t)
    ensures s == t
  {
  }

  lemma ClusterSized(dev: Device, cs: nat, c: nat)
    requires cs > 0 && WellSized(dev, cs)
    ensures dev(c).Data? ==> |dev(c).bytes| == cs
  {
  }

  lemma BeforeStop(o: nat, cs: nat, i: nat)
    requires cs > 0
    ensures o < i * cs <==> o / cs < i
  {
    if o < i * cs {
      InCluster(o, cs, i);
    }
    if o / cs < i {
      BelowCluster(o, cs, i);
    }
  }

  lemma BelowCluster(o: nat, cs: nat, n: nat)
    requires cs > 0 && o / cs < n
    ensures o < n * cs
  {
    MulGrows(o / cs + 1, n, cs);
  }

  /** A clean cache over a device that has the bytes shows the device's bytes, whatever is cached. */
  lemma CleanShowsDevice(pages: Pages, dev: Device, cs: nat, k: nat)
    requires Sane(pages, dev, cs) && Clean(pages, dev, cs, {})
    requires DeviceByte(dev, cs, k / PAGE, k % PAGE).Known?
    ensures ContentAt(pages, dev, cs, k) == DeviceByte(dev, cs, k / PAGE, k % PAGE)
  {
    hide DeviceByte;
    var p := k / PAGE;
    if p in pages {
      assert Agrees(dev, cs, p, pages[p]);
    }
  }

  /** A byte written is what a read of it gives next, exactly as far as its page was kept; all others
      read as before. */
  lemma ReadYourWrites(p0: Pages, p1: Pages, dev: Device, cs: nat, at: nat, src: seq<Byte>, pos: nat, n: nat, last: nat, k: nat)
    requires Sane(p0, dev, cs) && WrittenTo(p0, p1, dev, cs, at, src, pos, n, last)
    ensures Sane(p1, dev, cs)
    ensures at <= k < at + n && k / PAGE in p1 ==> ContentAt(p1, dev, cs, k) == Known(src[pos + (k - at)])
    ensures k / PAGE !in p1 || !(at <= k < at + n) ==>
      (ContentAt(p0, dev, cs, k).Known? ==> ContentAt(p1, dev, cs, k) == ContentAt(p0, dev, cs, k))
  {
    hide DeviceByte, PageStatus, Whole, WellSized;
    var p, o := k / PAGE, k % PAGE;
    if p in p1 {
      assert ByteWritten(p0, dev, cs, at, src, pos, n, p, o, p1[p][o]);
    }
  }

  /** With plenty of memory, once every page of a request is cached or can be read, all of them are cached after
      it, and every byte written reads back as it was written. */
  lemma WrittenReadsBack(p0: Pages, p1: Pages, dev: Device, cs: nat, at: nat, src: seq<Byte>, pos: nat, n: nat, k: nat)
    requires Sane(p0, dev, cs) && WrittenTo(p0, p1, dev, cs, at, src, pos, n, LastPage(at, n))
    requires Kept(p0, p1, dev, cs, at / PAGE, LastPage(at, n)) && at <= k < at + n
    requires forall p :: at / PAGE <= p <= LastPage(at, n) ==> p in p0 || PageStatus(dev, cs, p).Ok()
    ensures Sane(p1, dev, cs) && AllCached(p1, at / PAGE, LastPage(at, n) + 1)
    ensures ContentAt(p1, dev, cs, k) == Known(src[pos + (k - at)])
  {
    hide WrittenTo, PageStatus, Whole, WellSized, ContentAt;
    assert at / PAGE <= k / PAGE <= LastPage(at, n);
    ReadYourWrites(p0, p1, dev, cs, at, src, pos, n, LastPage(at, n), k);
  }

  /** Flushing a clean cache whose writes are reported honestly changes no byte of the file: a page still
      cached reads as before, and what an evicted page showed is what the device gives, where it gives it. */
  lemma FlushKeepsFile(cs: nat, canWrite: bool, accepts: nat -> bool, p0: Pages, d0: Device, m0: set<nat>,
                       p1: Pages, d1: Device, m1: set<nat>, k: nat)
    requires Sane(p0, d0, cs) && Sane(p1, d1, cs) && Flushed(cs, canWrite, accepts, p0, d0, m0, p1, d1, m1)
    requires Clean(p0, d0, cs, m0) && Honest(cs, canWrite, accepts, m0) && forall p :: p in m0 ==> p in p0
    ensures ContentAt(p1, d1, cs, k).Known? ==> ContentAt(p1, d1, cs, k) == ContentAt(p0, d0, cs, k)
    ensures !(k / PAGE in p0 && k / PAGE !in p1) ==> ContentAt(p1, d1, cs, k) == ContentAt(p0, d0, cs, k)
  {
    hide DeviceByte, PageStatus, Whole, WellSized, SamePage, Clean, Honest;
    var p, o := k / PAGE, k % PAGE;
    if p !in p0 {
      SamePageBytes(d0, d1, cs, p, o);
    } else if p !in p1 {
      assert Agrees(d1, cs, p, p0[p]);
    }
  }

  /** Once a clean cache with modified pages was written back wholly and without a false report, the device
      alone gives every byte of the file, of those it can give, as the cache showed it before. */
  lemma PurgedIsDurable(cs: nat, canWrite: bool, accepts: nat -> bool, p0: Pages, d0: Device, m0: set<nat>,
                        p1: Pages, d1: Device, k: nat)
    requires Sane(p0, d0, cs) && Sane(p1, d1, cs) && Flushed(cs, canWrite, accepts, p0, d0, m0, p1, d1, {})
    requires Clean(p0, d0, cs, m0) && Honest(cs, canWrite, accepts, m0) && forall p :: p in m0 ==> p in p0
    requires DeviceByte(d1, cs, k / PAGE, k % PAGE).Known?
    ensures Sane(map[], d1, cs) && ContentAt(map[], d1, cs, k) == ContentAt(p0, d0, cs, k)
  {
    hide DeviceByte, PageStatus, Whole, WellSized, Honest, Flushed;
    NothingMarked(cs, canWrite, accepts, p0, d0, m0, p1, d1);
    CleanShowsDevice(p1, d1, cs, k);
    FlushKeepsFile(cs, canWrite, accepts, p0, d0, m0, p1, d1, {}, k);
  }

  lemma NothingMarked(cs: nat, canWrite: bool, accepts: nat -> bool, p0: Pages, d0: Device, m0: set<nat>, p1: Pages, d1: Device)
    requires Sane(p0, d0, cs) && Sane(p1, d1, cs) && Flushed(cs, canWrite, accepts, p0, d0, m0, p1, d1, {})
    requires Clean(p0, d0, cs, m0) && Honest(cs, canWrite, accepts, m0)
    ensures Clean(p1, d1, cs, {})
  {
  }

  /** Writing a byte leaves the cache in agreement with the device: its page is marked, or the device does
      not give that byte, or has it already. */
  ghost predicate Matches(dev: Device, cs: nat, at: nat, src: seq<Byte>, pos: nat, n: nat, marked: set<nat>, k: nat)
    requires Whole(cs) && WellSized(dev, cs) && at <= k < at + n && pos + n <= |src|
  {
    k / PAGE in marked || !DeviceByte(dev, cs, k / PAGE, k % PAGE).Known?
    || DeviceByte(dev, cs, k / PAGE, k % PAGE) == Known(src[pos + (k - at)])
  }

  /** A write keeps the cache clean exactly when every byte stored in a page that is not marked is the one
      the device has there.  Only a last page that was cached before gets a mark. */
  lemma WriteKeepsClean(p0: Pages, p1: Pages, dev: Device, cs: nat, at: nat, src: seq<Byte>, pos: nat, n: nat, m0: set<nat>)
    requires Sane(p0, dev, cs) && WrittenTo(p0, p1, dev, cs, at, src, pos, n, LastPage(at, n)) && Clean(p0, dev, cs, m0)
    ensures Clean(p1, dev, cs, m0 + Marked(p0, at, n)) <==>
      forall k :: at <= k < at + n && k / PAGE in p1 ==> Matches(dev, cs, at, src, pos, n, m0 + Marked(p0, at, n), k)
  {
    hide DeviceByte, PageStatus, Whole, WellSized, Clean, Agrees, WrittenTo;
    var m1 := m0 + Marked(p0, at, n);
    WrittenSize(p0, p1, dev, cs, at, src, pos, n);
    if k :| at <= k < at + n && k / PAGE in p1 && !Matches(dev, cs, at, src, pos, n, m1, k) {
      UnmarkedChange(p0, p1, dev, cs, at, src, pos, n, m0, k);
    } else {
      forall p | p in p1 && p !in m1
        ensures Agrees(dev, cs, p, p1[p])
      {
        WrittenAgrees(p0, p1, dev, cs, at, src, pos, n, m0, m1, p);
      }
      AllClean(p1, dev, cs, m1);
    }
  }

  /** What can be told before the call: bytes the device has already, in every page that will not be marked,
      keep the cache clean; when all pages of the request are cached, exactly these do. */
  lemma WriteKeepsCleanBefore(p0: Pages, p1: Pages, dev: Device, cs: nat, at: nat, src: seq<Byte>, pos: nat, n: nat, m0: set<nat>)
    requires Sane(p0, dev, cs) && WrittenTo(p0, p1, dev, cs, at, src, pos, n, LastPage(at, n)) && Clean(p0, dev, cs, m0)
    ensures (forall k :: at <= k < at + n ==> Matches(dev, cs, at, src, pos, n, m0 + Marked(p0, at, n), k)) ==>
      Clean(p1, dev, cs, m0 + Marked(p0, at, n))
    ensures (forall k :: at <= k < at + n ==> k / PAGE in p0) && Clean(p1, dev, cs, m0 + Marked(p0, at, n)) ==>
      forall k :: at <= k < at + n ==> Matches(dev, cs, at, src, pos, n, m0 + Marked(p0, at, n), k)
  {
    hide DeviceByte, PageStatus, Whole, WellSized, Clean, Matches;
    WriteKeepsClean(p0, p1, dev, cs, at, src, pos, n, m0);
    assert forall k :: at <= k < at + n && k / PAGE in p0 ==> k / PAGE in p1;
  }

  lemma WrittenSize(p0: Pages, p1: Pages, dev: Device, cs: nat, at: nat, src: seq<Byte>, pos: nat, n: nat)
    requires Sane(p0, dev, cs) && WrittenTo(p0, p1, dev, cs, at, src, pos, n, LastPage(at, n))
    ensures pos + n <= |src| && Sane(p1, dev, cs)
  {
  }

  lemma AllClean(pages: Pages, dev: Device, cs: nat, modified: set<nat>)
    requires Whole(cs) && WellSized(dev, cs) && forall p :: p in pages && p !in modified ==> Agrees(dev, cs, p, pages[p])
    ensures Clean(pages, dev, cs, modified)
  {
  }

  /** A page that is not marked, all of whose written bytes match. */
  lemma WrittenAgrees(p0: Pages, p1: Pages, dev: Device, cs: nat, at: nat, src: seq<Byte>, pos: nat, n: nat,
                      m0: set<nat>, m1: set<nat>, p: nat)
    requires Sane(p0, dev, cs) && WrittenTo(p0, p1, dev, cs, at, src, pos, n, LastPage(at, n)) && Clean(p0, dev, cs, m0)
    requires p in p1 && p !in m1 && m0 <= m1
    requires forall k :: at <= k < at + n && k / PAGE in p1 ==> Matches(dev, cs, at, src, pos, n, m1, k)
    ensures Agrees(dev, cs, p, p1[p])
  {
    hide DeviceByte, PageStatus, Whole, WellSized;
    forall o: nat | o < PAGE && DeviceByte(dev, cs, p, o).Known?
      ensures DeviceByte(dev, cs, p, o) == Known(p1[p][o])
    {
      var k := p * PAGE + o;
      assert k / PAGE == p && k % PAGE == o;
      assert ByteWritten(p0, dev, cs, at, src, pos, n, p, o, p1[p][o]);
      if at <= k < at + n {
        assert Matches(dev, cs, at, src, pos, n, m1, k);
      } else if p in p0 {
        assert Agrees(dev, cs, p, p0[p]);
      }
    }
  }

  /** One changed byte in a page the write does not mark is enough to lose agreement with the device. */
  lemma UnmarkedChange(p0: Pages, p1: Pages, dev: Device, cs: nat, at: nat, src: seq<Byte>, pos: nat, n: nat, m0: set<nat>, k: nat)
    requires Sane(p0, dev, cs) && WrittenTo(p0, p1, dev, cs, at, src, pos, n, LastPage(at, n))
    requires at <= k < at + n && k / PAGE in p1 && k / PAGE !in m0 + Marked(p0, at, n)
    requires DeviceByte(dev, cs, k / PAGE, k % PAGE).Known?
    requires DeviceByte(dev, cs, k / PAGE, k % PAGE) != Known(src[pos + (k - at)])
    ensures !Clean(p1, dev, cs, m0 + Marked(p0, at, n))
  {
    hide DeviceByte, PageStatus, Whole, WellSized;
    var p, o := k / PAGE, k % PAGE;
    assert ByteWritten(p0, dev, cs, at, src, pos, n, p, o, p1[p][o]);
    assert !Agrees(dev, cs, p, p1[p]);
  }
}
