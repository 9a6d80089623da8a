/** The physical page database in operation: moving pages between lists, allocating, freeing, zeroing,
    trimming and mapping them (kernel/mm.cpp). */
module PageDatabase {
  import opened Common
  import opened PageLists

  /** The lists after page f moved from one location to another. */
  function AfterMove(lists: seq<seq<nat>>, from: nat, to: nat, f: nat): seq<seq<nat>>
    requires |lists| == LISTS && (from < LISTS ==> f in lists[from])
  {
    var a := if from < LISTS then lists[from := Without(lists[from], IndexOf(lists[from], f))] else lists;
    if to < LISTS then a[to := [f] + a[to]] else a
  }

  /** A page is on a list exactly when its location names that list. */
  lemma OnItsList(p: seq<Ppd>, heads: seq<int>, lists: seq<seq<nat>>, f: nat, l: nat)
    requires Valid(p, heads, lists) && f < |p| && l < LISTS
    ensures f in lists[l] <==> p[f].location == l
  {
    assert Chained(p, heads[l], lists[l], l);
    if p[f].location != l {
      NotInOther(p, heads[l], lists[l], l, f);
    }
  }

  lemma {:induction false} ReversedSame(s: seq<nat>)
    ensures multiset(Reversed(s)) == multiset(s)
  {
    if s != [] {
      ReversedSame(s[1..]);
      assert s == [s[0]] + s[1..];
    }
  }

  /** The pages an allocation takes, free ones first. */
  function Taken(lists: seq<seq<nat>>, n: nat): seq<nat>
    requires |lists| == LISTS
  {
    (lists[FREE] + lists[ZEROED])[..Min(n, |lists[FREE] + lists[ZEROED]|)]
  }

  /** The frames an allocation returns are distinct pages that were free or zeroed. */
  lemma TakenDistinct(p: seq<Ppd>, heads: seq<int>, lists: seq<seq<nat>>, n: nat)
    requires Valid(p, heads, lists)
    ensures Distinct(Taken(lists, n))
    ensures forall f :: f in Taken(lists, n) ==> f < |p| && p[f].location in {FREE, ZEROED}
  {
    var a, b, t := lists[FREE], lists[ZEROED], Taken(lists, n);
    assert Chained(p, heads[FREE], a, FREE) && Chained(p, heads[ZEROED], b, ZEROED);
    forall i | 0 <= i < |t|
      ensures t[i] < |p| && p[t[i]].location == if i < |a| then FREE else ZEROED
    {
      if i < |a| {
        assert Link(p, a, FREE, i);
      } else {
        assert Link(p, b, ZEROED, i - |a|);
      }
    }
  }

  /** The lists an allocation leaves. */
  function AfterTaking(lists: seq<seq<nat>>, n: nat): seq<seq<nat>>
    requires |lists| == LISTS
  {
    var free, zeroed := lists[FREE], lists[ZEROED];
    lists[FREE := free[Min(n, |free|)..]][ZEROED := zeroed[Min(n - Min(n, |free|), |zeroed|)..]]
  }

  /** The lists after the pages were freed, one by one, each to the front. */
  function AfterFreeing(lists: seq<seq<nat>>, pages: seq<nat>): seq<seq<nat>>
    requires |lists| == LISTS
  {
    lists[FREE := Reversed(pages) + lists[FREE]]
  }

  /** Allocating pages and freeing them again keeps the pages of the two lists, whatever their order. */
  lemma AllocateFreeConserves(lists: seq<seq<nat>>, n: nat)
    requires |lists| == LISTS
    ensures var after := AfterFreeing(AfterTaking(lists, n), Taken(lists, n));
      && multiset(after[FREE] + after[ZEROED]) == multiset(lists[FREE] + lists[ZEROED])
      && after[MODIFIED] == lists[MODIFIED] && after[STANDBY] == lists[STANDBY]
  {
    hide Reversed, Min;
    var free, zeroed := lists[FREE], lists[ZEROED];
    FreedAgain(free, zeroed, n);
    var after := AfterTaking(lists, n);
    assert after[FREE] == free[Min(n, |free|)..] && after[ZEROED] == zeroed[Min(n - Min(n, |free|), |zeroed|)..];
  }

  lemma FreedAgain(free: seq<nat>, zeroed: seq<nat>, n: nat)
    ensures var i := Min(n, |free|); var j := Min(n - i, |zeroed|);
      multiset((Reversed((free + zeroed)[..Min(n, |free + zeroed|)]) + free[i..]) + zeroed[j..]) == multiset(free + zeroed)
  {
    hide Reversed, Min;
    var i := Min(n, |free|);
    var j := Min(n - i, |zeroed|);
    TakenParts(free, zeroed, n);
    Mixed(free[..i], free[i..], zeroed[..j], zeroed[j..]);
    Rejoined(free, i);
    Rejoined(zeroed, j);
  }

  lemma Rejoined(s: seq<nat>, i: nat)
    requires i <= |s|
    ensures s[..i] + s[i..] == s
  {
  }

  lemma Mixed(a: seq<nat>, b: seq<nat>, c: seq<nat>, d: seq<nat>)
    ensures multiset((Reversed(a + c) + b) + d) == multiset((a + b) + (c + d))
  {
    hide Reversed;
    ReversedSame(a + c);
  }

  lemma TakenParts(a: seq<nat>, b: seq<nat>, n: nat)
    ensures var i := Min(n, |a|);
      (a + b)[..Min(n, |a + b|)] == a[..i] + b[..Min(n - i, |b|)]
  {
  }

  lemma FirstTaken(ls0: seq<seq<nat>>, ls1: seq<seq<nat>>, first: seq<nat>, n: nat)
    requires |ls0| == LISTS && first == [] + ls0[FREE][..Min(n - 0, |ls0[FREE]|)]
    requires ls1 == ls0[FREE := ls0[FREE][Min(n - 0, |ls0[FREE]|)..]]
    ensures |ls1| == LISTS && first == ls0[FREE][..Min(n, |ls0[FREE]|)] && ls1[ZEROED] == ls0[ZEROED]
  {
  }

  /** The free pages taken, then the zeroed ones if those were too few. */
  lemma AllTaken(ls0: seq<seq<nat>>, ls1: seq<seq<nat>>, ls2: seq<seq<nat>>, n: nat, first: seq<nat>, pages: seq<nat>)
    requires |ls0| == LISTS && |ls1| == LISTS && first == ls0[FREE][..Min(n, |ls0[FREE]|)]
    requires ls1 == ls0[FREE := ls0[FREE][Min(n, |ls0[FREE]|)..]]
    requires |first| >= n ==> pages == first && ls2 == ls1
    requires |first| < n ==>
      var m := Min(n - |first|, |ls1[ZEROED]|);
      pages == first + ls1[ZEROED][..m] && ls2 == ls1[ZEROED := ls1[ZEROED][m..]]
    ensures pages == Taken(ls0, n) && ls2 == AfterTaking(ls0, n)
  {
    TakenParts(ls0[FREE], ls0[ZEROED], n);
    if |first| >= n {
      assert ls1[ZEROED][..0] == [] && ls1[ZEROED][0..] == ls1[ZEROED];
    }
  }

  /** Which pages are taken, and that the others stay in order. */
  lemma TakenOneByOne(lists: seq<seq<nat>>, n: nat)
    requires |lists| == LISTS
    ensures var free, zeroed, pages, after := lists[FREE], lists[ZEROED], Taken(lists, n), AfterTaking(lists, n);
      && |pages| == Min(n, |free| + |zeroed|)
      && (forall i :: 0 <= i < |pages| ==> pages[i] == if i < |free| then free[i] else zeroed[i - |free|])
      && after[FREE] == free[Min(|pages|, |free|)..] && after[ZEROED] == zeroed[|pages| - Min(|pages|, |free|)..]
      && after[MODIFIED] == lists[MODIFIED] && after[STANDBY] == lists[STANDBY]
  {
  }

  /** The order MmFreeMmd keeps matters: the working-set index stored when a page is unmapped fits the
      lists exactly when the page is on none. */
  lemma UnmapFitsOnlyOffList(p: seq<Ppd>, heads: seq<int>, lists: seq<seq<nat>>, f: nat)
    requires Valid(p, heads, lists) && f < |p| && |p| < NO_INDEX
    ensures Valid(p[f := p[f].(u1 := NO_INDEX)], heads, lists) <==> p[f].location >= LISTS
  {
    var q := p[f := p[f].(u1 := NO_INDEX)];
    if p[f].location >= LISTS {
      OffListKeeps(p, heads, lists, f, q[f]);
    } else if Valid(q, heads, lists) {
      WordsInRange(q, heads, lists, f);
    }
  }

  const NO_INDEX := 0xFFFF_FFFF

  datatype Status = Success | PartialCompletion | InsufficientResources | Overrun

  /** A descriptor once one more mapping was made; ShareCount has five bits. */
  function Mapped(d: Ppd, pte: int, wsIndex: int): Ppd {
    var count := (d.shareCount + 1) % 32;
    if count == 1 then d.(shareCount := count, u2 := pte, u1 := wsIndex) else d.(shareCount := count)
  }

  /** A descriptor once a mapping was removed. */
  function Unmapped(d: Ppd): Ppd {
    var count := (d.shareCount + 31) % 32;
    if count == 0 then d.(shareCount := count, u1 := NO_INDEX) else d.(shareCount := count)
  }

  lemma TakeStep(lists: seq<seq<nat>>, l: nat, list: seq<nat>, k: nat)
    requires l < |lists| && k < |list|
    ensures list[k..][0] == list[k] && list[k..][1..] == list[k + 1..] && list[..k + 1] == list[..k] + [list[k]]
    ensures lists[l := list[k..]][l := list[k + 1..]] == lists[l := list[k + 1..]]
  {
  }

  lemma FrontMoved(lists: seq<seq<nat>>, l: nat)
    requires |lists| == LISTS && l < LISTS && lists[l] != []
    ensures AfterMove(lists, l, ACTIVE, lists[l][0]) == lists[l := lists[l][1..]]
  {
    assert IndexOf(lists[l], lists[l][0]) == 0 && Without(lists[l], 0) == lists[l][1..];
  }

  class Database {
    const memoryPages: nat              // KiLoaderBlock.PhysicalMemoryPages
    var ppd: array<Ppd>                 // MmPpdDatabase
    var heads: array<int>               // the heads MmPageLists points to
    ghost var lists: seq<seq<nat>>

    ghost predicate Good()
      reads this, ppd, heads
    {
      Valid(ppd[..], heads[..], lists)
    }

    /** All pages reserved, all lists empty. */
    constructor (pages: nat, memoryPages: nat)
      ensures Good() && ppd.Length == pages && this.memoryPages == memoryPages && fresh(ppd) && fresh(heads)
      ensures lists == [[], [], [], []] && forall f :: 0 <= f < pages ==> ppd[f].location == RESERVED
    {
      this.memoryPages := memoryPages;
      ppd := new Ppd[pages](_ => Ppd(0, NULL, RESERVED, false, 0));
      heads := new int[LISTS](_ => NULL);
      lists := [[], [], [], []];
      new;
      var h, ls := heads[..], lists;
      assert forall l :: 0 <= l < LISTS ==> ls[l] == [] && h[l] == NULL;
    }

    /** MiUnlinkPpd */
    method UnlinkPpd(f: nat)
      requires Good() && f < ppd.Length && ppd[f].location < ACTIVE
      requires 0 <= ppd[f].u1 <= ppd.Length && 0 <= ppd[f].u2 <= ppd.Length
      modifies ppd, heads
      ensures ppd[..] == Unlinked(old(ppd[..]), f)
      ensures f < |old(ppd[..])| && old(ppd[f].location) < heads.Length
      ensures heads[..] == UnlinkedHeads(old(ppd[..]), old(heads[..]), f)
    {
      hide AllChained;
      Shape(ppd[..], heads[..], lists, -1);
      var prev, next := ppd[f].u2, ppd[f].u1;
      if prev == NULL {
        heads[ppd[f].location] := next;
        if next != NULL {
          ppd[next - 1] := ppd[next - 1].(u2 := NULL);
        }
      }
      if next == NULL {
        if prev != NULL {
          ppd[prev - 1] := ppd[prev - 1].(u1 := NULL);
        }
      }
      if prev != NULL && next != NULL {
        ppd[prev - 1] := ppd[prev - 1].(u1 := next);
        ppd[next - 1] := ppd[next - 1].(u2 := prev);
      }
    }

    /** MiLinkPpd */
    method LinkPpd(l: nat, f: nat)
      requires heads.Length == LISTS && l < LISTS && f < ppd.Length && 0 <= heads[l] <= ppd.Length
      modifies ppd, heads
      ensures ppd[..] == Linked(old(ppd[..]), old(heads[l]), f) && heads[..] == old(heads[..])[l := Pointer(f)]
    {
      ppd[f] := ppd[f].(u1 := heads[l]);
      ppd[f] := ppd[f].(u2 := NULL);
      if heads[l] != NULL {
        ppd[heads[l] - 1] := ppd[heads[l] - 1].(u2 := Pointer(f));
      }
      heads[l] := Pointer(f);
    }

    /** MiChangePageLocation: off the list the page is on, onto the one it goes to, or active words. */
    method ChangePageLocation(f: nat, location: nat)
      requires Good() && f < ppd.Length && ppd[f].location != location && location <= RESERVED
      modifies this`lists, ppd, heads
      ensures Good() && OnlyWords(old(ppd[..]), ppd[..], f)
      ensures |old(lists)| == LISTS && (old(ppd[f].location) < LISTS ==> f in old(lists)[old(ppd[f].location)])
      ensures lists == AfterMove(old(lists), old(ppd[f].location), location, f)
      ensures ppd[f].location == location
      ensures location >= ACTIVE ==> ppd[f].u1 == 0 && ppd[f].u2 == NULL
    {
      hide AllChained, Linked, Unlinked, OnlyWords;
      ghost var p, from := ppd[..], ppd[f].location;
      Shape(p, heads[..], lists, -1);
      if ppd[f].location < ACTIVE {
        UnlinkKeeps(p, heads[..], lists, f);
        UnlinkOnlyWords(p, heads[..], lists, f);
        UnlinkPpd(f);
        lists := lists[from := Without(lists[from], IndexOf(lists[from], f))];
      } else {
        LooseKeeps(p, heads[..], lists, f);
        NoWords(p, f);
      }
      ghost var q := ppd[..];
      PutOn(f, location);
      OnlyWordsTwice(p, q, ppd[..], f);
    }

    /** The part of MiChangePageLocation that places a page on no list. */
    method PutOn(f: nat, location: nat)
      requires AllChained(ppd[..], heads[..], lists, f) && f < ppd.Length && location <= RESERVED
      modifies this`lists, ppd, heads
      ensures Good() && OnlyWords(old(ppd[..]), ppd[..], f) && |old(lists)| == LISTS
      ensures lists == if location < LISTS then old(lists)[location := [f] + old(lists)[location]] else old(lists)
      ensures ppd[f].location == location
      ensures location >= ACTIVE ==> ppd[f].u1 == 0 && ppd[f].u2 == NULL
    {
      hide AllChained, Linked;
      ghost var q, h := ppd[..], heads[..];
      Shape(q, h, lists, f);
      if location < ACTIVE {
        LinkKeeps(q, h, lists, f, location);
        LinkOnlyWords(q, h, lists, f, location);
        LinkPpd(location, f);
        lists := lists[location := [f] + lists[location]];
      } else {
        ppd[f] := ppd[f].(u1 := 0);
        ppd[f] := ppd[f].(u2 := NULL);
        OffListKeeps(q, h, lists, f, ppd[f].(location := location));
      }
      ghost var r := ppd[..];
      ppd[f] := ppd[f].(location := location);
      assert ppd[..] == r[f := r[f].(location := location)];
      assert location >= ACTIVE ==> ppd[..] == q[f := ppd[f]];
    }

    // -------------------------------------------------------------- allocating and freeing

    /** Take pages off the front of a list until there are n in all or the list ends; the store into the
        array of n frame numbers comes before the count is looked at. */
    method TakeFrom(l: nat, taken: seq<nat>, n: nat) returns (pages: seq<nat>, overrun: bool)
      requires Good() && l < LISTS && |taken| <= n
      modifies this`lists, ppd, heads
      ensures Good() && |old(lists)| == LISTS
      ensures overrun <==> |taken| == n && old(lists)[l] != []
      ensures var list := old(lists)[l]; var m := Min(n - |taken|, |list|);
        && pages == taken + list[..m] && lists == old(lists)[l := list[m..]]
        && Relocated(old(ppd[..]), ppd[..], list[..m], ACTIVE)
    {
      hide AllChained, OnlyWords, Relocated, AfterMove, Without, IndexOf;
      ghost var p0, ls0 := ppd[..], lists;
      Shape(p0, heads[..], lists, -1);
      HeadOf(p0, heads[..], lists, l);
      ghost var list := lists[l];
      assert list[0..] == list && ls0[l := list] == ls0;
      NoneRelocated(p0, ACTIVE);
      pages, overrun := taken, false;
      var cur := heads[l];
      ghost var k := 0;
      while cur != NULL
        invariant Good() && 0 <= k <= |list| && |pages| == |taken| + k && |pages| <= n && !overrun
        invariant pages == taken + list[..k] && lists == ls0[l := list[k..]]
        invariant cur == HeadWord(list[k..])
        invariant k > 0 ==> |pages| < n
        invariant Relocated(p0, ppd[..], list[..k], ACTIVE)
        decreases |list| - k
      {
        HeadOf(ppd[..], heads[..], lists, l);
        if |pages| >= n {
          overrun := true;
          return;
        }
        var f := cur - 1;
        var next := ppd[f].u1;
        ghost var p1 := ppd[..];
        TakeStep(ls0, l, list, k);
        FrontMoved(lists, l);
        ChangePageLocation(f, ACTIVE);
        OneMoreRelocated(p0, p1, ppd[..], list, k, ACTIVE);
        pages := pages + [f];
        cur := next;
        k := k + 1;
        if |pages| == n {
          return;
        }
      }
    }

    /** MmAllocatePhysicalPages: free pages first, then zeroed ones.  Asking for none when a page is free
        stores behind an empty array; `memory` says whether there is memory for the array. */
    method AllocatePhysicalPages(n: nat, memory: bool) returns (status: Status, pages: seq<nat>)
      requires Good()
      modifies this`lists, ppd, heads
      ensures Good() && |old(lists)| == LISTS
      ensures status == InsufficientResources <==> n > memoryPages || !memory
      ensures status == InsufficientResources ==> lists == old(lists) && ppd[..] == old(ppd[..]) && heads[..] == old(heads[..])
      ensures status == Overrun <==> memory && n == 0 && old(lists)[FREE] != []
      ensures status.Success? || status.PartialCompletion? ==>
        var free, zeroed := old(lists)[FREE], old(lists)[ZEROED];
        && |pages| == Min(n, |free| + |zeroed|)
        && (forall i :: 0 <= i < |pages| ==> pages[i] == if i < |free| then free[i] else zeroed[i - |free|])
        && lists[FREE] == free[Min(|pages|, |free|)..] && lists[ZEROED] == zeroed[|pages| - Min(|pages|, |free|)..]
        && lists[MODIFIED] == old(lists)[MODIFIED] && lists[STANDBY] == old(lists)[STANDBY]
      ensures status.Success? || status.PartialCompletion? ==>
        && pages == Taken(old(lists), n) && lists == AfterTaking(old(lists), n)
        && Relocated(old(ppd[..]), ppd[..], pages, ACTIVE) && (status == Success <==> |pages| == n)
    {
      hide AllChained, Relocated, Taken, AfterTaking, Min;
      pages := [];
      ghost var p0, ls0 := ppd[..], lists;
      Shape(p0, heads[..], lists, -1);
      if n > memoryPages {
        return InsufficientResources, pages;
      }
      if !memory {
        return InsufficientResources, pages;
      }
      var overrun;
      pages, overrun := TakeFrom(FREE, [], n);
      if overrun {
        return Overrun, pages;
      }
      ghost var p1, ls1, first := ppd[..], lists, pages;
      FirstTaken(ls0, ls1, first, n);
      if |pages| < n {
        pages, overrun := TakeFrom(ZEROED, pages, n);
        RelocatedTwice(p0, p1, ppd[..], first, ls1[ZEROED][..Min(n - |first|, |ls1[ZEROED]|)], ACTIVE);
      }
      AllTaken(ls0, ls1, lists, n, first, pages);
      TakenOneByOne(ls0, n);
      status := if |pages| < n then PartialCompletion else Success;
    }

    /** MmFreePhysicalPages: each page of the descriptor goes to the front of the free list. */
    method FreePhysicalPages(pages: seq<nat>)
      requires Good() && Distinct(pages)
      requires forall i :: 0 <= i < |pages| ==> pages[i] < ppd.Length && ppd[pages[i]].location != FREE
      modifies this`lists, ppd, heads
      ensures Good() && |old(lists)| == LISTS && Relocated(old(ppd[..]), ppd[..], pages, FREE)
      ensures (forall i :: 0 <= i < |pages| ==> old(ppd[pages[i]].location) >= LISTS) ==> lists == AfterFreeing(old(lists), pages)
    {
      hide AllChained, OnlyWords, Reversed, Distinct, Relocated;
      ghost var p0, ls0 := ppd[..], lists;
      Shape(p0, heads[..], lists, -1);
      NoneRelocated(p0, FREE);
      NothingReversed();
      assert pages[..0] == [] && [] + ls0[FREE] == ls0[FREE];
      for i := 0 to |pages|
        invariant Good() && Relocated(p0, ppd[..], pages[..i], FREE)
        invariant (forall j :: 0 <= j < |pages| ==> p0[pages[j]].location >= LISTS) ==>
          lists == AfterFreeing(ls0, pages[..i])
      {
        ghost var p1 := ppd[..];
        NotYet(p0, p1, pages, i, FREE);
        ChangePageLocation(pages[i], FREE);
        OneMoreRelocated(p0, p1, ppd[..], pages, i, FREE);
        FreedOneMore(ls0, pages, i);
      }
      assert pages[..|pages|] == pages;
    }

    // -------------------------------------------------------------- zeroing, trimming and faulting back

    /** One pass of MiZeroPageThread: every free page goes to the zeroed list. */
    method ZeroPass()
      requires Good()
      modifies this`lists, ppd, heads
      ensures Good() && |old(lists)| == LISTS
      ensures lists == old(lists)[FREE := []][ZEROED := Reversed(old(lists)[FREE]) + old(lists)[ZEROED]]
      ensures Relocated(old(ppd[..]), ppd[..], old(lists)[FREE], ZEROED)
    {
      hide AllChained, OnlyWords, Reversed, Relocated;
      ghost var p0, ls0 := ppd[..], lists;
      Shape(p0, heads[..], lists, -1);
      HeadOf(p0, heads[..], lists, FREE);
      ghost var list := lists[FREE];
      assert list[0..] == list && list[..0] == [] && [] + lists[ZEROED] == lists[ZEROED];
      NoneRelocated(p0, ZEROED);
      NothingReversed();
      var cur := heads[FREE];
      ghost var k := 0;
      while cur != NULL
        invariant Good() && 0 <= k <= |list| && cur == HeadWord(list[k..])
        invariant lists == ls0[FREE := list[k..]][ZEROED := Reversed(list[..k]) + ls0[ZEROED]]
        invariant Relocated(p0, ppd[..], list[..k], ZEROED)
        decreases |list| - k
      {
        HeadOf(ppd[..], heads[..], lists, FREE);
        var f := cur - 1;
        var next := ppd[f].u1;
        ghost var p1 := ppd[..];
        ChangePageLocation(f, ZEROED);
        OneMoreRelocated(p0, p1, ppd[..], list, k, ZEROED);
        ZeroedOneMore(ls0, list, k);
        assert list[k..][1..] == list[k + 1..];
        cur := next;
        k := k + 1;
      }
      assert list[..k] == list && list[k..] == [];
    }

    /** The page database part of MmTrimPage: a dirty page is modified, a clean one on standby. */
    method TrimPage(f: nat, dirty: bool)
      requires Good() && f < ppd.Length && ppd[f].location == ACTIVE
      modifies this`lists, ppd, heads
      ensures Good() && |old(lists)| == LISTS
      ensures lists == AfterMove(old(lists), ACTIVE, if dirty then MODIFIED else STANDBY, f)
      ensures ppd[f].location == if dirty then MODIFIED else STANDBY
      ensures OnlyWords(old(ppd[..])[f := old(ppd[f]).(modified := old(ppd[f].modified) || dirty)], ppd[..], f)
    {
      hide AllChained, Unlinked, Linked;
      if dirty {
        ghost var p := ppd[..];
        ppd[f] := ppd[f].(modified := true);
        OffListKeeps(p, heads[..], lists, f, ppd[f]);
        assert ppd[..] == p[f := ppd[f]];
        ghost var q := ppd[..];
        ChangePageLocation(f, MODIFIED);
        assert forall g :: 0 <= g < ppd.Length ==> ppd[g] == ppd[..][g];
      } else {
        ChangePageLocation(f, STANDBY);
        assert forall g :: 0 <= g < ppd.Length ==> ppd[g] == ppd[..][g];
      }
    }

    /** The trimmed case of MmAccessFault takes the page back from whatever list it is on. */
    method TrimmedFault(f: nat)
      requires Good() && f < ppd.Length && ppd[f].location != ACTIVE
      modifies this`lists, ppd, heads
      ensures Good() && |old(lists)| == LISTS && (old(ppd[f].location) < LISTS ==> f in old(lists)[old(ppd[f].location)])
      ensures lists == AfterMove(old(lists), old(ppd[f].location), ACTIVE, f) && ppd[f].location == ACTIVE
      ensures OnlyWords(old(ppd[..]), ppd[..], f)
    {
      ChangePageLocation(f, ACTIVE);
    }

    // -------------------------------------------------------------- mapping

    /** What mapping a page does to its descriptor: the first mapping stores the words of an active page. */
    method MapPage(f: nat, pte: int, wsIndex: int)
      requires Good() && f < ppd.Length && ppd[f].location >= ACTIVE
      modifies ppd
      ensures Good() && ppd[..] == old(ppd[..])[f := Mapped(old(ppd[f]), pte, wsIndex)]
      ensures old(ppd[f].shareCount) < 31 ==> ppd[f].shareCount == old(ppd[f].shareCount) + 1
      ensures old(ppd[f].shareCount) == 0 ==> ppd[f].u1 == wsIndex && ppd[f].u2 == pte
      ensures 0 < old(ppd[f].shareCount) < 32 ==> ppd[f].u1 == old(ppd[f].u1) && ppd[f].u2 == old(ppd[f].u2)
    {
      ghost var p := ppd[..];
      ppd[f] := ppd[f].(shareCount := (ppd[f].shareCount + 1) % 32);
      if ppd[f].shareCount == 1 {
        ppd[f] := ppd[f].(u2 := pte);
        ppd[f] := ppd[f].(u1 := wsIndex);
      }
      assert ppd[..] == p[f := ppd[f]];
      OffListKeeps(p, heads[..], lists, f, ppd[f]);
    }

    /** What unmapping a page does to its descriptor: the last one stores no working-set index.  `cleared` is
        the index whose entry of the working set is marked absent, which is outside the array for a page
        that was in no working set. */
    method UnmapPage(f: nat) returns (cleared: Option<int>)
      requires Good() && f < ppd.Length && ppd[f].location >= ACTIVE
      modifies ppd
      ensures Good() && ppd[..] == old(ppd[..])[f := Unmapped(old(ppd[f]))]
      ensures 0 < old(ppd[f].shareCount) < 32 ==> ppd[f].shareCount == old(ppd[f].shareCount) - 1 && ppd[f].u2 == old(ppd[f].u2)
      ensures 0 < old(ppd[f].shareCount) < 32 ==>
        ppd[f].u1 == if old(ppd[f].shareCount) == 1 then 0xFFFF_FFFF else old(ppd[f].u1)
      ensures cleared == if (old(ppd[f].shareCount) + 31) % 32 == 0 then Some(old(ppd[f].u1)) else None
    {
      cleared := None;
      ghost var p := ppd[..];
      ppd[f] := ppd[f].(shareCount := (ppd[f].shareCount + 31) % 32);
      if ppd[f].shareCount == 0 {
        cleared := Some(ppd[f].u1);
        ppd[f] := ppd[f].(u1 := NO_INDEX);
      }
      assert ppd[..] == p[f := ppd[f]];
      OffListKeeps(p, heads[..], lists, f, ppd[f]);
    }

    /** MmUnlockPages: mark the working-set entry of each page; the descriptors stay as they are. */
    method UnlockPages(pages: seq<nat>) returns (unlocked: seq<int>)
      requires forall i :: 0 <= i < |pages| ==> pages[i] < ppd.Length
      ensures |unlocked| == |pages| && forall i :: 0 <= i < |pages| ==> unlocked[i] == ppd[pages[i]].u1
    {
      unlocked := [];
      for i := 0 to |pages|
        invariant |unlocked| == i && forall j :: 0 <= j < i ==> unlocked[j] == ppd[pages[j]].u1
      {
        unlocked := unlocked + [ppd[pages[i]].u1];
      }
    }

    /** MmFreeMmd: unmap, then unlock, then free, so that no active word is stored in a page on a list.
        `unlocked` are the working-set indices whose entries the unlocking marks: those the descriptors hold
        then, which for a page whose last mapping has just gone is NO_INDEX, outside the array. */
    method FreeMmd(pages: seq<nat>, mapped: bool, locked: bool, owned: bool) returns (unlocked: seq<int>)
      requires Good() && Distinct(pages)
      requires forall i :: 0 <= i < |pages| ==> pages[i] < ppd.Length && ppd[pages[i]].location >= ACTIVE
      modifies this`lists, ppd, heads
      ensures Good() && |old(lists)| == LISTS
      ensures lists == if owned then AfterFreeing(old(lists), pages) else old(lists)
      ensures MmdFreed(old(ppd[..]), ppd[..], pages, mapped, owned)
      ensures |unlocked| == if locked then |pages| else 0
      ensures locked ==> forall i :: 0 <= i < |pages| ==>
        unlocked[i] == (if mapped then Unmapped(old(ppd[pages[i]])) else old(ppd[pages[i]])).u1
    {
      hide AllChained, Distinct, MmdFreed, Relocated, MmdUnmapped, Unmapped;
      ghost var p0 := ppd[..];
      Shape(p0, heads[..], lists, -1);
      NoneUnmapped(p0);
      if mapped {
        UnmapPages(pages);
      }
      ghost var p1 := ppd[..];
      UnmappedAt(p0, p1, if mapped then pages else [], pages);
      unlocked := [];
      if locked {
        unlocked := UnlockPages(pages);
      }
      NoneRelocated(p1, FREE);
      if owned {
        FreePhysicalPages(pages);
      }
      MmdFreedFrom(p0, p1, ppd[..], pages, mapped, owned);
    }

    /** MmUnmapLockedPages */
    method UnmapPages(pages: seq<nat>)
      requires Good() && Distinct(pages)
      requires forall i :: 0 <= i < |pages| ==> pages[i] < ppd.Length && ppd[pages[i]].location >= ACTIVE
      modifies ppd
      ensures Good() && MmdUnmapped(old(ppd[..]), ppd[..], pages)
    {
      hide AllChained, Distinct, MmdUnmapped, Unmapped;
      ghost var p0 := ppd[..];
      NoneUnmapped(p0);
      assert pages[..0] == [];
      for i := 0 to |pages|
        invariant Good() && MmdUnmapped(p0, ppd[..], pages[..i])
      {
        StillMapped(pages, i);
        ghost var p := ppd[..];
        OneMoreUnmapped(p0, p, pages, i);
        var cleared := UnmapPage(pages[i]);
      }
      assert pages[..|pages|] == pages;
    }
  }

  /** The pages lost one mapping each, nothing else changed. */
  ghost predicate MmdUnmapped(p: seq<Ppd>, q: seq<Ppd>, pages: seq<nat>) {
    |q| == |p| && forall g {:trigger q[g]} :: 0 <= g < |p| ==> q[g] == if g in pages then Unmapped(p[g]) else p[g]
  }

  lemma NoneUnmapped(p: seq<Ppd>)
    ensures MmdUnmapped(p, p, [])
  {
  }

  lemma OneMoreUnmapped(p: seq<Ppd>, q: seq<Ppd>, pages: seq<nat>, i: nat)
    requires i < |pages| && pages[i] < |p| && pages[i] !in pages[..i] && pages[..i + 1] == pages[..i] + [pages[i]]
    requires MmdUnmapped(p, q, pages[..i])
    ensures pages[i] < |q| && q[pages[i]].location == p[pages[i]].location
    ensures MmdUnmapped(p, q[pages[i] := Unmapped(q[pages[i]])], pages[..i + 1])
  {
    hide Unmapped;
  }

  lemma UnmappedAt(p: seq<Ppd>, q: seq<Ppd>, unmapped: seq<nat>, pages: seq<nat>)
    requires MmdUnmapped(p, q, unmapped) && (unmapped == pages || unmapped == [])
    requires forall i :: 0 <= i < |pages| ==> pages[i] < |p|
    ensures |q| == |p| && forall i :: 0 <= i < |pages| ==> q[pages[i]].location == p[pages[i]].location
    ensures forall i :: 0 <= i < |pages| ==> q[pages[i]].u1 == (if unmapped == pages then Unmapped(p[pages[i]]) else p[pages[i]]).u1
  {
    forall i | 0 <= i < |pages|
      ensures pages[i] in pages
    {
    }
  }

  /** What freeing an MMD does to the descriptors: its pages lost a mapping if it was mapped and went to the
      free list if it owned them; all others stayed where they were, and those on no list as they were. */
  ghost predicate MmdFreed(p: seq<Ppd>, q: seq<Ppd>, pages: seq<nat>, mapped: bool, owned: bool) {
    && |q| == |p|
    && forall g {:trigger q[g]} :: 0 <= g < |p| ==>
         && q[g].location == (if owned && g in pages then FREE else p[g].location)
         && q[g].shareCount == (if mapped && g in pages then Unmapped(p[g]) else p[g]).shareCount
         && q[g].modified == p[g].modified
         && (g !in pages && p[g].location >= LISTS ==> q[g] == p[g])
         && (!owned ==> q[g] == if mapped && g in pages then Unmapped(p[g]) else p[g])
  }

  lemma MmdFreedFrom(p0: seq<Ppd>, p1: seq<Ppd>, p2: seq<Ppd>, pages: seq<nat>, mapped: bool, owned: bool)
    requires MmdUnmapped(p0, p1, if mapped then pages else [])
    requires Relocated(p1, p2, if owned then pages else [], FREE) && (!owned ==> p2 == p1)
    ensures MmdFreed(p0, p2, pages, mapped, owned)
  {
    forall g {:trigger p2[g]} | 0 <= g < |p0|
      ensures p1[g] == if mapped && g in pages then Unmapped(p0[g]) else p0[g]
    {
    }
    hide Unmapped, MmdUnmapped;
    UnmappedSame();
  }

  lemma UnmappedSame()
    ensures forall d :: Unmapped(d).location == d.location && Unmapped(d).modified == d.modified
  {
  }

  lemma StillMapped(pages: seq<nat>, i: nat)
    requires Distinct(pages) && i < |pages|
    ensures pages[i] !in pages[..i] && pages[..i + 1] == pages[..i] + [pages[i]]
  {
  }

  /** The pages went to a location, all others stayed where they were, and those on no list as they were. */
  ghost predicate Relocated(p: seq<Ppd>, q: seq<Ppd>, pages: seq<nat>, location: nat) {
    && |p| == |q|
    && (forall g {:trigger q[g]} :: 0 <= g < |p| ==>
         && q[g].location == (if g in pages then location else p[g].location)
         && (g !in pages && p[g].location >= LISTS ==> q[g] == p[g])
         && q[g].modified == p[g].modified && q[g].shareCount == p[g].shareCount)
  }

  lemma NoneRelocated(p: seq<Ppd>, location: nat)
    ensures Relocated(p, p, [], location)
  {
  }

  lemma OneMoreRelocated(p: seq<Ppd>, q: seq<Ppd>, r: seq<Ppd>, pages: seq<nat>, k: nat, location: nat)
    requires k < |pages| && pages[k] < |q| && Relocated(p, q, pages[..k], location)
    requires |r| == |q| && pages[k] < |r| && OnlyWords(q, r, pages[k]) && r[pages[k]].location == location
    ensures Relocated(p, r, pages[..k + 1], location)
  {
    var a, b := pages[..k], pages[..k + 1];
    assert b == a + [pages[k]];
    forall g {:trigger r[g]} | 0 <= g < |p|
      ensures r[g].location == (if g in b then location else p[g].location)
      ensures g !in b && p[g].location >= LISTS ==> r[g] == p[g]
      ensures r[g].modified == p[g].modified && r[g].shareCount == p[g].shareCount
    {
      var x := q[g];
    }
  }

  lemma RelocatedTwice(p: seq<Ppd>, q: seq<Ppd>, r: seq<Ppd>, a: seq<nat>, b: seq<nat>, location: nat)
    requires Relocated(p, q, a, location) && Relocated(q, r, b, location)
    ensures Relocated(p, r, a + b, location)
  {
    forall g {:trigger r[g]} | 0 <= g < |p|
      ensures r[g].location == (if g in a + b then location else p[g].location)
      ensures g !in a + b && p[g].location >= LISTS ==> r[g] == p[g]
      ensures r[g].modified == p[g].modified && r[g].shareCount == p[g].shareCount
    {
      var x := q[g];
    }
  }

  /** A page further on among distinct ones has not been moved yet. */
  lemma NotYet(p: seq<Ppd>, q: seq<Ppd>, pages: seq<nat>, i: nat, location: nat)
    requires Distinct(pages) && i < |pages| && pages[i] < |p| && Relocated(p, q, pages[..i], location)
    ensures pages[i] < |q| && q[pages[i]].location == p[pages[i]].location
  {
    var x := q[pages[i]];
    assert pages[i] !in pages[..i];
  }

  lemma FreedOneMore(lists: seq<seq<nat>>, pages: seq<nat>, i: nat)
    requires |lists| == LISTS && i < |pages|
    ensures var a := AfterFreeing(lists, pages[..i]);
      a[FREE := [pages[i]] + a[FREE]] == AfterFreeing(lists, pages[..i + 1])
  {
    hide Reversed;
    assert pages[..i + 1] == pages[..i] + [pages[i]];
    ReversedMore(pages[..i], pages[i]);
    assert [pages[i]] + (Reversed(pages[..i]) + lists[FREE]) == ([pages[i]] + Reversed(pages[..i])) + lists[FREE];
  }

  lemma ZeroedOneMore(lists: seq<seq<nat>>, list: seq<nat>, k: nat)
    requires |lists| == LISTS && k < |list|
    ensures var a := lists[FREE := list[k..]][ZEROED := Reversed(list[..k]) + lists[ZEROED]];
      a[FREE := list[k..][1..]][ZEROED := [list[k]] + a[ZEROED]]
      == lists[FREE := list[k + 1..]][ZEROED := Reversed(list[..k + 1]) + lists[ZEROED]]
  {
    hide Reversed;
    assert list[..k + 1] == list[..k] + [list[k]] && list[k..][1..] == list[k + 1..];
    ReversedMore(list[..k], list[k]);
    assert [list[k]] + (Reversed(list[..k]) + lists[ZEROED]) == ([list[k]] + Reversed(list[..k])) + lists[ZEROED];
  }

  lemma NothingReversed()
    ensures Reversed([]) == []
  {
  }

  /** The head word names the first page of a list, whose next pointer names the second. */
  lemma HeadOf(p: seq<Ppd>, heads: seq<int>, lists: seq<seq<nat>>, l: nat)
    requires Valid(p, heads, lists) && l < LISTS
    ensures |heads| == |lists| == LISTS && heads[l] == HeadWord(lists[l])
    ensures lists[l] != [] ==> var f := lists[l][0];
      && f < |p| && p[f].location == l && p[f].u1 == HeadWord(lists[l][1..])
      && IndexOf(lists[l], f) == 0 && Without(lists[l], 0) == lists[l][1..]
  {
    assert Chained(p, heads[l], lists[l], l);
    if lists[l] != [] {
      assert Link(p, lists[l], l, 0);
    }
  }

  lemma NoWords(p: seq<Ppd>, f: nat)
    ensures OnlyWords(p, p, f)
  {
  }

  lemma LooseKeeps(p: seq<Ppd>, heads: seq<int>, lists: seq<seq<nat>>, f: nat)
    requires Valid(p, heads, lists) && f < |p| && p[f].location >= LISTS
    ensures AllChained(p, heads, lists, f)
  {
    forall l {:trigger lists[l]} | 0 <= l < LISTS
      ensures f !in lists[l]
    {
      OnItsList(p, heads, lists, f, l);
    }
  }
}
