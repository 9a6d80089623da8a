/** The lists of the physical page database: doubly linked, ended by NULL, threaded through two words of
    each page descriptor that mean something else once the page is active (kernel/mm.cpp, kernel/inc/mm.h). */
module PageLists {
  import opened Common

  // PAGE_LOCATION; the first four are lists.
  const ZEROED := 0
  const FREE := 1
  const MODIFIED := 2
  const STANDBY := 3
  const ACTIVE := 4
  const TRANSITION := 5
  const RESERVED := 6

  const LISTS := 4
  const NULL := 0

  /** MMPPD.  In a list u1 is NextFlink and u2 PrevBlink; for an active page u1 is WsIndex and u2
      PointerPte.  The pointer to the descriptor of frame f is the word f + 1. */
  datatype Ppd = Ppd(u1: int, u2: int, location: nat, modified: bool, shareCount: nat)

  function Pointer(f: nat): int { f + 1 }

  function NextWord(list: seq<nat>, k: nat): int {
    if k + 1 < |list| then Pointer(list[k + 1]) else NULL
  }

  function PrevWord(list: seq<nat>, k: nat): int
    requires k < |list|
  {
    if k > 0 then Pointer(list[k - 1]) else NULL
  }

  function HeadWord(list: seq<nat>): int {
    if list == [] then NULL else Pointer(list[0])
  }

  ghost predicate Link(p: seq<Ppd>, list: seq<nat>, location: nat, k: nat)
    requires k < |list|
  {
    && list[k] < |p| && p[list[k]].location == location
    && p[list[k]].u1 == NextWord(list, k) && p[list[k]].u2 == PrevWord(list, k)
  }

  /** From the head on, next pointers give the list, ended by NULL, and back pointers match. */
  ghost predicate Chained(p: seq<Ppd>, head: int, list: seq<nat>, location: nat) {
    && head == HeadWord(list) && Distinct(list)
    && (forall k {:trigger Link(p, list, location, k)} :: 0 <= k < |list| ==> Link(p, list, location, k))
  }

  /** Each list is chained and holds the pages that say so, page `loose` aside. */
  ghost predicate AllChained(p: seq<Ppd>, heads: seq<int>, lists: seq<seq<nat>>, loose: int) {
    && |heads| == |lists| == LISTS
    && (forall l {:trigger Chained(p, heads[l], lists[l], l)} :: 0 <= l < LISTS ==> Chained(p, heads[l], lists[l], l))
    && (forall f {:trigger p[f].location} :: 0 <= f < |p| && f != loose && p[f].location < LISTS ==> f in lists[p[f].location])
    && (forall f {:trigger p[f].location} :: 0 <= f < |p| ==> p[f].location <= RESERVED)
    && (forall l {:trigger lists[l]} :: 0 <= l < LISTS ==> loose !in lists[l])
  }

  /** Every page is on exactly the list its location names, or on none. */
  ghost predicate Valid(p: seq<Ppd>, heads: seq<int>, lists: seq<seq<nat>>) {
    AllChained(p, heads, lists, -1)
  }

  function IndexOf(list: seq<nat>, f: nat): (k: nat)
    requires f in list
    ensures k < |list| && list[k] == f && forall j :: 0 <= j < k ==> list[j] != f
  {
    if list[0] == f then 0 else 1 + IndexOf(list[1..], f)
  }

  /** The descriptors after MiUnlinkPpd: the neighbours point past the page. */
  function Unlinked(p: seq<Ppd>, f: nat): (r: seq<Ppd>)
    requires f < |p| && 0 <= p[f].u1 <= |p| && 0 <= p[f].u2 <= |p|
    ensures |r| == |p|
  {
    var prev, next := p[f].u2, p[f].u1;
    var q := if prev != NULL then p[prev - 1 := p[prev - 1].(u1 := next)] else p;
    if next != NULL then q[next - 1 := q[next - 1].(u2 := prev)] else q
  }

  lemma WordsInRange(p: seq<Ppd>, heads: seq<int>, lists: seq<seq<nat>>, f: nat)
    requires Valid(p, heads, lists) && f < |p| && p[f].location < LISTS
    ensures f in lists[p[f].location]
    ensures var list := lists[p[f].location]; var k := IndexOf(list, f);
      && p[f].u1 == NextWord(list, k) && p[f].u2 == PrevWord(list, k) && 0 <= p[f].u1 <= |p| && 0 <= p[f].u2 <= |p|
  {
    var l := p[f].location;
    var list := lists[l];
    assert Chained(p, heads[l], list, l);
    var k := IndexOf(list, f);
    assert Link(p, list, l, k);
    assert k + 1 < |list| ==> Link(p, list, l, k + 1);
    assert k > 0 ==> Link(p, list, l, k - 1);
  }

  /** The heads after MiUnlinkPpd. */
  function UnlinkedHeads(p: seq<Ppd>, heads: seq<int>, f: nat): seq<int>
    requires f < |p| && p[f].location < |heads|
  {
    if p[f].u2 == NULL then heads[p[f].location := p[f].u1] else heads
  }

  /** The lists after it. */
  function UnlinkedLists(p: seq<Ppd>, lists: seq<seq<nat>>, f: nat): seq<seq<nat>>
    requires f < |p| && p[f].location < |lists| && f in lists[p[f].location]
  {
    lists[p[f].location := Without(lists[p[f].location], IndexOf(lists[p[f].location], f))]
  }

  /** Unlinking takes the page out of its list and leaves every other list alone. */
  lemma UnlinkKeeps(p: seq<Ppd>, heads: seq<int>, lists: seq<seq<nat>>, f: nat)
    requires Valid(p, heads, lists) && f < |p| && p[f].location < LISTS
    ensures |heads| == |lists| == LISTS && f in lists[p[f].location] && 0 <= p[f].u1 <= |p| && 0 <= p[f].u2 <= |p|
    ensures AllChained(Unlinked(p, f), UnlinkedHeads(p, heads, f), UnlinkedLists(p, lists, f), f)
    ensures Unlinked(p, f)[f] == p[f]
  {
    hide Chained, Link, Unlinked, Distinct, UnlinkedHeads, UnlinkedLists;
    WordsInRange(p, heads, lists, f);
    UnlinkedShape(p, heads, lists, f);
    forall m {:trigger Chained(Unlinked(p, f), UnlinkedHeads(p, heads, f)[m], UnlinkedLists(p, lists, f)[m], m)} | 0 <= m < LISTS
      ensures Chained(Unlinked(p, f), UnlinkedHeads(p, heads, f)[m], UnlinkedLists(p, lists, f)[m], m)
    {
      UnlinkedChain(p, heads, lists, f, m);
    }
    forall m {:trigger UnlinkedLists(p, lists, f)[m]} | 0 <= m < LISTS
      ensures f !in UnlinkedLists(p, lists, f)[m]
    {
      UnlinkedChain(p, heads, lists, f, m);
    }
    var q := Unlinked(p, f);
    forall g {:trigger q[g].location} | 0 <= g < |q|
      ensures q[g].location <= RESERVED
      ensures g != f && q[g].location < LISTS ==> g in UnlinkedLists(p, lists, f)[q[g].location]
    {
      assert q[g].location == p[g].location;
      if g != f && p[g].location < LISTS {
        StaysListed(p, lists, f, g);
      }
    }
  }

  lemma UnlinkedShape(p: seq<Ppd>, heads: seq<int>, lists: seq<seq<nat>>, f: nat)
    requires Valid(p, heads, lists) && f < |p| && p[f].location < LISTS
    ensures |heads| == |lists| == LISTS && f in lists[p[f].location] && 0 <= p[f].u1 <= |p| && 0 <= p[f].u2 <= |p|
    ensures |UnlinkedHeads(p, heads, f)| == |UnlinkedLists(p, lists, f)| == LISTS
    ensures var q := Unlinked(p, f);
      && q[f] == p[f]
      && (forall g {:trigger q[g]} :: 0 <= g < |p| ==> q[g].location == p[g].location)
      && (forall g :: 0 <= g < |p| && p[g].location != p[f].location ==> q[g] == p[g])
  {
    var l := p[f].location;
    WordsInRange(p, heads, lists, f);
    assert Chained(p, heads[l], lists[l], l);
    Neighbours(p, heads[l], lists[l], l, IndexOf(lists[l], f));
    hide AllChained, Chained, Unlinked;
    UnlinkedSpares(p, f);
  }

  lemma UnlinkedChain(p: seq<Ppd>, heads: seq<int>, lists: seq<seq<nat>>, f: nat, m: nat)
    requires Valid(p, heads, lists) && f < |p| && p[f].location < LISTS && m < LISTS
    ensures |heads| == |lists| == LISTS && f in lists[p[f].location] && 0 <= p[f].u1 <= |p| && 0 <= p[f].u2 <= |p|
    ensures Chained(Unlinked(p, f), UnlinkedHeads(p, heads, f)[m], UnlinkedLists(p, lists, f)[m], m)
    ensures f !in UnlinkedLists(p, lists, f)[m]
  {
    hide Link, Unlinked, Distinct;
    UnlinkedShape(p, heads, lists, f);
    assert Chained(p, heads[m], lists[m], m);
    if m == p[f].location {
      var k := IndexOf(lists[m], f);
      WithoutChained(p, heads[m], lists[m], m, k);
      GoneFrom(lists[m], k);
    } else {
      OthersChained(p, Unlinked(p, f), heads[m], lists[m], m, p[f].location);
      NotInOther(p, heads[m], lists[m], m, f);
    }
  }

  lemma StaysListed(p: seq<Ppd>, lists: seq<seq<nat>>, f: nat, g: nat)
    requires f < |p| && p[f].location < |lists| && f in lists[p[f].location]
    requires g < |p| && g != f && p[g].location < |lists| && g in lists[p[g].location]
    ensures g in UnlinkedLists(p, lists, f)[p[g].location]
  {
    if p[g].location == p[f].location {
      StillIn(lists[p[f].location], IndexOf(lists[p[f].location], f), g);
    }
  }

  /** Unlinking stores link words in the neighbours alone, which are other pages of the same list. */
  lemma UnlinkedSpares(p: seq<Ppd>, f: nat)
    requires f < |p| && 0 <= p[f].u1 <= |p| && 0 <= p[f].u2 <= |p|
    requires p[f].u1 != NULL ==> p[f].u1 - 1 != f && p[p[f].u1 - 1].location == p[f].location
    requires p[f].u2 != NULL ==> p[f].u2 - 1 != f && p[p[f].u2 - 1].location == p[f].location
    ensures var q := Unlinked(p, f);
      && q[f] == p[f]
      && (forall g {:trigger q[g]} :: 0 <= g < |p| ==> q[g].location == p[g].location)
      && (forall g :: 0 <= g < |p| && p[g].location != p[f].location ==> q[g] == p[g])
  {
  }

  /** The neighbours of a listed page are other pages of the list. */
  lemma Neighbours(p: seq<Ppd>, head: int, list: seq<nat>, l: nat, k: nat)
    requires Chained(p, head, list, l) && k < |list|
    ensures k > 0 ==> Link(p, list, l, k - 1) && list[k - 1] != list[k]
    ensures k + 1 < |list| ==> Link(p, list, l, k + 1) && list[k + 1] != list[k]
    ensures Link(p, list, l, k)
  {
  }

  lemma StillIn(list: seq<nat>, k: nat, g: nat)
    requires k < |list| && g in list && g != list[k]
    ensures g in Without(list, k)
  {
    var j :| 0 <= j < |list| && list[j] == g;
    assert Without(list, k)[if j < k then j else j - 1] == g;
  }

  lemma GoneFrom(list: seq<nat>, k: nat)
    requires k < |list| && Distinct(list)
    ensures list[k] !in Without(list, k)
  {
    forall j | 0 <= j < |Without(list, k)|
      ensures Without(list, k)[j] != list[k]
    {
      assert Without(list, k)[j] == list[if j < k then j else j + 1];
    }
  }

  lemma NotInOther(p: seq<Ppd>, head: int, list: seq<nat>, m: nat, f: nat)
    requires Chained(p, head, list, m) && f < |p| && p[f].location != m
    ensures f !in list
  {
    forall k | 0 <= k < |list|
      ensures list[k] != f
    {
      assert Link(p, list, m, k);
    }
  }

  /** A list none of whose pages is in list l is not touched by what happens to list l. */
  lemma OthersChained(p: seq<Ppd>, q: seq<Ppd>, head: int, list: seq<nat>, m: nat, l: nat)
    requires Chained(p, head, list, m) && m != l && |q| == |p|
    requires forall f :: 0 <= f < |p| && p[f].location != l ==> q[f] == p[f]
    ensures Chained(q, head, list, m)
  {
    forall k {:trigger Link(q, list, m, k)} | 0 <= k < |list|
      ensures Link(q, list, m, k)
    {
      assert Link(p, list, m, k);
    }
  }

  lemma WithoutChained(p: seq<Ppd>, head: int, list: seq<nat>, l: nat, k: nat)
    requires Chained(p, head, list, l) && k < |list|
    requires list[k] < |p| && 0 <= p[list[k]].u1 <= |p| && 0 <= p[list[k]].u2 <= |p|
    ensures Chained(Unlinked(p, list[k]), if p[list[k]].u2 == NULL then p[list[k]].u1 else head, Without(list, k), l)
  {
    var f, q, list' := list[k], Unlinked(p, list[k]), Without(list, k);
    Neighbours(p, head, list, l, k);
    forall i, j | 0 <= i < j < |list'|
      ensures list'[i] != list'[j]
    {
      assert list'[i] == list[if i < k then i else i + 1] && list'[j] == list[if j < k then j else j + 1];
    }
    forall j {:trigger Link(q, list', l, j)} | 0 <= j < |list'|
      ensures Link(q, list', l, j)
    {
      var i := if j < k then j else j + 1;
      assert list'[j] == list[i] && Link(p, list, l, i);
    }
  }

  /** The descriptors after MiLinkPpd puts page f in front of the list with that head. */
  function Linked(p: seq<Ppd>, head: int, f: nat): (r: seq<Ppd>)
    requires f < |p| && 0 <= head <= |p|
    ensures |r| == |p|
  {
    var q := p[f := p[f].(u1 := head, u2 := NULL)];
    if head != NULL then q[head - 1 := q[head - 1].(u2 := Pointer(f))] else q
  }

  /** Linking a loose page puts it first in its new list. */
  lemma LinkKeeps(p: seq<Ppd>, heads: seq<int>, lists: seq<seq<nat>>, f: nat, l: nat)
    requires AllChained(p, heads, lists, f) && f < |p| && l < LISTS
    ensures 0 <= heads[l] <= |p|
    ensures var q := Linked(p, heads[l], f);
      Valid(q[f := q[f].(location := l)], heads[l := Pointer(f)], lists[l := [f] + lists[l]])
  {
    var list := lists[l];
    assert Chained(p, heads[l], list, l) && f !in lists[l];
    assert list != [] ==> Link(p, list, l, 0);
    var q0 := Linked(p, heads[l], f);
    var q := q0[f := q0[f].(location := l)];
    var heads', lists' := heads[l := Pointer(f)], lists[l := [f] + list];
    forall m {:trigger Chained(q, heads'[m], lists'[m], m)} | 0 <= m < LISTS
      ensures Chained(q, heads'[m], lists'[m], m)
    {
      assert Chained(p, heads[m], lists[m], m) && f !in lists[m];
      if m == l {
        InFront(p, q, heads[l], list, l, f);
      } else {
        AwayFrom(p, q, heads[m], lists[m], m, l, f);
      }
    }
    forall g {:trigger q[g].location} | 0 <= g < |q|
      ensures q[g].location <= RESERVED && (g != -1 && q[g].location < LISTS ==> g in lists'[q[g].location])
    {
      assert g != f ==> q[g].location == p[g].location;
      assert lists'[l][0] == f;
      assert forall x :: x in list ==> x in lists'[l];
    }
    forall m {:trigger lists'[m]} | 0 <= m < LISTS
      ensures -1 !in lists'[m]
    {
    }
  }

  lemma InFront(p: seq<Ppd>, q: seq<Ppd>, head: int, list: seq<nat>, l: nat, f: nat)
    requires Chained(p, head, list, l) && f < |p| && f !in list && 0 <= head <= |p|
    requires q == Linked(p, head, f)[f := Linked(p, head, f)[f].(location := l)]
    ensures Chained(q, Pointer(f), [f] + list, l)
  {
    var list' := [f] + list;
    forall k {:trigger Link(q, list', l, k)} | 0 <= k < |list'|
      ensures Link(q, list', l, k)
    {
      if k > 0 {
        assert Link(p, list, l, k - 1) && list'[k] == list[k - 1];
      }
    }
  }

  lemma AwayFrom(p: seq<Ppd>, q: seq<Ppd>, head: int, list: seq<nat>, m: nat, l: nat, f: nat)
    requires Chained(p, head, list, m) && m != l && f !in list && |q| == |p|
    requires forall g :: 0 <= g < |p| && g != f && p[g].location != l ==> q[g] == p[g]
    ensures Chained(q, head, list, m)
  {
    forall k {:trigger Link(q, list, m, k)} | 0 <= k < |list|
      ensures Link(q, list, m, k)
    {
      assert Link(p, list, m, k);
    }
  }

  /** Writing the words of an active page, or making a loose page one that is on no list. */
  lemma OffListKeeps(p: seq<Ppd>, heads: seq<int>, lists: seq<seq<nat>>, f: nat, d: Ppd)
    requires AllChained(p, heads, lists, f) || (Valid(p, heads, lists) && f < |p| && p[f].location >= LISTS)
    requires f < |p| && LISTS <= d.location <= RESERVED
    ensures Valid(p[f := d], heads, lists)
  {
    var q := p[f := d];
    forall m {:trigger Chained(q, heads[m], lists[m], m)} | 0 <= m < LISTS
      ensures Chained(q, heads[m], lists[m], m) && -1 !in lists[m]
    {
      assert Chained(p, heads[m], lists[m], m);
      forall k {:trigger Link(q, lists[m], m, k)} | 0 <= k < |lists[m]|
        ensures Link(q, lists[m], m, k)
      {
        assert Link(p, lists[m], m, k) && lists[m][k] != f;
      }
    }
    forall g {:trigger q[g].location} | 0 <= g < |q|
      ensures q[g].location <= RESERVED && (q[g].location < LISTS ==> g in lists[q[g].location])
    {
      assert g != f ==> q[g].location == p[g].location;
    }
  }

  /** Nothing but link words changed, and those only in listed pages, page f aside. */
  ghost predicate OnlyWords(p: seq<Ppd>, q: seq<Ppd>, f: nat) {
    && |p| == |q|
    && (forall g {:trigger q[g]} :: 0 <= g < |p| ==>
         && q[g].modified == p[g].modified && q[g].shareCount == p[g].shareCount
         && (g != f ==> q[g].location == p[g].location && (p[g].location >= LISTS ==> q[g] == p[g])))
  }

  lemma OnlyWordsTwice(p: seq<Ppd>, q: seq<Ppd>, r: seq<Ppd>, f: nat)
    requires OnlyWords(p, q, f) && OnlyWords(q, r, f)
    ensures OnlyWords(p, r, f)
  {
    forall g {:trigger r[g]} | 0 <= g < |p|
      ensures g != f ==> r[g].location == p[g].location && (p[g].location >= LISTS ==> r[g] == p[g])
      ensures r[g].modified == p[g].modified && r[g].shareCount == p[g].shareCount
    {
      var x := q[g];
    }
  }

  lemma UnlinkOnlyWords(p: seq<Ppd>, heads: seq<int>, lists: seq<seq<nat>>, f: nat)
    requires Valid(p, heads, lists) && f < |p| && p[f].location < LISTS
    ensures 0 <= p[f].u1 <= |p| && 0 <= p[f].u2 <= |p| && OnlyWords(p, Unlinked(p, f), f)
  {
    hide AllChained, Unlinked;
    UnlinkedShape(p, heads, lists, f);
    UnlinkedData(p, f);
  }

  lemma UnlinkedData(p: seq<Ppd>, f: nat)
    requires f < |p| && 0 <= p[f].u1 <= |p| && 0 <= p[f].u2 <= |p|
    ensures var q := Unlinked(p, f);
      forall g {:trigger q[g]} :: 0 <= g < |p| ==> q[g].modified == p[g].modified && q[g].shareCount == p[g].shareCount
  {
  }

  lemma LinkOnlyWords(p: seq<Ppd>, heads: seq<int>, lists: seq<seq<nat>>, f: nat, l: nat)
    requires AllChained(p, heads, lists, f) && f < |p| && l < LISTS
    ensures 0 <= heads[l] <= |p|
    ensures var q := Linked(p, heads[l], f); OnlyWords(p, q, f) && OnlyWords(p, q[f := q[f].(location := l)], f)
  {
    assert Chained(p, heads[l], lists[l], l);
    assert lists[l] != [] ==> Link(p, lists[l], l, 0);
  }

  lemma Shape(p: seq<Ppd>, heads: seq<int>, lists: seq<seq<nat>>, loose: int)
    requires AllChained(p, heads, lists, loose)
    ensures |heads| == |lists| == LISTS
    ensures forall f {:trigger p[f]} :: 0 <= f < |p| ==> p[f].location <= RESERVED
  {
  }
}
