/** The memory the heap works on, cut into 16-byte paragraphs, and the circular
    LIST_ENTRY lists threaded through it.

    A block header (EHEAP_BLOCK, 32 bytes) fills two paragraphs.  Its first half holds Magic1,
    List and Size; its second half holds BlockType, PaddingSize, Cookie, MemoryOrderList and
    Magic2.  A list pointer always designates the LIST_ENTRY at offset 4 of some paragraph, so it
    is kept as the number of that paragraph. */
module HeapMemory {
  import opened Common

  const PARAGRAPH := 16
  const ALLOCATED_PADDING: Byte := 0xFE
  const FREED_PADDING: Byte := 0xFD

  /** What a paragraph with a LIST_ENTRY holds besides the two pointers. */
  datatype Body =
    | Anchor
    | Front(magic1: nat, size: nat)
    | Back(kind: nat, pad: nat, cookie: nat, magic2: nat)

  /** One paragraph, by what was last stored in it. */
  datatype Para =
    | Raw(b: seq<Byte>)
    | Entry(body: Body, flink: int, blink: int)
  {
    predicate Bytes16() { Raw? && |b| == PARAGRAPH }
  }

  function Fill(c: Byte): (p: Para)
    ensures p.Bytes16() && forall k :: 0 <= k < PARAGRAPH ==> p.b[k] == c
  {
    Raw(seq(PARAGRAPH, _ => c))
  }

  type Mem = seq<Para>

  /** The fields a reader finds in the first half of a header; bytes are read little-endian.  The
      pointers of a header that was never linked are not looked at. */
  function ViewFront(p: Para): (q: Para)
    ensures q.Entry? && q.body.Front?
    ensures p.Entry? && p.body.Front? ==> q == p
  {
    if p.Entry? && p.body.Front? then p
    else if p.Bytes16() then Entry(Front(Word32(p.b, 0), Word32(p.b, 12)), 0, 0)
    else Entry(Front(0, 0), 0, 0)
  }

  function ViewBack(p: Para): (q: Para)
    ensures q.Entry? && q.body.Back?
    ensures p.Entry? && p.body.Back? ==> q == p
    ensures p.Bytes16() ==> q.body.pad == p.b[1] && q.body.kind == p.b[0]
  {
    if p.Entry? && p.body.Back? then p
    else if p.Bytes16() then Entry(Back(p.b[0], p.b[1], Word16(p.b, 2), Word32(p.b, 12)), 0, 0)
    else Entry(Back(0, 0, 0, 0), 0, 0)
  }

  // ---------------------------------------------------------------- circular lists

  ghost predicate Within(m: Mem, r: seq<int>) {
    && (forall i :: 0 <= i < |r| ==> 0 <= r[i] < |m|)
    && (forall i {:trigger m[r[i]]} :: 0 <= i < |r| ==> m[r[i]].Entry?)
  }

  function Succ(r: seq<int>, i: int): int
    requires 0 <= i < |r|
  {
    if i + 1 == |r| then r[0] else r[i + 1]
  }

  function Pred(r: seq<int>, i: int): int
    requires 0 <= i < |r|
  {
    if i == 0 then r[|r| - 1] else r[i - 1]
  }

  /** r is the list headed by r[0], in order: every entry's Flink leads to its successor and its
      Blink to its predecessor, round through the head. */
  ghost predicate Ring(m: Mem, r: seq<int>) {
    && |r| > 0
    && Distinct(r)
    && Within(m, r)
    && Flinks(m, r)
    && Blinks(m, r)
  }

  ghost predicate Flinks(m: Mem, r: seq<int>)
    requires Within(m, r)
  {
    forall i {:trigger m[r[i]]} :: 0 <= i < |r| ==> m[r[i]].flink == Succ(r, i)
  }

  ghost predicate Blinks(m: Mem, r: seq<int>)
    requires Within(m, r)
  {
    forall i {:trigger m[r[i]]} :: 0 <= i < |r| ==> m[r[i]].blink == Pred(r, i)
  }

  ghost predicate SameBody(p: Para, q: Para) {
    p == q || (p.Entry? && q.Entry? && p.body == q.body)
  }

  /** Two memories differ at most in the list pointers of the entries of r. */
  ghost predicate LinksOnly(m: Mem, m': Mem, r: seq<int>) {
    && |m'| == |m|
    && (forall u :: 0 <= u < |m| ==> SameBody(m[u], m'[u]))
    && (forall u :: 0 <= u < |m| && u !in r ==> m'[u] == m[u])
  }

  /** RemoveEntryList: Blink->Flink = Flink; Flink->Blink = Blink. */
  function Unlinked(m: Mem, p: int): (m': Mem)
    requires 0 <= p < |m| && m[p].Entry?
    requires 0 <= m[p].flink < |m| && m[m[p].flink].Entry?
    requires 0 <= m[p].blink < |m| && m[m[p].blink].Entry?
    ensures |m'| == |m|
  {
    var f, b := m[p].flink, m[p].blink;
    var m1 := m[b := m[b].(flink := f)];
    m1[f := m1[f].(blink := b)]
  }

  /** Enter p between the neighbours a and c; the common effect of InsertHeadList(a, p) and
      InsertTailList(c, p). */
  function LinkedBetween(m: Mem, a: int, p: int, c: int): (m': Mem)
    requires 0 <= p < |m| && m[p].Entry?
    requires 0 <= a < |m| && m[a].Entry?
    requires 0 <= c < |m| && m[c].Entry?
    ensures |m'| == |m|
  {
    var m1 := m[p := m[p].(flink := c, blink := a)];
    var m2 := m1[a := m1[a].(flink := p)];
    m2[c := m2[c].(blink := p)]
  }

  function WithAfter(r: seq<int>, i: int, p: int): (s: seq<int>)
    requires 0 <= i < |r|
  {
    r[..i + 1] + [p] + r[i + 1..]
  }

  /** s is r with one entry p more, right after the i-th. */
  ghost predicate Widened(r: seq<int>, i: int, p: int, s: seq<int>) {
    && 0 <= i < |r| && |s| == |r| + 1
    && (forall j {:trigger s[j]} :: 0 <= j < |s| ==>
      s[j] == if j <= i then r[j] else if j == i + 1 then p else r[j - 1])
  }

  lemma WidenedDistinct(r: seq<int>, i: int, p: int, s: seq<int>)
    requires Widened(r, i, p, s)
    ensures Distinct(s) <==> Distinct(r) && p !in r
  {
    if Distinct(s) {
      forall j | 0 <= j < |r|
        ensures r[j] != p
      {
        assert r[j] == s[if j <= i then j else j + 1];
        assert s[i + 1] == p;
      }
      forall j, k | 0 <= j < k < |r|
        ensures r[j] != r[k]
      {
        assert r[j] == if j <= i then s[j] else s[j + 1];
        assert r[k] == if k <= i then s[k] else s[k + 1];
      }
    }
    if Distinct(r) && p !in r {
      forall j, k | 0 <= j < k < |s|
        ensures s[j] != s[k]
      {
        assert s[j] == if j <= i then r[j] else if j == i + 1 then p else r[j - 1];
        assert s[k] == if k <= i then r[k] else if k == i + 1 then p else r[k - 1];
      }
    }
  }

  lemma WidenedFlinks(m: Mem, m': Mem, r: seq<int>, i: int, p: int, s: seq<int>)
    requires |m'| == |m| && Widened(r, i, p, s) && Within(m, r) && Within(m', s) && Flinks(m, r)
    requires s[i + 1] == p && s[i] == r[i]
    requires m'[p].flink == Succ(r, i) && m'[r[i]].flink == p
    requires forall j {:trigger m[r[j]]} :: 0 <= j < |r| && j != i ==> m'[r[j]].Entry? && m'[r[j]].flink == m[r[j]].flink
    ensures Flinks(m', s)
  {
    forall j | 0 <= j < |s|
      ensures m'[s[j]].flink == Succ(s, j)
    {
      if j < i {
        assert m[r[j]].flink == Succ(r, j);
      } else if j > i + 1 {
        assert m[r[j - 1]].flink == Succ(r, j - 1);
      }
    }
  }

  lemma WidenedBlinks(m: Mem, m': Mem, r: seq<int>, i: int, p: int, s: seq<int>)
    requires |m'| == |m| && Widened(r, i, p, s) && Within(m, r) && Within(m', s) && Blinks(m, r) && Distinct(r)
    requires s[i + 1] == p && s[i] == r[i]
    requires m'[p].blink == r[i] && 0 <= Succ(r, i) < |m'| && m'[Succ(r, i)].Entry? && m'[Succ(r, i)].blink == p
    requires forall j {:trigger m[r[j]]} :: 0 <= j < |r| && r[j] != Succ(r, i) ==>
      m'[r[j]].Entry? && m'[r[j]].blink == m[r[j]].blink
    ensures Blinks(m', s)
  {
    forall j | 0 <= j < |s|
      ensures m'[s[j]].blink == Pred(s, j)
    {
      if j <= i {
        assert m[r[j]].blink == Pred(r, j);
      } else if j > i + 1 {
        assert m[r[j - 1]].blink == Pred(r, j - 1);
      }
    }
  }

  lemma NarrowedLinks(m: Mem, m': Mem, r: seq<int>, i: int, p: int, s: seq<int>)
    requires |m'| == |m| && Widened(r, i, p, s) && Ring(m, s) && Within(m, r) && Within(m', r) && Distinct(r)
    requires var c := Succ(r, i); 0 <= c < |m'| && m'[c].Entry? && m'[r[i]].flink == c && m'[c].blink == r[i]
    requires forall j {:trigger m'[r[j]]} :: 0 <= j < |r| && j != i ==> m'[r[j]].flink == m[r[j]].flink
    requires forall j {:trigger m'[r[j]]} :: 0 <= j < |r| && r[j] != Succ(r, i) ==> m'[r[j]].blink == m[r[j]].blink
    ensures Ring(m', r)
  {
    forall j | 0 <= j < |r|
      ensures m'[r[j]].flink == Succ(r, j) && m'[r[j]].blink == Pred(r, j)
    {
      var k := if j <= i then j else j + 1;
      assert r[j] == s[k] && m[s[k]].flink == Succ(s, k) && m[s[k]].blink == Pred(s, k);
    }
  }

  lemma UnlinkedStores(m: Mem, p: int)
    requires 0 <= p < |m| && m[p].Entry?
    requires 0 <= m[p].flink < |m| && m[m[p].flink].Entry? && m[p].flink != p
    requires 0 <= m[p].blink < |m| && m[m[p].blink].Entry? && m[p].blink != p
    ensures var m' := Unlinked(m, p); var a, c := m[p].blink, m[p].flink;
      && |m'| == |m| && m'[p] == m[p]
      && m'[a].Entry? && m'[a].body == m[a].body && m'[a].flink == c && (a != c ==> m'[a].blink == m[a].blink)
      && m'[c].Entry? && m'[c].body == m[c].body && m'[c].blink == a && (a != c ==> m'[c].flink == m[c].flink)
      && (forall u {:trigger m'[u]} :: 0 <= u < |m| && u != a && u != c ==> m'[u] == m[u])
  {
  }

  lemma LinkedStores(m: Mem, a: int, p: int, c: int)
    requires 0 <= p < |m| && m[p].Entry?
    requires 0 <= a < |m| && m[a].Entry? && a != p
    requires 0 <= c < |m| && m[c].Entry? && c != p
    ensures var m' := LinkedBetween(m, a, p, c);
      && |m'| == |m| && m'[p] == m[p].(flink := c, blink := a)
      && m'[a].Entry? && m'[a].body == m[a].body && m'[a].flink == p && (a != c ==> m'[a].blink == m[a].blink)
      && m'[c].Entry? && m'[c].body == m[c].body && m'[c].blink == p && (a != c ==> m'[c].flink == m[c].flink)
      && (forall u {:trigger m'[u]} :: 0 <= u < |m| && u != a && u != p && u != c ==> m'[u] == m[u])
  {
  }

  /** Unlinking an entry other than the head leaves the list without that entry, and touches
      nothing but list pointers of the others. */
  lemma UnlinkedRing(m: Mem, r: seq<int>, i: int)
    requires Ring(m, r) && 0 < i < |r|
    ensures var p := r[i]; var m' := Unlinked(m, p);
      Ring(m', Without(r, i)) && LinksOnly(m, m', Without(r, i)) && m'[p] == m[p]
  {
    var p := r[i];
    var s := Without(r, i);
    WithoutNarrows(r, i);
    WidenedDistinct(s, i - 1, p, r);
    var a, c := m[p].blink, m[p].flink;
    assert s[i - 1] == a && Succ(s, i - 1) == c;
    UnlinkedStores(m, p);
    UnlinkedFollows(m, Unlinked(m, p), r, i, s, a, p, c);
  }

  lemma UnlinkedFollows(m: Mem, m': Mem, r: seq<int>, i: int, s: seq<int>, a: int, p: int, c: int)
    requires Ring(m, r) && 0 < i < |r| && Widened(s, i - 1, p, r) && Distinct(s) && p !in s
    requires |m'| == |m| && s[i - 1] == a && Succ(s, i - 1) == c && a in s && c in s
    requires 0 <= a < |m| && 0 <= c < |m| && 0 <= p < |m| && m[a].Entry? && m[c].Entry?
    requires m'[a].Entry? && m'[a].body == m[a].body && m'[a].flink == c && (a != c ==> m'[a].blink == m[a].blink)
    requires m'[c].Entry? && m'[c].body == m[c].body && m'[c].blink == a && (a != c ==> m'[c].flink == m[c].flink)
    requires forall u {:trigger m'[u]} :: 0 <= u < |m| && u != a && u != c ==> m'[u] == m[u]
    ensures Ring(m', s) && LinksOnly(m, m', s) && m'[p] == m[p]
  {
    forall j | 0 <= j < |s|
      ensures 0 <= s[j] < |m| && m[s[j]].Entry? && m'[s[j]].Entry?
    {
      var k := if j <= i - 1 then j else j + 1;
      assert r[k] == s[j] && m[r[k]].Entry?;
    }
    NarrowedLinks(m, m', s, i - 1, p, r);
  }

  lemma WithoutNarrows(r: seq<int>, i: int)
    requires 0 < i < |r|
    ensures Widened(Without(r, i), i - 1, r[i], r)
    ensures var s := Without(r, i); s[i - 1] == r[i - 1] && Succ(s, i - 1) == Succ(r, i)
  {
  }

  lemma WithAfterWidens(r: seq<int>, i: int, p: int)
    requires 0 <= i < |r|
    ensures Widened(r, i, p, WithAfter(r, i, p))
    ensures var s := WithAfter(r, i, p); s[i + 1] == p && s[i] == r[i] && Succ(s, i + 1) == Succ(r, i)
  {
  }

  /** Entering p after the i-th entry gives the list with p there, and touches nothing but list
      pointers. */
  lemma LinkedRing(m: Mem, r: seq<int>, i: int, p: int)
    requires Ring(m, r) && 0 <= i < |r| && p !in r
    requires 0 <= p < |m| && m[p].Entry?
    ensures 0 <= r[i] < |m| && m[r[i]].Entry? && 0 <= Succ(r, i) < |m| && m[Succ(r, i)].Entry?
    ensures var m' := LinkedBetween(m, r[i], p, Succ(r, i));
      Ring(m', WithAfter(r, i, p)) && LinksOnly(m, m', WithAfter(r, i, p))
  {
    var s := WithAfter(r, i, p);
    WithAfterWidens(r, i, p);
    WidenedDistinct(r, i, p, s);
    var a, c := r[i], Succ(r, i);
    LinkedStores(m, a, p, c);
    var m' := LinkedBetween(m, a, p, c);
    WidenedFlinks(m, m', r, i, p, s);
    WidenedBlinks(m, m', r, i, p, s);
  }

  /** A list is untouched by stores that leave its own entries' pointers alone. */
  lemma RingFrame(m: Mem, m': Mem, r: seq<int>)
    requires Ring(m, r) && |m'| == |m|
    requires forall u :: u in r ==>
      m'[u].Entry? && m'[u].flink == m[u].flink && m'[u].blink == m[u].blink
    ensures Ring(m', r)
  {
    assert forall i {:trigger m'[r[i]]} {:trigger m[r[i]]} :: 0 <= i < |r| ==> r[i] in r;
    forall i | 0 <= i < |r|
      ensures m'[r[i]].Entry? && m'[r[i]].flink == Succ(r, i) && m'[r[i]].blink == Pred(r, i)
    {
      assert r[i] in r && m[r[i]].Entry?;
    }
  }

  /** The i-th entry has moved to q with its pointers, and its two neighbours point to q. */
  lemma MovedRing(m: Mem, m': Mem, r: seq<int>, i: int, q: int)
    requires Ring(m, r) && |m'| == |m| && 0 < i < |r| && q !in r[..i] && q !in r[i + 1..]
    requires 0 <= q < |m| && m'[q].Entry? && m'[q].flink == m[r[i]].flink && m'[q].blink == m[r[i]].blink
    requires forall j {:trigger m[r[j]]} :: 0 <= j < |r| && j != i ==>
      && m'[r[j]].Entry?
      && m'[r[j]].flink == (if r[j] == m[r[i]].blink then q else m[r[j]].flink)
      && m'[r[j]].blink == (if r[j] == m[r[i]].flink then q else m[r[j]].blink)
    ensures Ring(m', r[i := q])
  {
    var s := r[i := q];
    hide Succ, Pred;
    ReplacedDistinct(r, i, q);
    SelfReplaced(r, i, q);
    assert m[r[i]].flink == Succ(r, i) && m[r[i]].blink == Pred(r, i);
    forall j | 0 <= j < |s| && j != i
      ensures 0 <= s[j] < |m'| && m'[s[j]].Entry? && m'[s[j]].flink == Succ(s, j) && m'[s[j]].blink == Pred(s, j)
    {
      assert s[j] == r[j] && m[r[j]].flink == Succ(r, j) && m[r[j]].blink == Pred(r, j);
      NeighboursReplaced(r, i, q, j);
    }
  }

  lemma ReplacedDistinct(r: seq<int>, i: int, q: int)
    requires Distinct(r) && 0 <= i < |r| && q !in r[..i] && q !in r[i + 1..]
    ensures Distinct(r[i := q])
  {
    assert forall j :: 0 <= j < i ==> r[..i][j] == r[j];
    assert forall j :: i < j < |r| ==> r[i + 1..][j - i - 1] == r[j];
  }

  lemma SelfReplaced(r: seq<int>, i: int, q: int)
    requires 0 < i < |r|
    ensures Succ(r[i := q], i) == Succ(r, i) && Pred(r[i := q], i) == Pred(r, i)
  {
  }

  /** The neighbours of another entry once the i-th is replaced. */
  lemma NeighboursReplaced(r: seq<int>, i: int, q: int, j: int)
    requires Distinct(r) && 0 < i < |r| && 0 <= j < |r| && j != i
    ensures Succ(r[i := q], j) == if r[j] == Pred(r, i) then q else Succ(r, j)
    ensures Pred(r[i := q], j) == if r[j] == Succ(r, i) then q else Pred(r, j)
  {
  }

  // ---------------------------------------------------------------- three lists side by side

  ghost predicate Apart(x: seq<int>, y: seq<int>) {
    forall u :: u in x ==> u !in y
  }

  /** Three lists that share no entry. */
  ghost predicate Rings(m: Mem, x: seq<int>, y: seq<int>, z: seq<int>) {
    && Ring(m, x) && Ring(m, y) && Ring(m, z)
    && Apart(x, y) && Apart(x, z) && Apart(y, z)
  }

  lemma RingsFrame(m: Mem, m': Mem, x: seq<int>, y: seq<int>, z: seq<int>)
    requires Rings(m, x, y, z) && |m'| == |m|
    requires forall u :: 0 <= u < |m| && m[u].Entry? ==>
      m'[u].Entry? && m'[u].flink == m[u].flink && m'[u].blink == m[u].blink
    ensures Rings(m', x, y, z)
  {
    RingFrameEntries(m, m', x);
    RingFrameEntries(m, m', y);
    RingFrameEntries(m, m', z);
  }

  lemma RingFrameEntries(m: Mem, m': Mem, r: seq<int>)
    requires Ring(m, r) && |m'| == |m|
    requires forall u :: 0 <= u < |m| && m[u].Entry? ==>
      m'[u].Entry? && m'[u].flink == m[u].flink && m'[u].blink == m[u].blink
    ensures Ring(m', r)
  {
    MembersInRange(m, r);
    RingFrame(m, m', r);
  }

  lemma UnlinkOne(m: Mem, x: seq<int>, i: int, y: seq<int>, z: seq<int>)
    requires Rings(m, x, y, z) && 0 < i < |x|
    ensures var p := x[i];
      && 0 <= p < |m| && m[p].Entry?
      && 0 <= m[p].flink < |m| && m[m[p].flink].Entry?
      && 0 <= m[p].blink < |m| && m[m[p].blink].Entry?
    ensures var p := x[i]; var m' := Unlinked(m, p);
      && Rings(m', Without(x, i), y, z)
      && LinksOnly(m, m', Without(x, i))
      && m'[p] == m[p] && p !in Without(x, i)
  {
    UnlinkedRing(m, x, i);
    var x' := Without(x, i);
    WithoutNarrows(x, i);
    WidenedDistinct(x', i - 1, x[i], x);
    var m' := Unlinked(m, x[i]);
    assert forall u :: u in x' ==> u in x;
    MembersInRange(m, y);
    MembersInRange(m, z);
    RingFrame(m, m', y);
    RingFrame(m, m', z);
  }

  lemma WithAfterMembers(r: seq<int>, i: int, p: int)
    requires 0 <= i < |r|
    ensures forall u :: u in WithAfter(r, i, p) ==> u in r || u == p
  {
  }

  lemma LinkOne(m: Mem, x: seq<int>, i: int, p: int, y: seq<int>, z: seq<int>)
    requires Rings(m, x, y, z) && 0 <= i < |x| && p !in x && p !in y && p !in z
    requires 0 <= p < |m| && m[p].Entry?
    ensures 0 <= x[i] < |m| && m[x[i]].Entry? && 0 <= Succ(x, i) < |m| && m[Succ(x, i)].Entry?
    ensures m[x[i]].flink == Succ(x, i) && m[Succ(x, i)].blink == x[i]
    ensures var m' := LinkedBetween(m, x[i], p, Succ(x, i));
      && Rings(m', WithAfter(x, i, p), y, z)
      && LinksOnly(m, m', WithAfter(x, i, p))
  {
    LinkedRing(m, x, i, p);
    var k := if i + 1 == |x| then 0 else i + 1;
    assert m[x[k]].blink == Pred(x, k);
    var x' := WithAfter(x, i, p);
    var m' := LinkedBetween(m, x[i], p, Succ(x, i));
    WithAfterMembers(x, i, p);
    MembersInRange(m, y);
    MembersInRange(m, z);
    RingFrame(m, m', y);
    RingFrame(m, m', z);
  }

  lemma MembersInRange(m: Mem, r: seq<int>)
    requires Ring(m, r)
    ensures forall u :: u in r ==> 0 <= u < |m| && m[u].Entry?
  {
    forall u | u in r
      ensures 0 <= u < |m| && m[u].Entry?
    {
      var i :| 0 <= i < |r| && r[i] == u;
      assert m[r[i]].Entry?;
    }
  }
}
