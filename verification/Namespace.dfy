/** The object namespace: looking up, creating and naming objects (kernel/ob.cpp). */
module KernelNamespace {
  import opened Common
  import opened NamespaceWalk

  /** What a path names in a namespace: only absolute paths name anything. */
  function Lookup(objs: Objects, path: string, openLink: bool): Option<nat>
    requires ROOT < |objs|
  {
    if Absolute(path) then Walk(objs, |objs|, ROOT, Components(path), openLink).found else None
  }

  /** A path that once resolved resolves to the same object after any later insertions. */
  lemma LookupStable(objs: Objects, objs': Objects, path: string, openLink: bool)
    requires Valid(objs) && Grown(objs, objs') && Lookup(objs, path, openLink).Some?
    ensures Lookup(objs', path, openLink) == Lookup(objs, path, openLink)
  {
    hide Walk;
    ValidClosed(objs);
    WalkStable(objs, objs', |objs|, ROOT, Components(path), openLink);
    WalkWider(objs', |objs|, |objs'|, ROOT, Components(path), openLink);
  }

  lemma GrownTwice(a: Objects, b: Objects, c: Objects)
    requires Grown(a, b) && Grown(b, c)
    ensures Grown(a, c)
  {
    forall i {:trigger c[i]} | 0 <= i < |a|
      ensures GrownObject(a[i], c[i], |a|)
    {
      assert GrownObject(a[i], b[i], |a|) && GrownObject(b[i], c[i], |b|);
    }
  }

  /** An object, directory or link to be created in directory `dir`. */
  datatype Creation = Creation(dir: nat, name: string, kind: Kind)

  /** The directory is one, a new directory is empty, and a link's target resolves now. */
  ghost predicate Creatable(objs: Objects, c: Creation)
    requires ROOT < |objs|
  {
    && c.dir < |objs| && objs[c.dir].kind.Directory? && (c.kind.Directory? ==> c.kind.list == [])
    && (c.kind.Link? ==> Lookup(objs, c.kind.target, false).Some?)
  }

  /** The namespace before, between and after a list of creations. */
  ghost predicate IsGrowth(run: seq<Objects>, cs: seq<Creation>) {
    && |run| == |cs| + 1 && Valid(run[0])
    && forall k {:trigger Created(run, cs, k)} :: 0 <= k < |cs| ==> Created(run, cs, k)
  }

  ghost predicate Created(run: seq<Objects>, cs: seq<Creation>, k: nat)
    requires k < |cs| && |run| == |cs| + 1
  {
    && ROOT < |run[k]| && Creatable(run[k], cs[k])
    && run[k + 1] == Inserted(run[k], cs[k].dir, cs[k].name, cs[k].kind)
  }

  /** Over any list of creations the namespace stays well-formed and only grows. */
  lemma {:induction false} GrowthGrows(run: seq<Objects>, cs: seq<Creation>, i: nat, j: nat)
    requires IsGrowth(run, cs) && i <= j <= |cs|
    ensures Valid(run[i]) && Valid(run[j]) && Grown(run[i], run[j])
    decreases j
  {
    hide Valid, Grown, Inserted, Lookup;
    if j > 0 {
      GrowthGrows(run, cs, if i < j then i else 0, j - 1);
      assert Created(run, cs, j - 1);
      CreatedKeeps(run[j - 1], cs[j - 1]);
      GrownTwice(run[if i < j then i else 0], run[j - 1], run[j]);
    }
    GrownSelf(run[j]);
  }

  lemma CreatedKeeps(objs: Objects, c: Creation)
    requires Valid(objs) && Creatable(objs, c)
    ensures Valid(Inserted(objs, c.dir, c.name, c.kind)) && Grown(objs, Inserted(objs, c.dir, c.name, c.kind))
  {
    hide Walk, Components, Inserted;
    InsertedValid(objs, c.dir, c.name, c.kind);
    InsertedGrown(objs, c.dir, c.name, c.kind);
  }

  lemma GrownSelf(objs: Objects)
    ensures Grown(objs, objs)
  {
  }

  /** Over any list of creations, a path that resolves at some time resolves to the same object at every later
      time. */
  lemma ResolvesEverAfter(run: seq<Objects>, cs: seq<Creation>, i: nat, j: nat, path: string, openLink: bool)
    requires IsGrowth(run, cs) && i <= j <= |cs| && ROOT < |run[i]| && Lookup(run[i], path, openLink).Some?
    ensures ROOT < |run[j]| && Lookup(run[j], path, openLink) == Lookup(run[i], path, openLink)
  {
    hide Lookup;
    GrowthGrows(run, cs, i, j);
    LookupStable(run[i], run[j], path, openLink);
  }

  // ---------------------------------------------------------------- names

  /** The name ObQueryObjectName prints. */
  function NameOf(objs: Objects, i: nat): string
    requires Valid(objs) && i < |objs|
    decreases i
  {
    if i == ROOT then objs[ROOT].name
    else
      assert Placed(objs, i);
      NameOf(objs, objs[i].parent.value) + "\\" + objs[i].name
  }

  function Depth(objs: Objects, i: nat): (n: nat)
    requires Valid(objs) && i < |objs|
    ensures n > 0 <==> i > 0
    decreases i
  {
    if i == ROOT then 0
    else
      assert Placed(objs, i);
      1 + Depth(objs, objs[i].parent.value)
  }

  /** No sibling of the same name was inserted before object i. */
  ghost predicate NotShadowed(objs: Objects, i: nat)
    requires Valid(objs) && 0 < i < |objs|
  {
    assert Placed(objs, i);
    var list := objs[objs[i].parent.value].kind.list;
    forall j, k :: 0 <= j < k < |list| && list[k] == i && list[j] < |objs| ==> objs[list[j]].name != objs[i].name
  }

  /** Object i and the directories above it can be named. */
  ghost predicate Visible(objs: Objects, i: nat)
    requires Valid(objs) && i < |objs|
    decreases i
  {
    i > 0 ==>
      && '\\' !in objs[i].name && NotShadowed(objs, i)
      && (assert Placed(objs, i); Visible(objs, objs[i].parent.value))
  }

  lemma {:induction false} FirstIs(objs: Objects, list: seq<nat>, i: nat)
    requires i in list && i < |objs|
    requires forall j, k :: 0 <= j < k < |list| && list[k] == i && list[j] < |objs| ==> objs[list[j]].name != objs[i].name
    ensures First(objs, list, objs[i].name) == Some(i)
  {
    if list[0] != i {
      var k :| 0 <= k < |list| && list[k] == i;
      assert list[0] < |objs| ==> objs[list[0]].name != objs[i].name;
      assert list[1..][k - 1] == i;
      forall a, b | 0 <= a < b < |list[1..]| && list[1..][b] == i && list[1..][a] < |objs|
        ensures objs[list[1..][a]].name != objs[i].name
      {
        assert list[b + 1] == i && list[a + 1] == list[1..][a];
      }
      FirstIs(objs, list[1..], i);
    }
  }

  lemma {:induction false} OneComponent(name: string, i: nat)
    requires '\\' !in name && i <= |name|
    ensures ComponentEnd("\\" + name, i) == 1 + |name|
    decreases |name| - i
  {
    if i < |name| {
      assert ("\\" + name)[i + 1] == name[i];
      OneComponent(name, i + 1);
    }
  }

  lemma SingleName(name: string)
    requires '\\' !in name
    ensures Components("\\" + name) == [name]
  {
    hide ComponentEnd, Components;
    var s := "\\" + name;
    OneComponent(name, 0);
    ComponentsStep(s);
    assert s[1..|s|] == name && s[|s|..] == "";
    ComponentsStep("");
    assert [name] + [] == [name];
  }

  /** Printing an object's name and looking it up gives the object. */
  lemma {:induction false} NameResolves(objs: Objects, i: nat, openLink: bool)
    requires Valid(objs) && i < |objs| && Visible(objs, i) && (objs[i].kind.Link? ==> openLink)
    ensures Tail(NameOf(objs, i)) && (i > 0 ==> Absolute(NameOf(objs, i)))
    ensures Walk(objs, |objs|, ROOT, Components(NameOf(objs, i)), openLink).found == Some(i)
    decreases i
  {
    if i > 0 {
      assert Placed(objs, i);
      var d := objs[i].parent.value;
      NameResolves(objs, d, openLink);
      FirstIs(objs, objs[d].kind.list, i);
      StepResolves(objs, d, i, openLink);
      SingleName(objs[i].name);
      hide Walk, Components, First, Visible, NotShadowed;
      assert NameOf(objs, i) == NameOf(objs, d) + ("\\" + objs[i].name);
      ComponentsConcat(NameOf(objs, d), "\\" + objs[i].name);
      WalkConcat(objs, |objs|, ROOT, Components(NameOf(objs, d)), [objs[i].name], openLink);
    }
  }

  lemma StepResolves(objs: Objects, d: nat, i: nat, openLink: bool)
    requires Valid(objs) && d < |objs| && objs[d].kind.Directory? && i < |objs| && (objs[i].kind.Link? ==> openLink)
    requires First(objs, objs[d].kind.list, objs[i].name) == Some(i)
    ensures Walk(objs, |objs|, d, [objs[i].name], openLink).found == Some(i)
  {
    hide Valid;
    assert [objs[i].name][1..] == [];
    assert Walk(objs, |objs|, i, [], openLink).found == Some(i);
  }

  lemma PrintedNameResolves(objs: Objects, i: nat)
    requires Valid(objs) && 0 < i < |objs| && Visible(objs, i)
    ensures Lookup(objs, NameOf(objs, i), true) == Some(i)
    ensures !objs[i].kind.Link? ==> Lookup(objs, NameOf(objs, i), false) == Some(i)
  {
    NameResolves(objs, i, true);
    if !objs[i].kind.Link? {
      NameResolves(objs, i, false);
    }
  }

  // ---------------------------------------------------------------- what a path means, name by name

  /** What a path with one more name behind it means.  A device takes whatever follows; anything else that is no
      directory has nothing below it; in a directory it is the first object of that name, or, if that is a
      link and links are followed, what the link's target means. */
  lemma PathMeans(objs: Objects, path: string, name: string, openLink: bool)
    requires Valid(objs) && Tail(path) && '\\' !in name
    ensures ROOT < |objs| && (Lookup(objs, path, openLink).Some? ==> Lookup(objs, path, openLink).value < |objs|)
    ensures var before: Option<nat> := if path == "" then Some(ROOT) else Lookup(objs, path, openLink);
      var all := Lookup(objs, path + "\\" + name, openLink);
      match before
      case None => all == None
      case Some(d) =>
        match objs[d].kind
        case Device => all == Some(d)
        case Plain => all == None
        case Link(_) => all == None
        case Directory(list) => NameMeans(objs, list, name, openLink, all)
  {
    hide Walk, Components, Valid;
    SingleName(name);
    ComponentsConcat(path, "\\" + name);
    assert path + ("\\" + name) == path + "\\" + name;
    ComponentsStep("");
    var a, b := Components(path), [name];
    ValidRoot(objs);
    EmptyWalk(objs, ROOT, openLink);
    if Walk(objs, |objs|, ROOT, a, openLink).found.None? {
      WalkFails(objs, |objs|, ROOT, a, b, openLink);
    } else {
      WalkConcat(objs, |objs|, ROOT, a, b, openLink);
      OneName(objs, Walk(objs, |objs|, ROOT, a, openLink).found.value, name, openLink);
    }
  }

  /** What a name means in the directory of that list. */
  ghost predicate NameMeans(objs: Objects, list: seq<nat>, name: string, openLink: bool, r: Option<nat>)
    requires ROOT < |objs|
  {
    && ((forall k :: 0 <= k < |list| && list[k] < |objs| ==> objs[list[k]].name != name) ==> r == None)
    && (forall k :: FirstAt(objs, list, name, k) ==>
         r == match objs[list[k]].kind
              case Link(target) => if openLink then Some(list[k]) else Lookup(objs, target, false)
              case _ => Some(list[k]))
  }

  lemma ValidRoot(objs: Objects)
    requires Valid(objs)
    ensures ROOT < |objs|
  {
  }

  lemma EmptyWalk(objs: Objects, cur: nat, openLink: bool)
    requires ROOT < |objs|
    ensures Walk(objs, |objs|, cur, [], openLink).found == Some(cur)
  {
  }

  /** One name, looked up from object d on. */
  lemma OneName(objs: Objects, d: nat, name: string, openLink: bool)
    requires Valid(objs) && d < |objs|
    ensures ROOT < |objs|
    ensures var r := Walk(objs, |objs|, d, [name], openLink).found;
      match objs[d].kind
      case Device => r == Some(d)
      case Plain => r == None
      case Link(_) => r == None
      case Directory(list) => NameMeans(objs, list, name, openLink, r)
  {
    hide Components, First, Valid;
    ValidRoot(objs);
    assert [name][1..] == [];
    if objs[d].kind.Directory? {
      var list := objs[d].kind.list;
      FirstIsFirst(objs, list, name);
      var r := First(objs, list, name);
      if r.Some? {
        var at :| FirstAt(objs, list, name, at) && list[at] == r.value;
        forall k | FirstAt(objs, list, name, k)
          ensures k == at
        {
          assert k < at || at < k || k == at;
        }
        EmptyWalk(objs, r.value, openLink);
        if objs[r.value].kind.Link? && !openLink {
          LinkFollowed(objs, r.value);
          LinkStep(objs, |objs|, d, name, r.value);
        }
      }
    }
  }

  // ---------------------------------------------------------------- creating links

  /** The place of the last backslash behind the first character, or 0. */
  function LastSlash(s: string): (k: nat)
    ensures k < |s| || k == 0
    ensures k > 0 ==> s[k] == '\\'
    ensures forall j :: k < j < |s| ==> s[j] != '\\'
    decreases |s|
  {
    if |s| <= 1 then 0 else if s[|s| - 1] == '\\' then |s| - 1 else LastSlash(s[..|s| - 1])
  }

  /** The directory a link of that name goes to. */
  function LinkDirectory(objs: Objects, name: string): Option<nat>
    requires ROOT < |objs|
  {
    if LastSlash(name) == 0 then Some(ROOT) else Lookup(objs, name[..LastSlash(name)], false)
  }

  lemma SplitName(name: string)
    requires Absolute(name)
    ensures Components(name) == Components(name[..LastSlash(name)]) + [name[LastSlash(name) + 1..]]
    ensures Tail(name[..LastSlash(name)])
  {
    hide Components, ComponentEnd;
    var k := LastSlash(name);
    var last := name[k + 1..];
    CutAt(name, k);
    SingleName(last);
    ComponentsConcat(name[..k], "\\" + last);
  }

  lemma CutAt(name: string, k: nat)
    requires k < |name| && name[k] == '\\'
    ensures name == name[..k] + ("\\" + name[k + 1..])
  {
  }

  /** A new link under a name not used before names what its target names. */
  lemma LinkNamesTarget(objs: Objects, d: nat, name: string, target: string)
    requires Valid(objs) && Absolute(name) && Lookup(objs, target, false).Some?
    requires LinkDirectory(objs, name) == Some(d) && d < |objs| && objs[d].kind.Directory?
    requires First(objs, objs[d].kind.list, name[LastSlash(name) + 1..]) == None
    ensures Lookup(Inserted(objs, d, name[LastSlash(name) + 1..], Link(target)), name, false) == Lookup(objs, target, false)
  {
    hide Valid, Components, First, Walk;
    var last, n := name[LastSlash(name) + 1..], |objs|;
    var objs' := Inserted(objs, d, last, Link(target));
    InsertedValid(objs, d, last, Link(target));
    InsertedGrown(objs, d, last, Link(target));
    ValidClosed(objs);
    SplitName(name);
    DirectoryFound(objs, name, d);
    var head := Components(name[..LastSlash(name)]);
    WalkStable(objs, objs', n, ROOT, head, false);
    WalkWider(objs', n, n + 1, ROOT, head, false);
    WalkConcat(objs', n + 1, ROOT, head, [last], false);
    WalkStable(objs, objs', n, ROOT, Components(target), false);
    NewIsFirst(objs, d, last, Link(target));
    LinkStep(objs', n + 1, d, last, n);
  }

  /** Following one link, the last name of a path. */
  lemma LinkStep(objs: Objects, bound: nat, d: nat, name: string, i: nat)
    requires ROOT < |objs| && d < |objs| && objs[d].kind.Directory? && First(objs, objs[d].kind.list, name) == Some(i)
    requires i < bound && objs[i].kind.Link? && Absolute(objs[i].kind.target)
    requires Walk(objs, i, ROOT, Components(objs[i].kind.target), false).found.Some?
    ensures Walk(objs, bound, d, [name], false).found == Walk(objs, i, ROOT, Components(objs[i].kind.target), false).found
  {
    hide Components;
    assert [name][1..] == [];
  }

  lemma DirectoryFound(objs: Objects, name: string, d: nat)
    requires Valid(objs) && Absolute(name) && LinkDirectory(objs, name) == Some(d)
    ensures Tail(name[..LastSlash(name)])
    ensures Walk(objs, |objs|, ROOT, Components(name[..LastSlash(name)]), false).found == Some(d)
  {
    ComponentsStep("");
  }

  lemma NewIsFirst(objs: Objects, d: nat, name: string, kind: Kind)
    requires Valid(objs) && d < |objs| && objs[d].kind.Directory? && First(objs, objs[d].kind.list, name) == None
    ensures var objs' := Inserted(objs, d, name, kind); First(objs', objs'[d].kind.list, name) == Some(|objs|)
  {
    var objs' := Inserted(objs, d, name, kind);
    var list := objs'[d].kind.list;
    assert list[|list| - 1] == |objs|;
    forall k | 0 <= k < |objs[d].kind.list|
      ensures list[k] < |objs| && objs'[list[k]].name != name
    {
      assert Listed(objs, d, k);
    }
    FirstIs(objs', list, |objs|);
  }

  // ---------------------------------------------------------------- the namespace

  datatype Status = Success | NotFound | NoDirectory

  class Namespace {
    var objs: Objects

    /** ObInitSystem: the root directory alone, without a name. */
    constructor ()
      ensures Valid(objs) && objs == [Object("", None, Directory([]))]
    {
      objs := [Object("", None, Directory([]))];
    }

    /** ObpFindObjectInDirectory */
    method FindObjectInDirectory(d: nat, name: string) returns (r: Option<nat>)
      requires Valid(objs) && d < |objs| && objs[d].kind.Directory?
      ensures r == First(objs, objs[d].kind.list, name)
      ensures match r
        case None => forall i :: i in objs[d].kind.list && i < |objs| ==> objs[i].name != name
        case Some(i) => exists k :: FirstAt(objs, objs[d].kind.list, name, k) && objs[d].kind.list[k] == i
    {
      hide Walk, First, FirstAt, Placed, LinkOk;
      var list := objs[d].kind.list;
      FirstIsFirst(objs, list, name);
      var k := 0;
      assert list[0..] == list;
      while k < |list|
        invariant 0 <= k <= |list| && First(objs, list, name) == First(objs, list[k..], name)
      {
        assert Listed(objs, d, k);
        FirstFrom(objs, list, name, k);
        if objs[list[k]].name == name {
          return Some(list[k]);
        }
        k := k + 1;
      }
      FirstFrom(objs, list, name, k);
      return None;
    }

    /** ObReferenceObjectByName: a cursor moves from backslash to backslash; a link puts its target in
        front of what is left of the path, and the parse starts over with that text.  The steps of the walk
        go down each time round. */
    method ReferenceObjectByName(path: string, openLink: bool) returns (r: Option<nat>)
      requires Valid(objs)
      ensures r == Lookup(objs, path, openLink)
      ensures r.Some? ==> r.value < |objs|
    {
      hide Components, ComponentEnd, First, LinkOk, Placed, Listed;
      if !(|path| > 0 && path[0] == '\\') {
        return None;
      }
      var buf := path;
      var slash: nat, cur: nat := 0, ROOT;
      assert buf[0..] == buf;
      while true
        invariant slash < |buf| && buf[slash] == '\\' && cur < |objs| && objs[cur].kind.Directory?
        invariant Walk(objs, |objs|, cur, Components(buf[slash..]), openLink).found == Lookup(objs, path, openLink)
        decreases Walk(objs, |objs|, cur, Components(buf[slash..]), openLink).steps
      {
        var wc := EndOfName(buf, slash);
        NextName(buf, slash);
        var name := buf[slash + 1..wc];
        var found := FindObjectInDirectory(cur, name);
        if found.None? {
          return None;
        }
        var i := found.value;
        if objs[i].kind.Link? && !openLink {
          Reparse(objs, cur, buf, slash, i);
          buf, slash, cur := objs[i].kind.target + buf[wc..], 0, ROOT;
          assert buf[0..] == buf;
        } else {
          if objs[i].kind.Device? || wc >= |buf| {
            return Some(i);
          }
          if !objs[i].kind.Directory? {
            return None;
          }
          cur, slash := i, wc;
        }
      }
    }

    /** The cursor runs to the next backslash or the end. */
    method EndOfName(buf: string, slash: nat) returns (wc: nat)
      requires slash < |buf|
      ensures wc == ComponentEnd(buf, slash)
    {
      wc := slash + 1;
      while !(wc >= |buf| || buf[wc] == '\\')
        invariant slash < wc <= |buf| && ComponentEnd(buf, slash) == ComponentEnd(buf, wc - 1)
        decreases |buf| - wc
      {
        wc := wc + 1;
      }
    }

    /** ObCreateObject and ObInsertObject; in a directory of its own the new object comes last. */
    method CreateObject(d: nat, name: string, kind: Kind) returns (i: nat)
      requires Valid(objs) && d < |objs| && objs[d].kind.Directory? && (kind.Directory? ==> kind.list == [])
      requires kind.Link? ==> Lookup(objs, kind.target, false).Some?
      modifies this
      ensures Valid(objs) && objs == Inserted(old(objs), d, name, kind) && i == |old(objs)|
      ensures Grown(old(objs), objs)
    {
      InsertedValid(objs, d, name, kind);
      InsertedGrown(objs, d, name, kind);
      i := |objs|;
      var parent := objs[d];
      objs := objs[d := parent.(kind := Directory(parent.kind.list + [i]))] + [Object(name, Some(d), kind)];
    }

    /** ObCreateSymbolicLink: the target must resolve now; the first character of the name is not looked
        at.  That the path in front of the last backslash names a directory is not checked there. */
    method CreateSymbolicLink(name: string, target: string) returns (status: Status)
      requires Valid(objs) && |name| > 0
      modifies this
      ensures Valid(objs) && Grown(old(objs), objs)
      ensures status == if Lookup(old(objs), target, false).None? || LinkDirectory(old(objs), name).None? then NotFound
                        else if old(objs)[LinkDirectory(old(objs), name).value].kind.Directory? then Success else NoDirectory
      ensures objs == if status == Success then
          Inserted(old(objs), LinkDirectory(old(objs), name).value, name[LastSlash(name) + 1..], Link(target))
        else old(objs)
      ensures Lookup(old(objs), target, false).Some? && (forall j :: 0 < j < |name| ==> name[j] != '\\') ==>
        ROOT < |old(objs)| && old(objs)[ROOT].kind.Directory? && status == Success
        && objs == Inserted(old(objs), ROOT, name[1..], Link(target))
    {
      hide Walk, Valid;
      RootIsDirectory(objs);
      var target0 := ReferenceObjectByName(target, false);
      if target0.None? {
        return NotFound;
      }
      var rel := LastBackslash(name);
      var d := Some(ROOT);
      if rel != 0 {
        d := ReferenceObjectByName(name[..rel], false);
      }
      if d.None? {
        return NotFound;
      }
      if !objs[d.value].kind.Directory? {
        return NoDirectory;
      }
      var i := CreateObject(d.value, name[rel + 1..], Link(target));
      return Success;
    }

    /** wcsrchr from the second character on. */
    method LastBackslash(s: string) returns (k: nat)
      requires |s| > 0
      ensures k == LastSlash(s) && k < |s|
    {
      k := |s| - 1;
      assert s[..|s|] == s;
      while k > 0 && s[k] != '\\'
        invariant 0 <= k < |s| && LastSlash(s) == LastSlash(s[..k + 1])
      {
        assert s[..k + 1][..k] == s[..k];
        k := k - 1;
      }
    }

    /** ObQueryObjectName: put the name of each directory above in front, in a buffer as large as the count
        kept beside says; the count never falls short of the text and its terminating zero. */
    method QueryObjectName(i: nat) returns (name: string, size: nat)
      requires Valid(objs) && i < |objs|
      ensures name == NameOf(objs, i)
      ensures 2 * |name| + 2 <= size
      ensures i > 0 ==> size == 2 * |name| + 2 * Depth(objs, i)
    {
      hide Valid, NameOf, Depth;
      NameAtRoot(objs);
      ParentOf(objs, i);
      name := objs[i].name;
      var length := 2 * |name|;
      size := length + 2;
      var parent := objs[i].parent;
      ghost var j, t := i, 0;
      while parent.Some?
        invariant j < |objs| && parent == objs[j].parent && (j == ROOT <==> parent.None?)
        invariant parent.Some? ==> parent.value < j
        invariant NameOf(objs, i) == if parent.None? then name else NameOf(objs, parent.value) + "\\" + name
        invariant Depth(objs, i) == Depth(objs, j) + t && length == 2 * |name| + 2 * t && (j == i <==> t == 0) && t >= 0
        invariant size == if j == i then length + 2 else length
        decreases j
      {
        var d := parent.value;
        ParentOf(objs, j);
        ParentOf(objs, d);
        if d > ROOT {
          NamesJoined(NameOf(objs, objs[d].parent.value), objs[d].name, name);
        }
        length := length + 4 + 2 * |objs[d].name|;
        size := length;
        name := objs[d].name + "\\" + name;
        parent := objs[d].parent;
        j, t := d, t + 1;
      }
    }
  }

  /** One round of the search. */
  lemma FirstFrom(objs: Objects, list: seq<nat>, name: string, k: nat)
    requires k <= |list| && (k < |list| ==> list[k] < |objs|)
    ensures First(objs, list[k..], name) ==
      if k == |list| then None else if objs[list[k]].name == name then Some(list[k]) else First(objs, list[k + 1..], name)
  {
    if k < |list| {
      assert list[k..][0] == list[k] && list[k..][1..] == list[k + 1..];
    }
  }

  lemma NamesJoined(a: string, b: string, c: string)
    ensures (a + "\\" + b) + "\\" + c == a + "\\" + (b + "\\" + c)
  {
  }

  lemma NameAtRoot(objs: Objects)
    requires Valid(objs)
    ensures |objs| > ROOT && NameOf(objs, ROOT) == objs[ROOT].name && Depth(objs, ROOT) == 0
  {
  }

  /** An object other than the root hangs below an older one, its parent. */
  lemma ParentOf(objs: Objects, i: nat)
    requires Valid(objs) && i < |objs|
    ensures i == ROOT <==> objs[i].parent.None?
    ensures i != ROOT ==>
      && objs[i].parent.value < i && objs[i].parent.value < |objs|
      && NameOf(objs, i) == NameOf(objs, objs[i].parent.value) + "\\" + objs[i].name
      && Depth(objs, i) == 1 + Depth(objs, objs[i].parent.value)
  {
    if i > 0 {
      assert Placed(objs, i);
    }
  }

  lemma RootIsDirectory(objs: Objects)
    requires Valid(objs)
    ensures |objs| > 0 && objs[ROOT].kind.Directory?
  {
  }

  /** The name behind the backslash at `slash`, and what follows it. */
  lemma NextName(buf: string, slash: nat)
    requires slash < |buf| && buf[slash] == '\\'
    ensures Tail(buf[ComponentEnd(buf, slash)..])
    ensures Components(buf[slash..]) ==
      [buf[slash + 1..ComponentEnd(buf, slash)]] + Components(buf[ComponentEnd(buf, slash)..])
    ensures ComponentEnd(buf, slash) == |buf| <==> Components(buf[ComponentEnd(buf, slash)..]) == []
  {
    hide ComponentEnd, Components;
    EndFrom(buf, slash, slash);
    ComponentsStep(buf[slash..]);
    NameSlices(buf, slash, ComponentEnd(buf, slash));
    ComponentsEmpty(buf[ComponentEnd(buf, slash)..]);
  }

  lemma ComponentsEmpty(s: string)
    requires Tail(s)
    ensures s == "" <==> Components(s) == []
  {
  }

  lemma NameSlices(buf: string, slash: nat, wc: nat)
    requires slash < wc <= |buf|
    ensures buf[slash..][1..wc - slash] == buf[slash + 1..wc] && buf[slash..][wc - slash..] == buf[wc..]
  {
  }

  lemma {:induction false} EndFrom(buf: string, slash: nat, i: nat)
    requires slash <= i < |buf|
    ensures ComponentEnd(buf[slash..], i - slash) + slash == ComponentEnd(buf, i)
    decreases |buf| - i
  {
    if i + 1 < |buf| {
      assert buf[slash..][i + 1 - slash] == buf[i + 1];
      EndFrom(buf, slash, i + 1);
    }
  }

  /** Starting over with the target of a link in front of the rest of the path. */
  lemma Reparse(objs: Objects, cur: nat, buf: string, slash: nat, i: nat)
    requires Valid(objs) && cur < |objs| && objs[cur].kind.Directory? && slash < |buf| && buf[slash] == '\\'
    requires First(objs, objs[cur].kind.list, buf[slash + 1..ComponentEnd(buf, slash)]) == Some(i) && objs[i].kind.Link?
    ensures var text := objs[i].kind.target + buf[ComponentEnd(buf, slash)..];
      var w := Walk(objs, |objs|, cur, Components(buf[slash..]), false);
      && Absolute(text)
      && Walk(objs, |objs|, ROOT, Components(text), false).found == w.found
      && Walk(objs, |objs|, ROOT, Components(text), false).steps < w.steps
  {
    hide Walk, First, Valid, ComponentEnd, Components;
    var wc, names := ComponentEnd(buf, slash), Components(buf[slash..]);
    NextName(buf, slash);
    ReparseIsWalk(objs, cur, names, i);
    ComponentsConcat(objs[i].kind.target, buf[wc..]);
    assert names[1..] == Components(buf[wc..]);
  }
}
