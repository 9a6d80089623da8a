/** What a path means in the object namespace: a walk through directories in which a symbolic link
    stands for the object its target named when the link was made (kernel/ob.cpp). */
module NamespaceWalk {
  import opened Common

  /** The object types that matter to the parser: a device ends it, a link restarts it. */
  datatype Kind = Directory(list: seq<nat>) | Link(target: string) | Device | Plain

  /** An object is known by its place in the sequence of all objects, in order of creation. */
  datatype Object = Object(name: string, parent: Option<nat>, kind: Kind)

  type Objects = seq<Object>

  const ROOT := 0

  // ---------------------------------------------------------------- paths

  /** The end of the component that starts behind the backslash at i: the next backslash or the end. */
  function ComponentEnd(s: string, i: nat): (j: nat)
    requires i < |s|
    ensures i < j <= |s| && (j < |s| ==> s[j] == '\\') && forall k :: i < k < j ==> s[k] != '\\'
    decreases |s| - i
  {
    if i + 1 == |s| || s[i + 1] == '\\' then i + 1 else ComponentEnd(s, i + 1)
  }

  /** A path that names something absolutely, or what remains of one. */
  predicate Absolute(s: string) { |s| > 0 && s[0] == '\\' }

  predicate Tail(s: string) { s == "" || s[0] == '\\' }

  /** The names in a path, one behind each backslash. */
  function Components(s: string): seq<string>
    requires Tail(s)
    decreases |s|
  {
    if s == "" then [] else
      var j := ComponentEnd(s, 0);
      [s[1..j]] + Components(s[j..])
  }

  lemma {:induction false} ComponentsConcat(s: string, t: string)
    requires Tail(s) && Tail(t)
    ensures Tail(s + t) && Components(s + t) == Components(s) + Components(t)
    decreases |s|
  {
    hide ComponentEnd, Components;
    ComponentsStep(s);
    if s == "" {
      assert s + t == t && [] + Components(t) == Components(t);
    } else {
      ComponentsConcat(s[ComponentEnd(s, 0)..], t);
      ConcatStep(s, t);
    }
  }

  lemma ConcatStep(s: string, t: string)
    requires Absolute(s) && Tail(t) && Tail(s[ComponentEnd(s, 0)..] + t)
    requires Components(s[ComponentEnd(s, 0)..] + t) == Components(s[ComponentEnd(s, 0)..]) + Components(t)
    ensures Components(s + t) == Components(s) + Components(t)
  {
    hide ComponentEnd, Components;
    var j := ComponentEnd(s, 0);
    EndConcat(s, t, 0);
    assert (s + t)[j..] == s[j..] + t && (s + t)[1..j] == s[1..j];
    ComponentsStep(s);
    ComponentsStep(s + t);
    Associate(s[1..j], Components(s[j..]), Components(t));
  }

  lemma ComponentsStep(s: string)
    requires Tail(s)
    ensures Components(s) == if s == "" then [] else [s[1..ComponentEnd(s, 0)]] + Components(s[ComponentEnd(s, 0)..])
  {
  }

  lemma Associate(a: string, b: seq<string>, c: seq<string>)
    ensures ([a] + b) + c == [a] + (b + c)
  {
  }

  lemma {:induction false} EndConcat(s: string, t: string, i: nat)
    requires i < |s| && Tail(t)
    ensures ComponentEnd(s + t, i) == ComponentEnd(s, i)
    decreases |s| - i
  {
    if i + 1 < |s| && s[i + 1] != '\\' {
      EndConcat(s, t, i + 1);
    }
  }

  // ---------------------------------------------------------------- the walk

  /** ObpFindObjectInDirectory: the first object of that name in the list. */
  function First(objs: Objects, list: seq<nat>, name: string): (r: Option<nat>)
    ensures r.Some? ==> r.value in list && r.value < |objs| && objs[r.value].name == name
    ensures r.None? ==> forall k :: 0 <= k < |list| && list[k] < |objs| ==> objs[list[k]].name != name
  {
    if list == [] then None
    else if list[0] < |objs| && objs[list[0]].name == name then Some(list[0])
    else First(objs, list[1..], name)
  }

  /** The k-th object of the list is the first of that name. */
  ghost predicate FirstAt(objs: Objects, list: seq<nat>, name: string, k: int) {
    && 0 <= k < |list| && list[k] < |objs| && objs[list[k]].name == name
    && forall j :: 0 <= j < k && list[j] < |objs| ==> objs[list[j]].name != name
  }

  lemma {:induction false} FirstIsFirst(objs: Objects, list: seq<nat>, name: string)
    ensures match First(objs, list, name)
      case None => forall k :: 0 <= k < |list| && list[k] < |objs| ==> objs[list[k]].name != name
      case Some(i) => exists k :: FirstAt(objs, list, name, k) && list[k] == i
  {
    if list != [] && !(list[0] < |objs| && objs[list[0]].name == name) {
      FirstIsFirst(objs, list[1..], name);
      var r := First(objs, list[1..], name);
      if r.Some? {
        var k :| FirstAt(objs, list[1..], name, k) && list[1..][k] == r.value;
        forall j | 0 <= j < k + 1 && list[j] < |objs|
          ensures objs[list[j]].name != name
        {
          assert j > 0 ==> list[1..][j - 1] == list[j];
        }
        assert FirstAt(objs, list, name, k + 1);
      }
    } else if list != [] {
      assert FirstAt(objs, list, name, 0);
    }
  }

  /** The object found, and how many names were looked up on the way, link targets included. */
  datatype Walked = Walked(found: Option<nat>, steps: nat)

  /** From object cur on, follow the names.  Only links older than `bound` are followed, each by walking
      its target from the root; with openLink none is. */
  function Walk(objs: Objects, bound: nat, cur: nat, names: seq<string>, openLink: bool): (w: Walked)
    requires ROOT < |objs|
    ensures w.found.Some? && cur < |objs| ==> w.found.value < |objs|
    decreases bound, |names|
  {
    if names == [] || cur >= |objs| then Walked(Some(cur), 0)
    else if objs[cur].kind.Device? then Walked(Some(cur), 0)
    else if !objs[cur].kind.Directory? then Walked(None, 0)
    else
      match First(objs, objs[cur].kind.list, names[0])
      case None => Walked(None, 1)
      case Some(i) =>
        if objs[i].kind.Link? && !openLink then
          if i >= bound || !Absolute(objs[i].kind.target) then Walked(None, 1)
          else
            var t := Walk(objs, i, ROOT, Components(objs[i].kind.target), false);
            if t.found.None? then Walked(None, 1 + t.steps)
            else
              var w := Walk(objs, bound, t.found.value, names[1..], false);
              Walked(w.found, 1 + t.steps + w.steps)
        else
          var w := Walk(objs, bound, i, names[1..], openLink);
          Walked(w.found, 1 + w.steps)
  }

  /** A walk that succeeds goes on with what follows as if it started where the first part ended. */
  lemma {:induction false} WalkConcat(objs: Objects, bound: nat, cur: nat, a: seq<string>, b: seq<string>, openLink: bool)
    requires ROOT < |objs| && cur < |objs|
    requires Walk(objs, bound, cur, a, openLink).found.Some?
    ensures var w, v := Walk(objs, bound, cur, a, openLink), Walk(objs, bound, cur, a + b, openLink);
      var u := Walk(objs, bound, w.found.value, b, openLink);
      v.found == u.found && v.steps == w.steps + u.steps
    decreases bound, |a|
  {
    if a == [] {
      assert a + b == b;
    } else if objs[cur].kind.Directory? {
      var i := First(objs, objs[cur].kind.list, a[0]).value;
      assert (a + b)[1..] == a[1..] + b;
      if objs[i].kind.Link? && !openLink {
        var t := Walk(objs, i, ROOT, Components(objs[i].kind.target), false);
        WalkConcat(objs, bound, t.found.value, a[1..], b, false);
      } else {
        WalkConcat(objs, bound, i, a[1..], b, openLink);
      }
    } else {
      assert b == [] || objs[cur].kind.Device?;
    }
  }

  /** A walk that fails fails whatever follows. */
  lemma {:induction false} WalkFails(objs: Objects, bound: nat, cur: nat, a: seq<string>, b: seq<string>, openLink: bool)
    requires ROOT < |objs| && cur < |objs|
    requires Walk(objs, bound, cur, a, openLink).found.None?
    ensures Walk(objs, bound, cur, a + b, openLink).found.None?
    decreases bound, |a|
  {
    if objs[cur].kind.Directory? && First(objs, objs[cur].kind.list, a[0]).Some? {
      var i := First(objs, objs[cur].kind.list, a[0]).value;
      assert (a + b)[1..] == a[1..] + b;
      if objs[i].kind.Link? && !openLink {
        if i < bound && Absolute(objs[i].kind.target) {
          var t := Walk(objs, i, ROOT, Components(objs[i].kind.target), false);
          if t.found.Some? {
            WalkFails(objs, bound, t.found.value, a[1..], b, false);
          }
        }
      } else {
        WalkFails(objs, bound, i, a[1..], b, openLink);
      }
    }
  }

  /** A successful walk does not depend on how many more links it might have followed. */
  lemma {:induction false} WalkWider(objs: Objects, bound: nat, bound': nat, cur: nat, names: seq<string>, openLink: bool)
    requires ROOT < |objs| && bound <= bound'
    requires Walk(objs, bound, cur, names, openLink).found.Some?
    ensures Walk(objs, bound', cur, names, openLink) == Walk(objs, bound, cur, names, openLink)
    decreases |names|
  {
    if names != [] && cur < |objs| && objs[cur].kind.Directory? {
      var i := First(objs, objs[cur].kind.list, names[0]).value;
      if objs[i].kind.Link? && !openLink {
        var t := Walk(objs, i, ROOT, Components(objs[i].kind.target), false);
        WalkWider(objs, bound, bound', t.found.value, names[1..], false);
      } else {
        WalkWider(objs, bound, bound', i, names[1..], openLink);
      }
    }
  }

  // ---------------------------------------------------------------- growing

  /** Objects were added, at the ends of directory lists. */
  ghost predicate Grown(objs: Objects, objs': Objects) {
    && |objs| <= |objs'|
    && (forall i {:trigger objs'[i]} :: 0 <= i < |objs| ==> GrownObject(objs[i], objs'[i], |objs|))
  }

  ghost predicate GrownObject(o: Object, o': Object, n: nat) {
    && o'.name == o.name && o'.parent == o.parent
    && (if o.kind.Directory? then o'.kind.Directory? && o.kind.list <= o'.kind.list else o'.kind == o.kind)
  }

  /** Every name in a list is one of the objects. */
  ghost predicate Closed(objs: Objects) {
    forall d, k :: 0 <= d < |objs| && objs[d].kind.Directory? && 0 <= k < |objs[d].kind.list| ==> objs[d].kind.list[k] < |objs|
  }

  lemma {:induction false} FirstStable(objs: Objects, objs': Objects, list: seq<nat>, list': seq<nat>, name: string)
    requires Grown(objs, objs') && list <= list' && First(objs, list, name).Some?
    requires forall k :: 0 <= k < |list| ==> list[k] < |objs|
    ensures First(objs', list', name) == First(objs, list, name)
  {
    assert list'[0] == list[0] && objs'[list[0]].name == objs[list[0]].name;
    if objs[list[0]].name != name {
      FirstStable(objs, objs', list[1..], list'[1..], name);
    }
  }

  /** What once resolved resolves to the same object after any insertions. */
  lemma {:induction false} WalkStable(objs: Objects, objs': Objects, bound: nat, cur: nat, names: seq<string>, openLink: bool)
    requires ROOT < |objs| && Grown(objs, objs') && Closed(objs) && cur < |objs|
    requires Walk(objs, bound, cur, names, openLink).found.Some?
    ensures Walk(objs', bound, cur, names, openLink) == Walk(objs, bound, cur, names, openLink)
    decreases bound, |names|
  {
    assert GrownObject(objs[cur], objs'[cur], |objs|);
    if names != [] && objs[cur].kind.Directory? {
      FirstStable(objs, objs', objs[cur].kind.list, objs'[cur].kind.list, names[0]);
      var i := First(objs, objs[cur].kind.list, names[0]).value;
      assert GrownObject(objs[i], objs'[i], |objs|);
      if objs[i].kind.Link? && !openLink {
        WalkStable(objs, objs', i, ROOT, Components(objs[i].kind.target), false);
        var t := Walk(objs, i, ROOT, Components(objs[i].kind.target), false);
        WalkStable(objs, objs', bound, t.found.value, names[1..], false);
      } else {
        WalkStable(objs, objs', bound, i, names[1..], openLink);
      }
    }
  }

  // ---------------------------------------------------------------- well-formed namespaces

  /** Object i lies in the list of its parent, an older directory. */
  ghost predicate Placed(objs: Objects, i: nat)
    requires 0 < i < |objs|
  {
    && objs[i].parent.Some? && objs[i].parent.value < i
    && objs[objs[i].parent.value].kind.Directory? && i in objs[objs[i].parent.value].kind.list
  }

  /** The target of a link resolves among the objects older than the link. */
  ghost predicate LinkOk(objs: Objects, i: nat)
    requires i < |objs|
  {
    objs[i].kind.Link? ==>
      Absolute(objs[i].kind.target) && Walk(objs, i, ROOT, Components(objs[i].kind.target), false).found.Some?
  }

  ghost predicate Listed(objs: Objects, d: nat, k: nat)
    requires d < |objs| && objs[d].kind.Directory? && k < |objs[d].kind.list|
  {
    var i := objs[d].kind.list[k];
    i < |objs| && objs[i].parent == Some(d) && forall j :: 0 <= j < k ==> objs[d].kind.list[j] < i
  }

  ghost predicate Valid(objs: Objects) {
    && |objs| > 0 && objs[ROOT].kind.Directory? && objs[ROOT].parent == None && objs[ROOT].name == ""
    && (forall i {:trigger Placed(objs, i)} :: 0 < i < |objs| ==> Placed(objs, i))
    && (forall d, k {:trigger Listed(objs, d, k)} :: 0 <= d < |objs| && objs[d].kind.Directory? && 0 <= k < |objs[d].kind.list| ==>
         Listed(objs, d, k))
    && (forall i {:trigger LinkOk(objs, i)} :: 0 <= i < |objs| ==> LinkOk(objs, i))
  }

  lemma ValidClosed(objs: Objects)
    requires Valid(objs)
    ensures Closed(objs)
  {
    forall d, k | 0 <= d < |objs| && objs[d].kind.Directory? && 0 <= k < |objs[d].kind.list|
      ensures objs[d].kind.list[k] < |objs|
    {
      assert Listed(objs, d, k);
    }
  }

  /** An object created and inserted at the end of a directory. */
  function Inserted(objs: Objects, d: nat, name: string, kind: Kind): Objects
    requires d < |objs| && objs[d].kind.Directory?
  {
    objs[d := objs[d].(kind := Directory(objs[d].kind.list + [|objs|]))] + [Object(name, Some(d), kind)]
  }

  lemma InsertedGrown(objs: Objects, d: nat, name: string, kind: Kind)
    requires d < |objs| && objs[d].kind.Directory?
    ensures Grown(objs, Inserted(objs, d, name, kind))
  {
  }

  lemma InsertedListed(objs: Objects, d: nat, name: string, kind: Kind, e: nat, k: nat)
    requires Valid(objs) && d < |objs| && objs[d].kind.Directory? && (kind.Directory? ==> kind.list == [])
    requires var objs' := Inserted(objs, d, name, kind);
      e < |objs'| && objs'[e].kind.Directory? && k < |objs'[e].kind.list|
    ensures Listed(Inserted(objs, d, name, kind), e, k)
  {
    var objs' := Inserted(objs, d, name, kind);
    assert e < |objs|;
    if k < |objs[e].kind.list| {
      assert Listed(objs, e, k);
      assert objs'[objs[e].kind.list[k]].parent == objs[objs[e].kind.list[k]].parent;
    } else {
      forall j | 0 <= j < k
        ensures objs'[e].kind.list[j] < |objs|
      {
        assert Listed(objs, e, j);
      }
    }
  }

  lemma InsertedLinkOk(objs: Objects, d: nat, name: string, kind: Kind, i: nat)
    requires Valid(objs) && d < |objs| && objs[d].kind.Directory? && i <= |objs|
    requires kind.Link? ==> Absolute(kind.target) && Walk(objs, |objs|, ROOT, Components(kind.target), false).found.Some?
    ensures LinkOk(Inserted(objs, d, name, kind), i)
  {
    hide Walk;
    var objs' := Inserted(objs, d, name, kind);
    ValidClosed(objs);
    InsertedGrown(objs, d, name, kind);
    if i < |objs| {
      assert LinkOk(objs, i);
      if objs[i].kind.Link? {
        WalkStable(objs, objs', i, ROOT, Components(objs[i].kind.target), false);
      }
    } else if kind.Link? {
      WalkStable(objs, objs', |objs|, ROOT, Components(kind.target), false);
    }
  }

  /** Creating an object, a directory, or a link whose target resolves, keeps the namespace well-formed. */
  lemma InsertedValid(objs: Objects, d: nat, name: string, kind: Kind)
    requires Valid(objs) && d < |objs| && objs[d].kind.Directory? && (kind.Directory? ==> kind.list == [])
    requires kind.Link? ==> Absolute(kind.target) && Walk(objs, |objs|, ROOT, Components(kind.target), false).found.Some?
    ensures Valid(Inserted(objs, d, name, kind))
  {
    hide Walk, Absolute, LinkOk, Listed;
    var objs' := Inserted(objs, d, name, kind);
    forall i {:trigger Placed(objs', i)} | 0 < i < |objs'|
      ensures Placed(objs', i)
    {
      if i < |objs| {
        assert Placed(objs, i);
      }
    }
    forall e, k {:trigger Listed(objs', e, k)} | 0 <= e < |objs'| && objs'[e].kind.Directory? && 0 <= k < |objs'[e].kind.list|
      ensures Listed(objs', e, k)
    {
      InsertedListed(objs, d, name, kind, e, k);
    }
    forall i {:trigger LinkOk(objs', i)} | 0 <= i < |objs'|
      ensures LinkOk(objs', i)
    {
      InsertedLinkOk(objs, d, name, kind, i);
    }
  }

  /** In a well-formed namespace the bound never stops a walk. */
  lemma LinkFollowed(objs: Objects, i: nat)
    requires Valid(objs) && i < |objs| && objs[i].kind.Link?
    ensures Absolute(objs[i].kind.target)
    ensures var t := Walk(objs, i, ROOT, Components(objs[i].kind.target), false);
      t.found.Some? && Walk(objs, |objs|, ROOT, Components(objs[i].kind.target), false) == t
  {
    hide Walk;
    assert LinkOk(objs, i);
    WalkWider(objs, i, |objs|, ROOT, Components(objs[i].kind.target), false);
  }

  /** Walking on behind a link is walking the target followed by the rest of the path from the root. */
  lemma ReparseIsWalk(objs: Objects, cur: nat, names: seq<string>, i: nat)
    requires Valid(objs) && cur < |objs| && objs[cur].kind.Directory? && names != []
    requires First(objs, objs[cur].kind.list, names[0]) == Some(i) && objs[i].kind.Link?
    ensures Absolute(objs[i].kind.target)
    ensures var w := Walk(objs, |objs|, cur, names, false);
      var v := Walk(objs, |objs|, ROOT, Components(objs[i].kind.target) + names[1..], false);
      v.found == w.found && v.steps + 1 == w.steps
  {
    LinkFollowed(objs, i);
    hide Valid;
    WalkConcat(objs, |objs|, ROOT, Components(objs[i].kind.target), names[1..], false);
  }
}
