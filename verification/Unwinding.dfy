/** Structured exception handling: the search for a scope that takes an exception, and the unwinding of
    everything inside it (kernel/except.cpp). */
module Unwinding {

  const TRYLEVEL_NONE := -1

  /** What a filter says; deciding it has no other effect here. */
  datatype Disposition = ContinueExecution | ExecuteHandler | ContinueSearch

  /** A scope with a filter is a try/except, one without a try/finally. */
  datatype Filter = NoFilter | Decides(answer: Disposition)

  datatype Scope = Scope(previous: int, filter: Filter)

  /** EXCEPTION_FRAME with its scope table. */
  datatype Frame = Frame(table: seq<Scope>, trylevel: int)

  /** A handler that was run: that of a frame's scope. */
  datatype Ran = Ran(frame: nat, level: int)

  /** Scopes are numbered so that each lies inside one with a smaller number, or inside none. */
  ghost predicate Nested(table: seq<Scope>) {
    forall l :: 0 <= l < |table| ==> TRYLEVEL_NONE <= table[l].previous < l
  }

  ghost predicate FrameOk(f: Frame) {
    Nested(f.table) && TRYLEVEL_NONE <= f.trylevel < |f.table|
  }

  ghost predicate FramesOk(frames: seq<Frame>) {
    forall g :: 0 <= g < |frames| ==> FrameOk(frames[g])
  }

  ghost predicate InTable(table: seq<Scope>, levels: seq<int>) {
    forall k :: 0 <= k < |levels| ==> 0 <= levels[k] < |table|
  }

  // ---------------------------------------------------------------- scopes

  /** The scopes around a point, innermost first. */
  function Levels(table: seq<Scope>, level: int): (ls: seq<int>)
    requires Nested(table) && TRYLEVEL_NONE <= level < |table|
    ensures InTable(table, ls) && forall k :: 0 <= k < |ls| ==> ls[k] <= level
    decreases level
  {
    if level == TRYLEVEL_NONE then [] else [level] + Levels(table, table[level].previous)
  }

  /** They are the scope the point is in, the one that lies in, and so on up to one that lies in none. */
  lemma {:induction false} LevelsLinked(table: seq<Scope>, level: int, k: nat)
    requires Nested(table) && TRYLEVEL_NONE <= level < |table| && k < |Levels(table, level)|
    ensures var ls := Levels(table, level);
      && (k == 0 ==> ls[k] == level)
      && 0 <= ls[k] < |table| && table[ls[k]].previous == if k + 1 < |ls| then ls[k + 1] else TRYLEVEL_NONE
    decreases level
  {
    var rest := Levels(table, table[level].previous);
    if k > 0 {
      LevelsLinked(table, table[level].previous, k - 1);
    } else if rest != [] {
      LevelsLinked(table, table[level].previous, 0);
    }
  }

  /** No scope is listed twice. */
  lemma {:induction false} LevelsDescend(table: seq<Scope>, level: int, i: nat, j: nat)
    requires Nested(table) && TRYLEVEL_NONE <= level < |table| && i < j < |Levels(table, level)|
    ensures Levels(table, level)[i] > Levels(table, level)[j]
    decreases level
  {
    var rest := Levels(table, table[level].previous);
    if i == 0 {
      assert Levels(table, level)[j] == rest[j - 1] && rest[j - 1] in rest;
    } else {
      LevelsDescend(table, table[level].previous, i - 1, j - 1);
    }
  }

  /** The scopes around `level` that lie strictly inside scope `outer`. */
  function Inside(table: seq<Scope>, level: int, outer: int): (ls: seq<int>)
    requires Nested(table) && TRYLEVEL_NONE <= level < |table|
    ensures InTable(table, ls) && forall k :: 0 <= k < |ls| ==> outer < ls[k] <= level
    decreases level
  {
    if level == TRYLEVEL_NONE || level <= outer then [] else [level] + Inside(table, table[level].previous, outer)
  }

  /** Scopes strictly inside one of those around a point, and from that one on outwards, make up all. */
  lemma {:induction false} InsideThenRest(table: seq<Scope>, level: int, outer: int)
    requires Nested(table) && TRYLEVEL_NONE <= level < |table|
    requires outer == TRYLEVEL_NONE || outer in Levels(table, level)
    ensures TRYLEVEL_NONE <= outer < |table|
    ensures Levels(table, level) == Inside(table, level, outer) + Levels(table, outer)
    decreases level
  {
    if level > outer {
      var previous := table[level].previous;
      LevelsUnfold(table, level, outer);
      hide Levels, Inside;
      InsideThenRest(table, previous, outer);
      assert [level] + (Inside(table, previous, outer) + Levels(table, outer))
          == ([level] + Inside(table, previous, outer)) + Levels(table, outer);
    } else {
      assert outer in Levels(table, level) ==> outer == level;
    }
  }

  lemma LevelsUnfold(table: seq<Scope>, level: int, outer: int)
    requires Nested(table) && 0 <= level < |table| && level > outer
    ensures Levels(table, level) == [level] + Levels(table, table[level].previous)
    ensures Inside(table, level, outer) == [level] + Inside(table, table[level].previous, outer)
  {
  }

  /** The finally blocks among the given scopes of a frame, in that order. */
  function Finallies(f: nat, table: seq<Scope>, levels: seq<int>): (rs: seq<Ran>)
    requires InTable(table, levels)
  {
    if levels == [] then []
    else (if table[levels[0]].filter.NoFilter? then [Ran(f, levels[0])] else []) + Finallies(f, table, levels[1..])
  }

  // ---------------------------------------------------------------- the search

  /** The first scope outwards from `level` whose filter does not let the search go on. */
  function Chosen(table: seq<Scope>, level: int): (c: int)
    requires Nested(table) && TRYLEVEL_NONE <= level < |table|
    ensures c == TRYLEVEL_NONE || (c in Levels(table, level) && 0 <= c < |table| && Takes(table[c]))
    decreases level
  {
    if level == TRYLEVEL_NONE then TRYLEVEL_NONE
    else if Takes(table[level]) then level
    else Chosen(table, table[level].previous)
  }

  predicate Takes(s: Scope) { s.filter.Decides? && !s.filter.answer.ContinueSearch? }

  /** It is the innermost one: every scope inside it is a finally block or says to search on, and so is every
      scope around the point if none is chosen. */
  lemma {:induction false} ChosenIsInnermost(table: seq<Scope>, level: int, l: int)
    requires Nested(table) && TRYLEVEL_NONE <= level < |table| && l in Levels(table, level)
    ensures 0 <= l < |table|
    ensures var c := Chosen(table, level);
      && (l > c ==> table[l].filter in {NoFilter, Decides(ContinueSearch)})
      && (l == c ==> table[l].filter in {Decides(ContinueExecution), Decides(ExecuteHandler)})
    decreases level
  {
    TakesIs(table[level]);
    if !Takes(table[level]) && l != level {
      ChosenIsInnermost(table, table[level].previous, l);
    }
  }

  lemma TakesIs(s: Scope)
    ensures Takes(s) <==> s.filter in {Decides(ContinueExecution), Decides(ExecuteHandler)}
    ensures Takes(s) <==> s.filter !in {NoFilter, Decides(ContinueSearch)}
  {
    if s.filter.Decides? {
      match s.filter.answer
      case ContinueExecution =>
      case ExecuteHandler =>
      case ContinueSearch =>
    }
  }

  /** Every scope around the point frame f is at is a finally block or says to search on. */
  ghost predicate AllSearch(f: Frame)
    requires FrameOk(f)
  {
    forall l :: l in Levels(f.table, f.trylevel) ==> f.table[l].filter in {NoFilter, Decides(ContinueSearch)}
  }

  lemma ChosenExactly(f: Frame)
    requires FrameOk(f)
    ensures Chosen(f.table, f.trylevel) == TRYLEVEL_NONE <==> AllSearch(f)
  {
    hide Takes, Chosen;
    var ls, c := Levels(f.table, f.trylevel), Chosen(f.table, f.trylevel);
    forall l | l in ls
      ensures l > c ==> f.table[l].filter in {NoFilter, Decides(ContinueSearch)}
      ensures l == c ==> f.table[l].filter !in {NoFilter, Decides(ContinueSearch)}
    {
      ChosenIsInnermost(f.table, f.trylevel, l);
    }
  }

  datatype Outcome =
    | Handled(frame: nat, level: int)
    | Resumed(frame: nat)
    | Unhandled

  /** What becomes of an exception: the innermost frame with a scope that takes it decides. */
  function Decided(frames: seq<Frame>, f: nat): (o: Outcome)
    requires f <= |frames| && FramesOk(frames)
    decreases |frames| - f
  {
    if f == |frames| then Unhandled
    else
      var c := Chosen(frames[f].table, frames[f].trylevel);
      if c == TRYLEVEL_NONE then Decided(frames, f + 1)
      else if frames[f].table[c].filter.answer.ContinueExecution? then Resumed(f)
      else Handled(f, c)
  }

  /** What the filters answered.  A handler is run only for a scope that says so, with every scope of the frames
      before and every scope inside it a finally block or searching on; an exception is resumed only if the
      innermost scope of its frame that says anything else says that; nobody handles it exactly when every
      scope of every frame is a finally block or searches on. */
  lemma {:induction false} DecidedExactly(frames: seq<Frame>, f: nat)
    requires f <= |frames| && FramesOk(frames)
    ensures var o := Decided(frames, f);
      && (o.Unhandled? <==> forall g :: f <= g < |frames| ==> AllSearch(frames[g]))
      && (!o.Unhandled? ==> f <= o.frame < |frames| && (forall g :: f <= g < o.frame ==> AllSearch(frames[g])))
      && (o.Handled? ==> Answers(frames[o.frame], o.level, ExecuteHandler))
      && (o.Resumed? ==> exists l :: Answers(frames[o.frame], l, ContinueExecution))
    decreases |frames| - f
  {
    hide AllSearch, Levels, Chosen, Takes;
    if f < |frames| {
      var frame := frames[f];
      assert FrameOk(frame);
      ChosenExactly(frame);
      if Chosen(frame.table, frame.trylevel) == TRYLEVEL_NONE {
        DecidedExactly(frames, f + 1);
      } else {
        ChosenAnswers(frame);
      }
    }
  }

  /** Scope l around the point frame f is at answers d, and every scope inside it is a finally block or says to
      search on. */
  ghost predicate Answers(f: Frame, l: int, d: Disposition)
    requires FrameOk(f)
  {
    && l in Levels(f.table, f.trylevel) && f.table[l].filter == Decides(d)
    && (forall m :: m in Levels(f.table, f.trylevel) && m > l ==> f.table[m].filter in {NoFilter, Decides(ContinueSearch)})
  }

  lemma ChosenAnswers(f: Frame)
    requires FrameOk(f) && Chosen(f.table, f.trylevel) != TRYLEVEL_NONE
    ensures var c := Chosen(f.table, f.trylevel);
      && 0 <= c < |f.table| && f.table[c].filter.Decides?
      && f.table[c].filter.answer != ContinueSearch && Answers(f, c, f.table[c].filter.answer)
  {
    hide Takes, Chosen;
    var ls, c := Levels(f.table, f.trylevel), Chosen(f.table, f.trylevel);
    forall l | l in ls
      ensures l > c ==> f.table[l].filter in {NoFilter, Decides(ContinueSearch)}
      ensures l == c ==> f.table[l].filter in {Decides(ContinueExecution), Decides(ExecuteHandler)}
    {
      ChosenIsInnermost(f.table, f.trylevel, l);
    }
  }

  // ---------------------------------------------------------------- what is run

  /** All finally blocks of the frames from `from` to before frame f, the innermost frame first. */
  function AllFinallies(frames: seq<Frame>, from: nat, f: nat): (rs: seq<Ran>)
    requires f <= |frames| && FramesOk(frames)
    decreases f
  {
    if f <= from then []
    else AllFinallies(frames, from, f - 1)
         + Finallies(f - 1, frames[f - 1].table, Levels(frames[f - 1].table, frames[f - 1].trylevel))
  }

  lemma NoFinallies(frames: seq<Frame>, from: nat)
    requires from <= |frames| && FramesOk(frames)
    ensures AllFinallies(frames, from, from) == []
  {
  }

  lemma MoreFinallies(frames: seq<Frame>, from: nat, f: nat)
    requires from <= f < |frames| && FramesOk(frames)
    ensures FrameOk(frames[f]) && AllFinallies(frames, from, f + 1)
         == AllFinallies(frames, from, f) + Finallies(f, frames[f].table, Levels(frames[f].table, frames[f].trylevel))
  {
  }

  /** The handlers run when the scope takes the exception: every finally block of the frames before, those
      of its own frame strictly inside it, and at last its own. */
  function HandlersRun(frames: seq<Frame>, from: nat, f: nat, level: int): seq<Ran>
    requires f < |frames| && FramesOk(frames)
  {
    AllFinallies(frames, from, f) + Finallies(f, frames[f].table, Inside(frames[f].table, frames[f].trylevel, level)) + [Ran(f, level)]
  }

  /** Handler a belongs to a frame before that of handler b, or to a scope inside b's in the same frame. */
  ghost predicate Before(a: Ran, b: Ran) {
    a.frame < b.frame || (a.frame == b.frame && a.level > b.level)
  }

  /** Inner handlers first, and none twice. */
  ghost predicate Ordered(rs: seq<Ran>) {
    forall i, j :: 0 <= i < j < |rs| ==> Before(rs[i], rs[j])
  }

  lemma OrderedJoined(a: seq<Ran>, b: seq<Ran>)
    requires Ordered(a) && Ordered(b) && forall x, y :: x in a && y in b ==> Before(x, y)
    ensures Ordered(a + b)
  {
    hide Before;
  }

  ghost predicate Descending(ls: seq<int>) {
    forall i, j :: 0 <= i < j < |ls| ==> ls[i] > ls[j]
  }

  /** One round of leaving scopes. */
  lemma ScopeStep(f: nat, table: seq<Scope>, level: int, passed: int)
    requires Nested(table) && 0 <= level < |table|
    ensures var previous := table[level].previous;
      if level <= passed then
        Finallies(f, table, Inside(table, level, passed)) == [] && (passed in Levels(table, level) ==> level == passed)
      else
        && Finallies(f, table, Inside(table, level, passed))
           == (if table[level].filter.NoFilter? then [Ran(f, level)] else []) + Finallies(f, table, Inside(table, previous, passed))
        && (passed in Levels(table, level) ==> passed in Levels(table, previous))
  {
    if level > passed {
      var rest := Inside(table, table[level].previous, passed);
      assert ([level] + rest)[1..] == rest;
    }
  }

  lemma NothingInside(f: nat, table: seq<Scope>, passed: int)
    requires Nested(table)
    ensures Finallies(f, table, Inside(table, TRYLEVEL_NONE, passed)) == [] && Levels(table, TRYLEVEL_NONE) == []
  {
  }

  lemma {:induction false} FinalliesOrdered(f: nat, table: seq<Scope>, levels: seq<int>)
    requires InTable(table, levels) && Descending(levels)
    ensures Ordered(Finallies(f, table, levels))
    ensures forall r :: r in Finallies(f, table, levels) <==> r.frame == f && r.level in levels && table[r.level].filter.NoFilter?
  {
    if levels != [] {
      var rest := levels[1..];
      assert forall i :: 0 <= i < |rest| ==> rest[i] == levels[i + 1];
      FinalliesOrdered(f, table, rest);
      forall l | l in rest
        ensures levels[0] > l
      {
        var k :| 0 <= k < |rest| && rest[k] == l;
      }
      OrderedJoined(if table[levels[0]].filter.NoFilter? then [Ran(f, levels[0])] else [], Finallies(f, table, rest));
    }
  }

  lemma LevelsOrdered(table: seq<Scope>, level: int, outer: int)
    requires Nested(table) && TRYLEVEL_NONE <= level < |table|
    requires outer == TRYLEVEL_NONE || outer in Levels(table, level)
    ensures Descending(Inside(table, level, outer))
    ensures forall l :: l in Inside(table, level, outer) <==> l in Levels(table, level) && l > outer
  {
    hide Levels, Inside, Nested;
    var ls, all := Inside(table, level, outer), Levels(table, level);
    InsideThenRest(table, level, outer);
    forall i, j | 0 <= i < j < |ls|
      ensures ls[i] > ls[j]
    {
      LevelsDescend(table, level, i, j);
      assert all[i] == ls[i] && all[j] == ls[j];
    }
    forall l | l in all
      ensures l > outer ==> l in ls
    {
      if l !in ls {
        assert l in Levels(table, outer);
      }
    }
  }

  /** A finally scope around the point frame r.frame is at. */
  ghost predicate IsFinally(frames: seq<Frame>, r: Ran)
    requires FramesOk(frames) && r.frame < |frames|
  {
    var f := frames[r.frame];
    r.level in Levels(f.table, f.trylevel) && f.table[r.level].filter.NoFilter?
  }

  lemma {:induction false} AllFinalliesExactly(frames: seq<Frame>, from: nat, f: nat)
    requires f <= |frames| && FramesOk(frames)
    ensures Ordered(AllFinallies(frames, from, f))
    ensures forall r :: r in AllFinallies(frames, from, f) <==> from <= r.frame < f && IsFinally(frames, r)
    decreases f
  {
    hide Levels, Finallies, Inside, Ordered, Nested;
    if f > from {
      var g := f - 1;
      var frame := frames[g];
      AllFinalliesExactly(frames, from, g);
      assert FrameOk(frame);
      LevelsOrdered(frame.table, frame.trylevel, TRYLEVEL_NONE);
      InsideNone(frame.table, frame.trylevel);
      FinalliesOrdered(g, frame.table, Levels(frame.table, frame.trylevel));
      OrderedJoined(AllFinallies(frames, from, g), Finallies(g, frame.table, Levels(frame.table, frame.trylevel)));
    } else {
      EmptyOrdered();
    }
  }

  lemma EmptyOrdered()
    ensures Ordered([])
  {
  }

  lemma OneOrdered(r: Ran)
    ensures Ordered([r])
  {
  }

  /** Exactly the finally blocks of the frames before the chosen one, those of the chosen frame strictly
      inside the chosen scope, and the chosen handler are run: inner frames first, in each frame inner scopes
      first, and none twice. */
  lemma HandlersRunExactly(frames: seq<Frame>, from: nat, f: nat, level: int)
    requires from <= f < |frames| && FramesOk(frames) && level in Levels(frames[f].table, frames[f].trylevel)
    ensures Ordered(HandlersRun(frames, from, f, level))
    ensures forall i, j :: 0 <= i < j < |HandlersRun(frames, from, f, level)| ==>
      HandlersRun(frames, from, f, level)[i] != HandlersRun(frames, from, f, level)[j]
    ensures forall r :: r in HandlersRun(frames, from, f, level) <==>
      || (from <= r.frame < f && IsFinally(frames, r))
      || (r.frame == f && r.level > level && IsFinally(frames, r))
      || r == Ran(f, level)
  {
    hide Levels, Finallies, Inside, Ordered, Nested, AllFinallies;
    var frame := frames[f];
    assert FrameOk(frame);
    var outer := AllFinallies(frames, from, f);
    var inner := Finallies(f, frame.table, Inside(frame.table, frame.trylevel, level));
    AllFinalliesExactly(frames, from, f);
    LevelsOrdered(frame.table, frame.trylevel, level);
    FinalliesOrdered(f, frame.table, Inside(frame.table, frame.trylevel, level));
    OrderedJoined(outer, inner);
    OneOrdered(Ran(f, level));
    OrderedJoined(outer + inner, [Ran(f, level)]);
    OrderedOnce(HandlersRun(frames, from, f, level));
  }

  lemma OrderedOnce(rs: seq<Ran>)
    requires Ordered(rs)
    ensures forall i, j :: 0 <= i < j < |rs| ==> rs[i] != rs[j]
  {
  }

  lemma {:induction false} InsideNone(table: seq<Scope>, level: int)
    requires Nested(table) && TRYLEVEL_NONE <= level < |table|
    ensures Inside(table, level, TRYLEVEL_NONE) == Levels(table, level)
    decreases level
  {
    if level != TRYLEVEL_NONE {
      InsideNone(table, table[level].previous);
    }
  }

  /** The try level stored after a handler is chosen is that of the surroundings of the chosen scope exactly
      when the chosen scope lies in no other. */
  lemma StoredTryLevel(table: seq<Scope>, level: int)
    requires Nested(table) && 0 <= level < |table|
    ensures table[0].previous == table[level].previous <==> table[level].previous == TRYLEVEL_NONE
  {
    assert table[0].previous == TRYLEVEL_NONE;
  }

  // ---------------------------------------------------------------- the frame list

  /** How the dispatcher leaves: into a handler, back to the point of the exception, or by ending the thread. */
  datatype Dispatched = Handles(frame: nat, level: int) | Resumes | EndsThread

  class FrameList {
    var frames: seq<Frame>         // innermost first, at ascending addresses
    var head: nat                  // where Pcb->ExceptionList points; |frames| is its end
    var pending: bool              // whether Pcb->CurrentException is set
    var ran: seq<Ran>              // the handlers run so far

    ghost predicate Valid()
      reads this
    {
      head <= |frames| && FramesOk(frames)
    }

    constructor (frames: seq<Frame>)
      requires FramesOk(frames)
      ensures Valid() && this.frames == frames && head == 0 && ran == [] && !pending
    {
      this.frames, head, ran, pending := frames, 0, [], false;
    }

    /** _local_unwind2: leave scope after scope, running finally blocks, until one is not inside `passed`. */
    method LocalUnwind(f: nat, passed: int)
      requires Valid() && f < |frames| && TRYLEVEL_NONE <= passed
      modifies this`frames, this`ran
      ensures Valid() && |frames| == |old(frames)|
      ensures var old_ := old(frames[f]);
        && ran == old(ran) + Finallies(f, old_.table, Inside(old_.table, old_.trylevel, passed))
        && frames == old(frames)[f := old_.(trylevel := frames[f].trylevel)] && frames[f].trylevel <= passed
      ensures passed in Levels(old(frames[f]).table, old(frames[f]).trylevel) ==> frames[f].trylevel == passed
      ensures passed == TRYLEVEL_NONE ==> frames[f].trylevel == TRYLEVEL_NONE
    {
      hide Finallies, Inside, Levels;
      ghost var frame, fs, rs := frames[f], frames, ran;
      var scopetable := frames[f].table;
      assert fs == fs[f := frame.(trylevel := frame.trylevel)];
      while frames[f].trylevel != TRYLEVEL_NONE
        invariant Valid() && |frames| == |fs| && frames == fs[f := frame.(trylevel := frames[f].trylevel)]
        invariant rs + Finallies(f, frame.table, Inside(frame.table, frame.trylevel, passed))
               == ran + Finallies(f, frame.table, Inside(frame.table, frames[f].trylevel, passed))
        invariant passed in Levels(frame.table, frame.trylevel) ==> passed in Levels(frame.table, frames[f].trylevel)
        decreases frames[f].trylevel
      {
        var trylevel := frames[f].trylevel;
        ScopeStep(f, frame.table, trylevel, passed);
        if trylevel != TRYLEVEL_NONE && trylevel <= passed {
          return;
        }
        frames := frames[f := frames[f].(trylevel := scopetable[trylevel].previous)];
        if scopetable[trylevel].filter.NoFilter? {
          ran := ran + [Ran(f, trylevel)];
        }
      }
      NothingInside(f, frame.table, passed);
    }

    /** RtlUnwind up to frame `target`, or of all frames if it is |frames|, which stands for NULL: each frame
        before it is told to unwind wholly.  The list head is left on the last frame unwound.  A target the
        walk has passed already is refused (STATUS_INVALID_UNWIND_TARGET). */
    method Unwind(target: nat) returns (valid: bool)
      requires Valid() && target <= |frames|
      modifies this`frames, this`head, this`ran
      ensures Valid() && |frames| == |old(frames)|
      ensures valid <==> !(target < old(head) < |frames|)
      ensures ran == old(ran) + AllFinallies(old(frames), old(head), target)
      ensures forall g :: 0 <= g < |frames| ==>
        frames[g] == if old(head) <= g < target then old(frames[g]).(trylevel := TRYLEVEL_NONE) else old(frames[g])
      ensures head == if old(head) < target then target - 1 else old(head)
    {
      hide Finallies, Inside, Levels, Nested;
      var frame := head;
      ghost var start := head;
      while frame != |frames|
        invariant start <= frame <= |frames| == |old(frames)| && Valid() && (frame <= target || frame == start)
        invariant ran == old(ran) + AllFinallies(old(frames), start, frame)
        invariant forall g :: 0 <= g < |frames| ==>
          frames[g] == if start <= g < frame then old(frames[g]).(trylevel := TRYLEVEL_NONE) else old(frames[g])
        invariant head == if start < frame then frame - 1 else start
        decreases |frames| - frame
      {
        if frame == target {
          return true;
        } else if target != |frames| && target <= frame {
          return false;
        }
        InsideNone(frames[frame].table, frames[frame].trylevel);
        MoreFinallies(old(frames), start, frame);
        LocalUnwind(frame, TRYLEVEL_NONE);
        head := frame;
        frame := frame + 1;
      }
      return true;
    }

    /** Frame f is where a handler of its runs, reached from fs with the list head at h: the frames before it
        are outside all their scopes, it is where the first scope of its table lies, and the list head is on
        the last frame unwound. */
    ghost predicate Entered(fs: seq<Frame>, h: nat, f: nat)
      requires f < |fs| && |fs[f].table| > 0
      reads this
    {
      && |frames| == |fs| && head == (if h < f then f - 1 else h)
      && frames[f] == fs[f].(trylevel := fs[f].table[0].previous)
      && (forall g :: 0 <= g < |fs| && g != f ==>
           frames[g] == if h <= g < f then fs[g].(trylevel := TRYLEVEL_NONE) else fs[g])
    }

    /** The part of _except_handler3 that unwinds and runs the handler of a scope. */
    method ExecuteHandler(f: nat, level: int)
      requires Valid() && head <= f < |frames| && 0 <= level < |frames[f].table|
      modifies this`frames, this`head, this`ran
      ensures Valid() && |frames| == |old(frames)|
      ensures ran == old(ran) + HandlersRun(old(frames), old(head), f, level)
      ensures Entered(old(frames), old(head), f)
    {
      hide Finallies, Inside, AllFinallies;
      assert FrameOk(frames[f]);
      ghost var rs := ran;
      var valid := Unwind(f);
      LocalUnwind(f, level);
      frames := frames[f := frames[f].(trylevel := frames[f].table[0].previous)];
      ran := ran + [Ran(f, level)];
    }

    /** _except_handler3 on a frame that is not being unwound.  A scope that executes its handler has all
        frames before this one and all scopes inside it unwound first; the try level stored then is the
        one outside the first scope of the table, which is right exactly for a scope inside no other. */
    method ExceptHandler(f: nat) returns (outcome: Outcome)
      requires Valid() && head <= f < |frames|
      modifies this`frames, this`head, this`ran
      ensures Valid() && |frames| == |old(frames)|
      ensures var frame := old(frames[f]); var c := Chosen(frame.table, frame.trylevel);
        outcome == if c == TRYLEVEL_NONE then Unhandled
                   else if frame.table[c].filter.answer.ContinueExecution? then Resumed(f) else Handled(f, c)
      ensures match outcome
        case Handled(g, l) => g == f && Answers(old(frames[f]), l, Disposition.ExecuteHandler)
        case Resumed(g) => g == f && exists l :: Answers(old(frames[f]), l, ContinueExecution)
        case Unhandled => AllSearch(old(frames[f]))
      ensures !outcome.Handled? ==> frames == old(frames) && ran == old(ran) && head == old(head)
      ensures outcome.Handled? ==>
        && Chosen(old(frames[f]).table, old(frames[f]).trylevel) == outcome.level < |old(frames[f]).table|
        && ran == old(ran) + HandlersRun(old(frames), old(head), f, outcome.level)
        && Entered(old(frames), old(head), f)
        && (frames[f].trylevel == frames[f].table[outcome.level].previous
            <==> frames[f].table[outcome.level].previous == TRYLEVEL_NONE)
    {
      hide AllFinallies, Finallies, Inside, Levels;
      assert FrameOk(frames[f]);
      ChosenExactly(frames[f]);
      if Chosen(frames[f].table, frames[f].trylevel) != TRYLEVEL_NONE {
        ChosenAnswers(frames[f]);
      }
      var trylevel := frames[f].trylevel;
      while trylevel != TRYLEVEL_NONE
        invariant TRYLEVEL_NONE <= trylevel < |frames[f].table| && Valid() && head == old(head)
        invariant frames == old(frames) && ran == old(ran)
        invariant Chosen(frames[f].table, trylevel) == Chosen(frames[f].table, frames[f].trylevel)
        decreases trylevel
      {
        var filter := frames[f].table[trylevel].filter;
        if filter.Decides? {
          if !filter.answer.ContinueSearch? {
            if filter.answer.ContinueExecution? {
              return Resumed(f);
            }
            StoredTryLevel(frames[f].table, trylevel);
            ExecuteHandler(f, trylevel);
            return Handled(f, trylevel);
          }
        }
        trylevel := frames[f].table[trylevel].previous;
      }
      return Unhandled;
    }

    /** KeDispatchException: ask frame after frame.  An exception nobody takes ends the thread, and so does
        one raised while another is pending; an exception stays pending unless it is resumed, also when a
        handler took it, so that the first one a thread raises after that ends it. */
    method Dispatch(noncontinuable: bool) returns (outcome: Dispatched)
      requires Valid()
      modifies this
      ensures Valid()
      ensures old(pending) ==> outcome == EndsThread && !pending
      ensures !old(pending) ==> match Decided(old(frames), old(head))
        case Handled(f, level) =>
          && old(head) <= f < |old(frames)| && outcome == Handles(f, level) && pending
          && ran == old(ran) + HandlersRun(old(frames), old(head), f, level)
          && |old(frames)[f].table| > 0 && Entered(old(frames), old(head), f)
        case Resumed(f) => !pending && outcome == if noncontinuable then EndsThread else Resumes
        case Unhandled => pending && outcome == EndsThread
      ensures !old(pending) ==>
        (pending && outcome == EndsThread <==> forall g :: old(head) <= g < |old(frames)| ==> AllSearch(old(frames)[g]))
      ensures outcome.Handles? ==>
        && Answers(old(frames)[outcome.frame], outcome.level, Disposition.ExecuteHandler)
        && (forall g :: old(head) <= g < outcome.frame ==> AllSearch(old(frames)[g]))
      ensures !outcome.Handles? ==> frames == old(frames) && ran == old(ran) && head == old(head)
      decreases !pending
    {
      hide HandlersRun, Chosen, AllFinallies, AllSearch, Answers;
      DecidedExactly(frames, head);
      if pending {
        pending := false;
        return EndsThread;
      }
      pending := true;
      var f := head;
      while f < |frames|
        invariant head <= f <= |frames| && Valid() && head == old(head) && frames == old(frames) && ran == old(ran) && pending
        invariant Decided(frames, f) == Decided(frames, old(head))
        decreases |frames| - f
      {
        var o := ExceptHandler(f);
        match o {
          case Handled(_, level) =>
            return Handles(f, level);
          case Resumed(_) =>
            if noncontinuable {
              outcome := Dispatch(true);
              return;
            }
            NoFinallies(frames, head);
            var valid := Unwind(head);
            pending := false;
            assert frames == old(frames);
            return Resumes;
          case Unhandled =>
        }
        f := f + 1;
      }
      return EndsThread;
    }
  }
}
