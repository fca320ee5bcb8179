/**
 * Recursive include expansion of amalgamation/amalgamation.py. File contents and find_source are functions; the
 * output is the sequence of events that expand writes.
 */
module Amalgamation {
  import opened Basics

  /** A line of a file: copied text, or an include directive with the name it was reduced to. */
  datatype Line = Text(line: string) | Include(name: string)

  datatype Event = Begin(file: string) | Copy(file: string, line: string) | End(file: string)

  /** The one file that may be expanded again after it is in the history. */
  const EXEMPT := "mshadow/mshadow/expr_scalar-inl.h"

  /** The files of a run: their lines, and find_source(name, includer, stage). */
  datatype Tree = Tree(
    lines: string -> seq<Line>,
    find: (string, string, string) -> Option<string>,
    sources: set<string>)

  ghost predicate FindsSources(tree: Tree) {
    forall name, start, stage :: tree.find(name, start, stage).Some? ==>
      tree.find(name, start, stage).value in tree.sources
  }

  /** File x includes file y when expanded in this stage. */
  ghost predicate Includes(tree: Tree, stage: string, x: string, y: string) {
    exists i :: 0 <= i < |tree.lines(x)| && LineFinds(tree, stage, x, i, y)
  }

  ghost predicate LineFinds(tree: Tree, stage: string, x: string, i: nat, y: string)
    requires i < |tree.lines(x)|
  {
    tree.lines(x)[i].Include? && tree.find(tree.lines(x)[i].name, x, stage) == Some(y)
  }

  ghost predicate IsChain(tree: Tree, stage: string, p: seq<string>) {
    forall k :: 0 <= k < |p| - 1 ==> Includes(tree, stage, p[k], p[k + 1])
  }

  /** A chain of includes, possibly empty, leads from x to y. */
  ghost predicate Reaches(tree: Tree, stage: string, x: string, y: string) {
    exists p :: |p| >= 1 && p[0] == x && p[|p| - 1] == y && IsChain(tree, stage, p)
  }

  /** The events of one file, in order. */
  function Project(out: seq<Event>, f: string): seq<Event> {
    if out == [] then []
    else
      var e := out[|out| - 1];
      if e.file == f then Project(out[..|out| - 1], f) + [e] else Project(out[..|out| - 1], f)
  }

  lemma ProjectAppend(out: seq<Event>, e: Event, f: string)
    ensures Project(out + [e], f) == if e.file == f then Project(out, f) + [e] else Project(out, f)
  {
    assert (out + [e])[..|out|] == out;
  }

  /** The copied lines among the first n lines of f. */
  function Copied(tree: Tree, f: string, n: nat): seq<Event>
    requires n <= |tree.lines(f)|
  {
    if n == 0 then []
    else if tree.lines(f)[n - 1].Text? then Copied(tree, f, n - 1) + [Copy(f, tree.lines(f)[n - 1].line)]
    else Copied(tree, f, n - 1)
  }

  /** What expanding f once leaves in the output for f. */
  function Whole(tree: Tree, f: string): seq<Event> {
    [Begin(f)] + Copied(tree, f, |tree.lines(f)|) + [End(f)]
  }

  /** How many of the first n lines of f are text. */
  ghost function TextBefore(tree: Tree, f: string, n: nat): nat
    requires n <= |tree.lines(f)|
  {
    |set i: nat | i < n && tree.lines(f)[i].Text?|
  }

  /** The events begin and end the file, and between them copy its text lines, each once and in order. */
  ghost predicate CopiesText(tree: Tree, f: string, out: seq<Event>) {
    && |out| == TextBefore(tree, f, |tree.lines(f)|) + 2
    && out[0] == Begin(f) && out[|out| - 1] == End(f)
    && forall i :: 0 <= i < |tree.lines(f)| && tree.lines(f)[i].Text? ==> CopiesLine(tree, f, i, out[1..|out| - 1])
  }

  ghost predicate CopiesLine(tree: Tree, f: string, i: nat, out: seq<Event>)
    requires i < |tree.lines(f)| && tree.lines(f)[i].Text?
  {
    TextBefore(tree, f, i) < |out| && out[TextBefore(tree, f, i)] == Copy(f, tree.lines(f)[i].line)
  }

  lemma TextNext(tree: Tree, f: string, n: nat)
    requires n < |tree.lines(f)|
    ensures TextBefore(tree, f, n + 1) == TextBefore(tree, f, n) + if tree.lines(f)[n].Text? then 1 else 0
  {
    var a := set i: nat | i < n && tree.lines(f)[i].Text?;
    var b := set i: nat | i < n + 1 && tree.lines(f)[i].Text?;
    if tree.lines(f)[n].Text? {
      assert b == a + {n};
    } else {
      assert b == a;
    }
  }

  lemma {:induction false} CopiedLines(tree: Tree, f: string, n: nat)
    requires n <= |tree.lines(f)|
    ensures |Copied(tree, f, n)| == TextBefore(tree, f, n)
    ensures forall i :: 0 <= i < n && tree.lines(f)[i].Text? ==> CopiesLine(tree, f, i, Copied(tree, f, n))
  {
    if n == 0 {
      assert TextBefore(tree, f, 0) == 0;
    } else {
      CopiedLines(tree, f, n - 1);
      TextNext(tree, f, n - 1);
      forall i | 0 <= i < n && tree.lines(f)[i].Text? ensures CopiesLine(tree, f, i, Copied(tree, f, n)) {
        assert i < n - 1 ==> CopiesLine(tree, f, i, Copied(tree, f, n - 1));
      }
    }
  }

  lemma WholeCopiesText(tree: Tree, f: string)
    ensures CopiesText(tree, f, Whole(tree, f))
  {
    CopiedLines(tree, f, |tree.lines(f)|);
    assert Whole(tree, f)[1..|Whole(tree, f)| - 1] == Copied(tree, f, |tree.lines(f)|);
  }

  lemma StackReaches(tree: Tree, stage: string, chain: seq<string>, y: string)
    requires IsChain(tree, stage, chain) && y in chain
    ensures Reaches(tree, stage, y, chain[|chain| - 1])
  {
    var j :| 0 <= j < |chain| && chain[j] == y;
    var p := chain[j..];
    forall k | 0 <= k < |p| - 1 ensures Includes(tree, stage, p[k], p[k + 1]) {
      assert Includes(tree, stage, chain[j + k], chain[j + k + 1]);
    }
  }

  lemma ExtendChain(tree: Tree, stage: string, chain: seq<string>, y: string)
    requires IsChain(tree, stage, chain) && (chain != [] ==> Includes(tree, stage, chain[|chain| - 1], y))
    ensures IsChain(tree, stage, chain + [y])
  {
    var p := chain + [y];
    forall k | 0 <= k < |p| - 1 ensures Includes(tree, stage, p[k], p[k + 1]) {
      if k < |chain| - 1 { assert Includes(tree, stage, chain[k], chain[k + 1]); }
    }
  }

  // ---- What a call of expand does to the state ----

  /** The global state of the script; `finished` is the history in the order it was filled. */
  datatype Snapshot = Snapshot(history: set<string>, out: seq<Event>, finished: seq<string>)

  /** Nothing of a file has been written before it is begun. */
  ghost predicate Fresh(s: Snapshot, open: seq<string>) {
    && (forall f :: f != EXEMPT && f !in s.history && f !in open ==> Project(s.out, f) == [])
    && (forall f :: f in s.history <==> f in s.finished)
  }

  /** Files already done, and those in `frozen`, get no further output. */
  ghost predicate Untouched(a: Snapshot, b: Snapshot, frozen: seq<string>) {
    forall f :: f != EXEMPT && (f in a.history || f in frozen) ==> Project(b.out, f) == Project(a.out, f)
  }

  /** Files that have become done were written whole, once. */
  ghost predicate WrittenWhole(tree: Tree, a: Snapshot, b: Snapshot, open: seq<string>) {
    forall f :: f != EXEMPT && f in b.history && f !in a.history && f !in open ==> Project(b.out, f) == Whole(tree, f)
  }

  /** Whatever a newly done file includes is done too, or is being expanded. */
  ghost predicate Covered(tree: Tree, stage: string, a: Snapshot, b: Snapshot, open: seq<string>) {
    forall z, y :: z in b.history && z !in a.history && Includes(tree, stage, z, y) ==> y in b.history || y in open
  }

  /** An included file is done before its includer, unless the include closes a cycle. */
  ghost predicate IncludedFirst(tree: Tree, stage: string, a: Snapshot, b: Snapshot) {
    forall k, y :: |a.finished| <= k < |b.finished| && Includes(tree, stage, b.finished[k], y) ==>
      y in b.finished[..k] || Reaches(tree, stage, y, b.finished[k])
  }

  ghost predicate Progress(
    tree: Tree, stage: string, frozen: seq<string>, open: seq<string>, a: Snapshot, b: Snapshot)
  {
    && Fresh(b, open)
    && a.history <= b.history && a.finished <= b.finished
    && Untouched(a, b, frozen)
    && WrittenWhole(tree, a, b, open)
    && Covered(tree, stage, a, b, open)
    && IncludedFirst(tree, stage, a, b)
  }

  lemma NoProgress(tree: Tree, stage: string, frozen: seq<string>, open: seq<string>, a: Snapshot)
    requires Fresh(a, open)
    ensures Progress(tree, stage, frozen, open, a, a)
  {
  }

  lemma ProgressFirst(tree: Tree, stage: string, a: Snapshot, b: Snapshot, c: Snapshot)
    requires IncludedFirst(tree, stage, a, b) && IncludedFirst(tree, stage, b, c)
    requires a.finished <= b.finished <= c.finished
    ensures IncludedFirst(tree, stage, a, c)
  {
    forall k, y | |a.finished| <= k < |c.finished| && Includes(tree, stage, c.finished[k], y)
      ensures y in c.finished[..k] || Reaches(tree, stage, y, c.finished[k])
    {
      if k < |b.finished| {
        assert c.finished[..k] == b.finished[..k] && c.finished[k] == b.finished[k];
      }
    }
  }

  lemma ProgressTwice(
    tree: Tree, stage: string, frozen: seq<string>, open: seq<string>, a: Snapshot, b: Snapshot, c: Snapshot)
    requires Progress(tree, stage, frozen, open, a, b) && Progress(tree, stage, open, open, b, c)
    requires forall f :: f in frozen ==> f in open
    ensures Progress(tree, stage, frozen, open, a, c)
  {
    ProgressFirst(tree, stage, a, b, c);
  }

  /** Writing an event of a file that is being expanded. */
  lemma WriteEvent(
    tree: Tree, stage: string, frozen: seq<string>, open: seq<string>, a: Snapshot, b: Snapshot, e: Event)
    requires Progress(tree, stage, frozen, open, a, b)
    requires e.file in open && e.file !in frozen && (e.file == EXEMPT || (e.file !in a.history && e.file !in b.history))
    ensures Progress(tree, stage, frozen, open, a, b.(out := b.out + [e]))
  {
    forall f ensures f != e.file ==> Project(b.out + [e], f) == Project(b.out, f) {
      ProjectAppend(b.out, e, f);
    }
  }

  /** All includes of x are done or being expanded, among its first n lines. */
  ghost predicate LinesCovered(tree: Tree, stage: string, x: string, n: nat, done: set<string>, open: seq<string>)
    requires n <= |tree.lines(x)|
  {
    forall j, y :: 0 <= j < n && tree.lines(x)[j].Include? && tree.find(tree.lines(x)[j].name, x, stage) == Some(y) ==>
      y in done || y in open
  }

  lemma FinishOrder(tree: Tree, stage: string, pending: seq<string>, x: string, a: Snapshot, b: Snapshot)
    requires IsChain(tree, stage, pending + [x]) && IncludedFirst(tree, stage, a, b) && a.finished <= b.finished
    requires LinesCovered(tree, stage, x, |tree.lines(x)|, b.history, pending + [x])
    requires forall f :: f in b.history <==> f in b.finished
    ensures IncludedFirst(tree, stage, a, b.(finished := b.finished + [x]))
  {
    var c := b.(finished := b.finished + [x]);
    forall k, y | |a.finished| <= k < |c.finished| && Includes(tree, stage, c.finished[k], y)
      ensures y in c.finished[..k] || Reaches(tree, stage, y, c.finished[k])
    {
      if k < |b.finished| {
        assert c.finished[..k] == b.finished[..k] && c.finished[k] == b.finished[k];
      } else {
        assert c.finished[..k] == b.finished;
        if y in pending + [x] { StackReaches(tree, stage, pending + [x], y); }
      }
    }
  }

  /** The state expand leaves when it has gone through all lines of x. */
  function Finish(b: Snapshot, x: string): Snapshot {
    Snapshot(b.history + {x}, b.out + [End(x)], if x in b.finished then b.finished else b.finished + [x])
  }

  lemma FinishFile(tree: Tree, stage: string, pending: seq<string>, x: string, a: Snapshot, b: Snapshot)
    requires Progress(tree, stage, pending, pending + [x], a, b) && Fresh(a, pending)
    requires IsChain(tree, stage, pending + [x]) && x !in pending && (x in a.history ==> x == EXEMPT)
    requires LinesCovered(tree, stage, x, |tree.lines(x)|, b.history, pending + [x])
    requires x != EXEMPT ==> x !in b.history && Project(b.out, x) == [Begin(x)] + Copied(tree, x, |tree.lines(x)|)
    ensures Progress(tree, stage, pending, pending, a, Finish(b, x))
  {
    var c := Finish(b, x);
    forall f ensures Project(c.out, f) == if f == x then Project(b.out, f) + [End(x)] else Project(b.out, f) {
      ProjectAppend(b.out, End(x), f);
    }
    if x !in b.finished {
      FinishOrder(tree, stage, pending, x, a, b);
    }
    FinishCovered(tree, stage, pending, x, a, b);
  }

  lemma FinishCovered(tree: Tree, stage: string, pending: seq<string>, x: string, a: Snapshot, b: Snapshot)
    requires Covered(tree, stage, a, b, pending + [x])
    requires LinesCovered(tree, stage, x, |tree.lines(x)|, b.history, pending + [x])
    ensures Covered(tree, stage, a, Finish(b, x), pending)
  {
    var c := Finish(b, x);
    forall z, y | z in c.history && z !in a.history && Includes(tree, stage, z, y)
      ensures y in c.history || y in pending
    {
      if z in b.history {
        assert y in b.history || y in pending + [x];
      } else {
        var i :| 0 <= i < |tree.lines(x)| && LineFinds(tree, stage, x, i, y);
      }
    }
  }

  // ---- In the middle of a file ----

  /** Files that were being expanded are not done until their own call ends. */
  ghost predicate StillOpen(a: Snapshot, b: Snapshot, open: seq<string>) {
    forall f :: f in open && f !in a.history ==> f !in b.history
  }

  /** expand has gone through the first i lines of x, having begun in state a. */
  ghost predicate Midway(tree: Tree, stage: string, pending: seq<string>, x: string, a: Snapshot, b: Snapshot, i: nat) {
    && i <= |tree.lines(x)|
    && x !in pending && (x in a.history ==> x == EXEMPT)
    && Progress(tree, stage, pending, pending + [x], a, b)
    && StillOpen(a, b, pending + [x])
    && LinesCovered(tree, stage, x, i, b.history, pending + [x])
    && (x != EXEMPT ==> Project(b.out, x) == [Begin(x)] + Copied(tree, x, i))
  }

  lemma BeginFile(tree: Tree, stage: string, pending: seq<string>, x: string, a: Snapshot)
    requires Fresh(a, pending) && x !in pending && (x in a.history ==> x == EXEMPT)
    ensures Midway(tree, stage, pending, x, a, a.(out := a.out + [Begin(x)]), 0)
  {
    NoProgress(tree, stage, pending, pending + [x], a);
    WriteEvent(tree, stage, pending, pending + [x], a, a, Begin(x));
    ProjectAppend(a.out, Begin(x), x);
  }

  lemma CopyLine(tree: Tree, stage: string, pending: seq<string>, x: string, a: Snapshot, b: Snapshot, i: nat)
    requires Midway(tree, stage, pending, x, a, b, i) && i < |tree.lines(x)| && tree.lines(x)[i].Text?
    ensures Midway(tree, stage, pending, x, a, b.(out := b.out + [Copy(x, tree.lines(x)[i].line)]), i + 1)
  {
    var e := Copy(x, tree.lines(x)[i].line);
    assert x in pending + [x];
    WriteEvent(tree, stage, pending, pending + [x], a, b, e);
    ProjectAppend(b.out, e, x);
  }

  lemma MissingInclude(tree: Tree, stage: string, pending: seq<string>, x: string, a: Snapshot, b: Snapshot, i: nat)
    requires Midway(tree, stage, pending, x, a, b, i) && i < |tree.lines(x)|
    requires tree.lines(x)[i].Include? && tree.find(tree.lines(x)[i].name, x, stage).None?
    ensures Midway(tree, stage, pending, x, a, b, i + 1)
  {
  }

  lemma ExpandedInclude(
    tree: Tree, stage: string, pending: seq<string>, x: string, a: Snapshot, b: Snapshot, c: Snapshot, i: nat,
    y: string)
    requires Midway(tree, stage, pending, x, a, b, i) && i < |tree.lines(x)|
    requires LineFinds(tree, stage, x, i, y)
    requires Progress(tree, stage, pending + [x], pending + [x], b, c) && StillOpen(b, c, pending + [x])
    requires y in c.history || y in pending + [x]
    ensures Midway(tree, stage, pending, x, a, c, i + 1)
  {
    assert forall f :: f in pending ==> f in pending + [x];
    assert x in pending + [x];
    ProgressTwice(tree, stage, pending, pending + [x], a, b, c);
  }

  lemma EndFile(tree: Tree, stage: string, pending: seq<string>, x: string, a: Snapshot, b: Snapshot)
    requires Fresh(a, pending) && IsChain(tree, stage, pending + [x])
    requires Midway(tree, stage, pending, x, a, b, |tree.lines(x)|)
    ensures Progress(tree, stage, pending, pending, a, Finish(b, x)) && StillOpen(a, Finish(b, x), pending)
  {
    assert x in pending + [x];
    assert forall f :: f in pending ==> f in pending + [x];
    FinishFile(tree, stage, pending, x, a, b);
  }

  // ---- Nothing else is expanded ----

  /** A file that is expanded when it is met. */
  predicate Unblocked(done: set<string>, f: string) {
    f !in done || f == EXEMPT
  }

  /** A chain of includes leads from x to z along files that are expanded when met. */
  ghost predicate ReachesPast(tree: Tree, stage: string, done: set<string>, x: string, z: string) {
    exists p :: IsRoute(tree, stage, done, x, z, p)
  }

  ghost predicate IsRoute(tree: Tree, stage: string, done: set<string>, x: string, z: string, p: seq<string>) {
    && |p| >= 1 && p[0] == x && p[|p| - 1] == z && IsChain(tree, stage, p)
    && forall k :: 0 <= k < |p| ==> Unblocked(done, p[k])
  }

  /** Every newly done file is reached from x. */
  ghost predicate OnlyReached(tree: Tree, stage: string, x: string, a: Snapshot, b: Snapshot) {
    forall z :: z in b.history && z !in a.history ==> ReachesPast(tree, stage, a.history, x, z)
  }

  lemma RouteThrough(tree: Tree, stage: string, x: string, y: string, z: string, done: set<string>, later: set<string>)
    requires Includes(tree, stage, x, y) && Unblocked(done, x) && done <= later
    requires ReachesPast(tree, stage, later, y, z)
    ensures ReachesPast(tree, stage, done, x, z)
  {
    var p :| IsRoute(tree, stage, later, y, z, p);
    var q := [x] + p;
    forall k | 0 <= k < |q| - 1 ensures Includes(tree, stage, q[k], q[k + 1]) {
      assert k > 0 ==> Includes(tree, stage, p[k - 1], p[k - 1 + 1]);
    }
    assert IsRoute(tree, stage, done, x, z, q);
  }

  lemma ReachedThrough(tree: Tree, stage: string, x: string, y: string, a: Snapshot, b: Snapshot, c: Snapshot)
    requires Includes(tree, stage, x, y) && Unblocked(a.history, x) && a.history <= b.history
    requires OnlyReached(tree, stage, x, a, b) && OnlyReached(tree, stage, y, b, c)
    ensures OnlyReached(tree, stage, x, a, c)
  {
    forall z | z in c.history && z !in a.history ensures ReachesPast(tree, stage, a.history, x, z) {
      if z !in b.history {
        RouteThrough(tree, stage, x, y, z, a.history, b.history);
      }
    }
  }

  lemma ReachedItself(tree: Tree, stage: string, x: string, a: Snapshot, b: Snapshot)
    requires Unblocked(a.history, x) && OnlyReached(tree, stage, x, a, b)
    ensures OnlyReached(tree, stage, x, a, Finish(b, x))
  {
    assert IsRoute(tree, stage, a.history, x, x, [x]);
  }

  // ---- The exempt file is expanded again ----

  /** All the exempt file includes is done or being expanded, or it is itself being expanded. */
  ghost predicate ExemptCovered(tree: Tree, stage: string, done: set<string>, open: seq<string>) {
    EXEMPT in open || forall y :: Includes(tree, stage, EXEMPT, y) ==> y in done || y in open
  }

  /** The exempt file was met: a newly done file includes it. */
  ghost predicate MetExempt(tree: Tree, stage: string, a: Snapshot, b: Snapshot) {
    exists z :: z in b.history && z !in a.history && Includes(tree, stage, z, EXEMPT)
  }

  /** A call expand(x) that met the exempt file has covered what it includes, even if the file was done before. */
  ghost predicate ExemptAgain(tree: Tree, stage: string, open: seq<string>, x: string, a: Snapshot, b: Snapshot) {
    x == EXEMPT || MetExempt(tree, stage, a, b) ==> ExemptCovered(tree, stage, b.history, open)
  }

  /** The same in the middle of x, after its first i lines. */
  ghost predicate ExemptMidway(
    tree: Tree, stage: string, open: seq<string>, x: string, a: Snapshot, b: Snapshot, i: nat)
    requires i <= |tree.lines(x)|
  {
    LinesMeetExempt(tree, stage, x, i) || MetExempt(tree, stage, a, b) ==> ExemptCovered(tree, stage, b.history, open)
  }

  ghost predicate LinesMeetExempt(tree: Tree, stage: string, x: string, i: nat)
    requires i <= |tree.lines(x)|
  {
    exists k :: 0 <= k < i && LineFinds(tree, stage, x, k, EXEMPT)
  }

  lemma ExemptNextLine(
    tree: Tree, stage: string, open: seq<string>, x: string, a: Snapshot, b: Snapshot, c: Snapshot, i: nat, y: string)
    requires i < |tree.lines(x)| && ExemptMidway(tree, stage, open, x, a, b, i)
    requires LineFinds(tree, stage, x, i, y)
    requires b.history <= c.history && ExemptAgain(tree, stage, open, y, b, c)
    ensures ExemptMidway(tree, stage, open, x, a, c, i + 1)
  {
    if MetExempt(tree, stage, a, c) && !MetExempt(tree, stage, a, b) {
      var z :| z in c.history && z !in a.history && Includes(tree, stage, z, EXEMPT);
      assert z !in b.history;
    }
  }

  lemma ExemptEnd(tree: Tree, stage: string, pending: seq<string>, x: string, a: Snapshot, b: Snapshot)
    requires ExemptMidway(tree, stage, pending + [x], x, a, b, |tree.lines(x)|)
    requires LinesCovered(tree, stage, x, |tree.lines(x)|, b.history, pending + [x])
    ensures ExemptAgain(tree, stage, pending, x, a, Finish(b, x))
  {
    var c := Finish(b, x);
    if x != EXEMPT && MetExempt(tree, stage, a, c) {
      var z :| z in c.history && z !in a.history && Includes(tree, stage, z, EXEMPT);
      assert z == x || z in b.history;
      assert ExemptCovered(tree, stage, b.history, pending + [x]);
    }
  }

  /** All that holds when expand has gone through the first i lines of x. */
  ghost predicate Amid(tree: Tree, stage: string, pending: seq<string>, x: string, a: Snapshot, b: Snapshot, i: nat) {
    && Midway(tree, stage, pending, x, a, b, i)
    && OnlyReached(tree, stage, x, a, b)
    && ExemptMidway(tree, stage, pending + [x], x, a, b, i)
  }

  lemma AmidText(tree: Tree, stage: string, pending: seq<string>, x: string, a: Snapshot, b: Snapshot, i: nat)
    requires Amid(tree, stage, pending, x, a, b, i) && i < |tree.lines(x)| && tree.lines(x)[i].Text?
    ensures Amid(tree, stage, pending, x, a, b.(out := b.out + [Copy(x, tree.lines(x)[i].line)]), i + 1)
  {
    CopyLine(tree, stage, pending, x, a, b, i);
  }

  lemma AmidMissing(tree: Tree, stage: string, pending: seq<string>, x: string, a: Snapshot, b: Snapshot, i: nat)
    requires Amid(tree, stage, pending, x, a, b, i) && i < |tree.lines(x)|
    requires tree.lines(x)[i].Include? && tree.find(tree.lines(x)[i].name, x, stage).None?
    ensures Amid(tree, stage, pending, x, a, b, i + 1)
  {
    MissingInclude(tree, stage, pending, x, a, b, i);
  }

  lemma AmidIncluded(
    tree: Tree, stage: string, pending: seq<string>, x: string, a: Snapshot, b: Snapshot, c: Snapshot, i: nat,
    y: string)
    requires Amid(tree, stage, pending, x, a, b, i) && i < |tree.lines(x)|
    requires LineFinds(tree, stage, x, i, y)
    requires Expanded(tree, stage, pending + [x], y, b, c)
    ensures Amid(tree, stage, pending, x, a, c, i + 1)
  {
    assert Includes(tree, stage, x, y);
    ReachedThrough(tree, stage, x, y, a, b, c);
    ExemptNextLine(tree, stage, pending + [x], x, a, b, c, i, y);
    ExpandedInclude(tree, stage, pending, x, a, b, c, i, y);
  }

  /** What a call expand(x, pending, stage) does. */
  ghost predicate Expanded(tree: Tree, stage: string, pending: seq<string>, x: string, a: Snapshot, b: Snapshot) {
    && Progress(tree, stage, pending, pending, a, b) && StillOpen(a, b, pending)
    && OnlyReached(tree, stage, x, a, b)
    && ExemptAgain(tree, stage, pending, x, a, b)
    && (x in b.history || x in pending)
  }

  lemma AmidBegins(tree: Tree, stage: string, pending: seq<string>, x: string, a: Snapshot)
    requires Fresh(a, pending) && x !in pending && (x in a.history ==> x == EXEMPT)
    ensures Amid(tree, stage, pending, x, a, a.(out := a.out + [Begin(x)]), 0)
  {
    BeginFile(tree, stage, pending, x, a);
  }

  lemma AmidEnds(tree: Tree, stage: string, pending: seq<string>, x: string, a: Snapshot, b: Snapshot)
    requires Fresh(a, pending) && IsChain(tree, stage, pending + [x])
    requires Amid(tree, stage, pending, x, a, b, |tree.lines(x)|)
    ensures Expanded(tree, stage, pending, x, a, Finish(b, x))
  {
    EndFile(tree, stage, pending, x, a, b);
    ReachedItself(tree, stage, x, a, b);
    ExemptEnd(tree, stage, pending, x, a, b);
  }

  class Amalgamator {
    const tree: Tree
    var history: set<string>
    var out: seq<Event>
    ghost var finished: seq<string>

    constructor (tree: Tree)
      ensures this.tree == tree && Now() == Snapshot({}, [], [])
    {
      this.tree := tree;
      history, out := {}, [];
      finished := [];
    }

    ghost function Now(): Snapshot
      reads this
    {
      Snapshot(history, out, finished)
    }

    /** expand(x, pending, stage); the files not yet pending are the termination measure. */
    method Expand(x: string, pending: seq<string>, stage: string, ghost universe: set<string>)
      requires FindsSources(tree) && x in universe && tree.sources <= universe
      requires Fresh(Now(), pending) && IsChain(tree, stage, pending)
      requires pending != [] ==> Includes(tree, stage, pending[|pending| - 1], x)
      modifies this`history, this`out, this`finished
      ensures Expanded(tree, stage, pending, x, old(Now()), Now())
      decreases universe - (set f | f in pending), 1
    {
      if (x in history && x != EXEMPT) || x in pending {
        NoProgress(tree, stage, pending, pending, Now());
        return;
      }
      ExtendChain(tree, stage, pending, x);
      ghost var start := Now();
      AmidBegins(tree, stage, pending, x, start);
      out := out + [Begin(x)];
      ExpandLines(x, pending, stage, universe, start);
      AmidEnds(tree, stage, pending, x, start, Now());
      out := out + [End(x)];
      history := history + {x};
      finished := if x in finished then finished else finished + [x];
    }

    /** The loop over the lines of x, lines 130-157. */
    method ExpandLines(
      x: string, pending: seq<string>, stage: string, ghost universe: set<string>, ghost start: Snapshot)
      requires FindsSources(tree) && x in universe && tree.sources <= universe
      requires Amid(tree, stage, pending, x, start, Now(), 0) && IsChain(tree, stage, pending + [x])
      modifies this`history, this`out, this`finished
      ensures Amid(tree, stage, pending, x, start, Now(), |tree.lines(x)|)
      decreases universe - (set f | f in pending), 0
    {
      var lines, inner := tree.lines(x), pending + [x];
      assert (set f | f in inner) == (set f | f in pending) + {x};
      for i := 0 to |lines|
        invariant Amid(tree, stage, pending, x, start, Now(), i)
      {
        match lines[i]
        case Text(line) =>
          AmidText(tree, stage, pending, x, start, Now(), i);
          out := out + [Copy(x, line)];
        case Include(name) =>
          var source := tree.find(name, x, stage);
          if source.Some? {
            ghost var before := Now();
            assert LineFinds(tree, stage, x, i, source.value);
            Expand(source.value, inner, stage, universe);
            AmidIncluded(tree, stage, pending, x, start, before, Now(), i, source.value);
          } else {
            AmidMissing(tree, stage, pending, x, start, Now(), i);
          }
      }
    }

    /** The script's calls: each stage expands its root with nothing pending. */
    method ExpandStages(stages: seq<(string, string)>) returns (ghost states: seq<Snapshot>)
      requires FindsSources(tree) && Now() == Snapshot({}, [], [])
      modifies this`history, this`out, this`finished
      ensures IsRun(tree, stages, states) && states[|stages|] == Now()
    {
      states := [Now()];
      for i := 0 to |stages|
        invariant |states| == i + 1 && states[0] == old(Now()) && states[i] == Now() && Fresh(Now(), [])
        invariant forall j :: 0 <= j < i ==> IsStage(tree, stages[j].0, stages[j].1, states[j], states[j + 1])
      {
        Expand(stages[i].0, [], stages[i].1, tree.sources + {stages[i].0});
        states := states + [Now()];
      }
    }
  }

  // ---- Consequences for a whole run ----

  /** One stage of the script, which expands its root with nothing pending. */
  ghost predicate IsStage(tree: Tree, root: string, stage: string, a: Snapshot, b: Snapshot) {
    Expanded(tree, stage, [], root, a, b)
  }

  /** A run of the script: its states before and after each stage. */
  ghost predicate IsRun(tree: Tree, stages: seq<(string, string)>, states: seq<Snapshot>) {
    && |states| == |stages| + 1 && states[0] == Snapshot({}, [], [])
    && forall i :: 0 <= i < |stages| ==> IsStage(tree, stages[i].0, stages[i].1, states[i], states[i + 1])
  }

  /** Across all stages a file other than the exempt one is written whole and once, or not at all. */
  lemma {:induction false} WrittenAtMostOnce(
    tree: Tree, stages: seq<(string, string)>, states: seq<Snapshot>, i: nat, f: string)
    requires IsRun(tree, stages, states) && i < |states| && f != EXEMPT
    ensures Project(states[i].out, f) == if f in states[i].history then Whole(tree, f) else []
    ensures f in states[i].history ==> CopiesText(tree, f, Project(states[i].out, f))
  {
    WholeCopiesText(tree, f);
    if i > 0 {
      WrittenAtMostOnce(tree, stages, states, i - 1, f);
      assert IsStage(tree, stages[i - 1].0, stages[i - 1].1, states[i - 1], states[i - 1 + 1]);
    }
  }

  /** A stage covers every file its root reaches along files that are expanded when met. */
  lemma {:induction false} StageCovers(
    tree: Tree, stages: seq<(string, string)>, states: seq<Snapshot>, i: nat, p: seq<string>)
    requires IsRun(tree, stages, states) && i < |stages|
    requires |p| >= 1 && p[0] == stages[i].0 && IsChain(tree, stages[i].1, p)
    requires forall k :: 0 <= k < |p| - 1 ==> Unblocked(states[i].history, p[k])
    ensures p[|p| - 1] in states[i + 1].history
    ensures p[|p| - 1] == EXEMPT ==> ExemptCovered(tree, stages[i].1, states[i + 1].history, [])
    decreases |p|
  {
    assert IsStage(tree, stages[i].0, stages[i].1, states[i], states[i + 1]);
    if |p| > 1 {
      ShortenChain(tree, stages[i].1, p);
      StageCovers(tree, stages, states, i, p[..|p| - 1]);
      assert Unblocked(states[i].history, p[|p| - 2]);
    }
  }

  lemma ShortenChain(tree: Tree, stage: string, p: seq<string>)
    requires |p| > 1 && IsChain(tree, stage, p)
    ensures IsChain(tree, stage, p[..|p| - 1]) && Includes(tree, stage, p[|p| - 2], p[|p| - 1])
  {
    var q := p[..|p| - 1];
    forall k | 0 <= k < |q| - 1 ensures Includes(tree, stage, q[k], q[k + 1]) {
      assert Includes(tree, stage, p[k], p[k + 1]);
    }
    assert Includes(tree, stage, p[|p| - 2], p[|p| - 2 + 1]);
  }

  /** What a stage adds: exactly the files its root reaches along files that are expanded when met. */
  lemma StageIsExact(tree: Tree, stages: seq<(string, string)>, states: seq<Snapshot>, i: nat, z: string)
    requires IsRun(tree, stages, states) && i < |stages|
    ensures z in states[i + 1].history <==>
      z in states[i].history || ReachesPast(tree, stages[i].1, states[i].history, stages[i].0, z)
  {
    assert IsStage(tree, stages[i].0, stages[i].1, states[i], states[i + 1]);
    if ReachesPast(tree, stages[i].1, states[i].history, stages[i].0, z) {
      var p :| IsRoute(tree, stages[i].1, states[i].history, stages[i].0, z, p);
      StageCovers(tree, stages, states, i, p);
    }
  }

  /** A done file was finished by some stage, and all it includes in that stage is done. */
  ghost predicate ClosedBy(tree: Tree, stages: seq<(string, string)>, states: seq<Snapshot>, i: nat, f: string, j: nat)
    requires |states| == |stages| + 1 && i < |states|
  {
    && j < i && f !in states[j].history && f in states[j + 1].history
    && forall y :: Includes(tree, stages[j].1, f, y) ==> y in states[i].history
  }

  lemma {:induction false} DoneFilesAreClosed(
    tree: Tree, stages: seq<(string, string)>, states: seq<Snapshot>, i: nat, f: string)
    returns (j: nat)
    requires IsRun(tree, stages, states) && i < |states| && f in states[i].history
    ensures ClosedBy(tree, stages, states, i, f, j)
  {
    assert i > 0;
    assert IsStage(tree, stages[i - 1].0, stages[i - 1].1, states[i - 1], states[i - 1 + 1]);
    if f in states[i - 1].history {
      j := DoneFilesAreClosed(tree, stages, states, i - 1, f);
    } else {
      j := i - 1;
    }
  }

  /**
   * What can be checked before a stage: whatever a file already done includes in this stage, if the root reaches that
   * file, is itself done or reached along files that are expanded when met.
   */
  ghost predicate DoneFilesSuffice(tree: Tree, stage: string, root: string, done: set<string>) {
    forall f, y ::
      (f in done && Reaches(tree, stage, root, f) && Includes(tree, stage, f, y)) ==>
        y in done || ReachesPast(tree, stage, done, root, y)
  }

  /** Every file the root of a stage reaches, along any chain, is done after the stage if and only if that holds. */
  lemma CoverageIff(tree: Tree, stages: seq<(string, string)>, states: seq<Snapshot>, i: nat)
    requires IsRun(tree, stages, states) && i < |stages|
    ensures (forall z :: Reaches(tree, stages[i].1, stages[i].0, z) ==> z in states[i + 1].history) <==>
      DoneFilesSuffice(tree, stages[i].1, stages[i].0, states[i].history)
  {
    forall z ensures z in states[i + 1].history <==>
      z in states[i].history || ReachesPast(tree, stages[i].1, states[i].history, stages[i].0, z)
    {
      StageIsExact(tree, stages, states, i, z);
    }
    if DoneFilesSuffice(tree, stages[i].1, stages[i].0, states[i].history) {
      forall z | Reaches(tree, stages[i].1, stages[i].0, z) ensures z in states[i + 1].history {
        var p :| |p| >= 1 && p[0] == stages[i].0 && p[|p| - 1] == z && IsChain(tree, stages[i].1, p);
        ChainIsCovered(tree, stages, states, i, p);
      }
    } else {
      var f, y :| f in states[i].history && Reaches(tree, stages[i].1, stages[i].0, f)
        && Includes(tree, stages[i].1, f, y) && y !in states[i + 1].history;
      var p :| |p| >= 1 && p[0] == stages[i].0 && p[|p| - 1] == f && IsChain(tree, stages[i].1, p);
      ExtendChain(tree, stages[i].1, p, y);
      assert (p + [y])[0] == stages[i].0;
      assert Reaches(tree, stages[i].1, stages[i].0, y);
    }
  }

  lemma {:induction false} ChainIsCovered(
    tree: Tree, stages: seq<(string, string)>, states: seq<Snapshot>, i: nat, p: seq<string>)
    requires IsRun(tree, stages, states) && i < |stages|
    requires DoneFilesSuffice(tree, stages[i].1, stages[i].0, states[i].history)
    requires |p| >= 1 && p[0] == stages[i].0 && IsChain(tree, stages[i].1, p)
    ensures p[|p| - 1] in states[i + 1].history
    decreases |p|
  {
    assert IsStage(tree, stages[i].0, stages[i].1, states[i], states[i + 1]);
    if |p| > 1 {
      var q := p[..|p| - 1];
      ShortenChain(tree, stages[i].1, p);
      ChainIsCovered(tree, stages, states, i, q);
      assert Reaches(tree, stages[i].1, stages[i].0, q[|q| - 1]);
      StageIsExact(tree, stages, states, i, p[|p| - 1]);
    }
  }

  /** Where the includes of a stage are also those of the stages before it, the stage covers all its root reaches. */
  lemma StageCoversAll(tree: Tree, stages: seq<(string, string)>, states: seq<Snapshot>, i: nat, z: string)
    requires IsRun(tree, stages, states) && i < |stages|
    requires forall j, x, y :: 0 <= j < i && Includes(tree, stages[i].1, x, y) ==> Includes(tree, stages[j].1, x, y)
    requires Reaches(tree, stages[i].1, stages[i].0, z)
    ensures z in states[i + 1].history
  {
    forall f, y |
      f in states[i].history && Reaches(tree, stages[i].1, stages[i].0, f) && Includes(tree, stages[i].1, f, y)
      ensures y in states[i].history
    {
      var j := DoneFilesAreClosed(tree, stages, states, i, f);
      assert Includes(tree, stages[j].1, f, y);
    }
    CoverageIff(tree, stages, states, i);
  }

  // ---- find_source ----

  predicate EndsWith(s: string, suffix: string) {
    |suffix| <= |s| && s[|s| - |suffix|..] == suffix
  }

  /** Whether find_source takes x as a candidate for the name; the stage matters for names of .cc files only. */
  predicate IsCandidate(x: string, name: string, stage: string) {
    if x == name then true
    else if EndsWith(name, ".cc") && EndsWith(x, "/" + name) then "../" + stage <= x
    else EndsWith(x, "/" + name)
  }

  /** A candidate is the name itself or a path that ends in a slash and the name, in the stage if it is a .cc file. */
  lemma CandidateLaw(x: string, name: string, stage: string)
    ensures IsCandidate(x, name, stage) <==>
      x == name ||
      ((exists dir: string :: x == dir + ("/" + name)) &&
       ((exists stem: string :: name == stem + ".cc") ==> "../" + stage <= x))
  {
    EndsWithLaw(x, "/" + name);
    EndsWithLaw(name, ".cc");
  }

  lemma EndsWithLaw(s: string, suffix: string)
    ensures EndsWith(s, suffix) <==> exists start: string :: s == start + suffix
  {
    if EndsWith(s, suffix) {
      assert s == s[..|s| - |suffix|] + suffix;
    }
  }

  function Candidates(sources: seq<string>, name: string, stage: string): (r: seq<string>)
    ensures forall x :: x in r <==> x in sources && IsCandidate(x, name, stage)
  {
    if sources == [] then [] else
    var n := |sources| - 1;
    Candidates(sources[..n], name, stage) + if IsCandidate(sources[n], name, stage) then [sources[n]] else []
  }

  /** How find_source chooses among several candidates: one of them, or none, by the includer's name. */
  type Choice = (seq<string>, string) -> Option<string>

  ghost predicate ChoosesCandidate(choice: Choice) {
    forall c, start :: choice(c, start).Some? ==> choice(c, start).value in c
  }

  function Found(sources: seq<string>, choice: Choice, name: string, start: string, stage: string): Option<string> {
    var c := Candidates(sources, name, stage);
    if c == [] then None else if |c| == 1 then Some(c[0]) else choice(c, start)
  }

  /** find_source: the loop that collects the candidates, and the choice. */
  method FindSource(sources: seq<string>, choice: Choice, name: string, start: string, stage: string)
    returns (r: Option<string>)
    requires ChoosesCandidate(choice)
    ensures r == Found(sources, choice, name, start, stage)
    ensures r.Some? ==> r.value in sources && IsCandidate(r.value, name, stage)
    ensures (forall x :: x in sources ==> !IsCandidate(x, name, stage)) ==> r.None?
  {
    var candidates := [];
    for i := 0 to |sources|
      invariant candidates == Candidates(sources[..i], name, stage)
    {
      assert sources[..i + 1][..i] == sources[..i];
      if IsCandidate(sources[i], name, stage) {
        candidates := candidates + [sources[i]];
      }
    }
    assert sources[..|sources|] == sources;
    if candidates == [] {
      return None;
    }
    assert candidates[0] in candidates;
    r := if |candidates| == 1 then Some(candidates[0]) else choice(candidates, start);
  }

  /** The files of a run whose includes are looked up by find_source in a list of sources. */
  function SourceTree(lines: string -> seq<Line>, sources: seq<string>, choice: Choice): Tree {
    Tree(lines, (name, start, stage) => Found(sources, choice, name, start, stage), set x | x in sources)
  }

  lemma SourceTreeFindsSources(lines: string -> seq<Line>, sources: seq<string>, choice: Choice)
    requires ChoosesCandidate(choice)
    ensures FindsSources(SourceTree(lines, sources, choice))
  {
    var tree := SourceTree(lines, sources, choice);
    forall name, start, stage | tree.find(name, start, stage).Some?
      ensures tree.find(name, start, stage).value in tree.sources
    {
      var c := Candidates(sources, name, stage);
      assert c != [] ==> c[0] in c;
      assert tree.find(name, start, stage).value in c;
    }
  }

  lemma {:induction false} SameCandidates(sources: seq<string>, name: string, stage: string, other: string)
    requires !EndsWith(name, ".cc")
    ensures Candidates(sources, name, stage) == Candidates(sources, name, other)
  {
    if sources != [] {
      SameCandidates(sources[..|sources| - 1], name, stage, other);
    }
  }

  /** When no file includes a .cc file, every stage covers all that its root reaches. */
  lemma HeaderIncludesAreCovered(
    lines: string -> seq<Line>, sources: seq<string>, choice: Choice,
    stages: seq<(string, string)>, states: seq<Snapshot>, i: nat, z: string)
    requires IsRun(SourceTree(lines, sources, choice), stages, states) && i < |stages|
    requires forall x, k :: 0 <= k < |lines(x)| && lines(x)[k].Include? ==> !EndsWith(lines(x)[k].name, ".cc")
    requires Reaches(SourceTree(lines, sources, choice), stages[i].1, stages[i].0, z)
    ensures z in states[i + 1].history
  {
    var tree := SourceTree(lines, sources, choice);
    forall j, x, y | 0 <= j < i && Includes(tree, stages[i].1, x, y) ensures Includes(tree, stages[j].1, x, y) {
      var k :| 0 <= k < |tree.lines(x)| && LineFinds(tree, stages[i].1, x, k, y);
      SameCandidates(sources, lines(x)[k].name, stages[i].1, stages[j].1);
      assert LineFinds(tree, stages[j].1, x, k, y);
    }
    StageCoversAll(tree, stages, states, i, z);
  }

  ghost predicate Acyclic(tree: Tree, stage: string) {
    forall x, y :: Includes(tree, stage, x, y) ==> !Reaches(tree, stage, y, x)
  }

  /** Where a stage's includes form no cycle, every file it finishes finishes after all files it includes. */
  lemma AcyclicFinishesIncludedFirst(
    tree: Tree, stages: seq<(string, string)>, states: seq<Snapshot>, i: nat, k: nat, y: string)
    requires IsRun(tree, stages, states) && i < |stages| && |states[i].finished| <= k < |states[i + 1].finished|
    ensures Acyclic(tree, stages[i].1) && Includes(tree, stages[i].1, states[i + 1].finished[k], y) ==>
      y in states[i + 1].finished[..k]
  {
    assert IsStage(tree, stages[i].0, stages[i].1, states[i], states[i + 1]);
  }

  // ---- A tree on which coverage fails ----

  const HEADER := "../include/x.h"
  const SOURCE := "../src/y.cc"
  const FIRST_STAGE := "3rdparty/dmlc-core"
  const STAGES := [("a.cc", FIRST_STAGE), ("b.cc", "src")]

  function StagedLines(f: string): seq<Line> {
    if f == "a.cc" || f == "b.cc" then [Include("x.h")] else if f == HEADER then [Include("y.cc")] else []
  }

  /** Both roots include x.h, which includes y.cc; y.cc is a candidate in stage src only. */
  function StagedTree(choice: Choice): Tree {
    SourceTree(StagedLines, [HEADER, SOURCE], choice)
  }

  lemma NamesOfStagedTree(stage: string)
    ensures IsCandidate(HEADER, "x.h", stage) && !IsCandidate(SOURCE, "x.h", stage)
    ensures !IsCandidate(HEADER, "y.cc", stage) && (IsCandidate(SOURCE, "y.cc", stage) <==> "../" + stage <= SOURCE)
    ensures "../src" <= SOURCE && !("../" + FIRST_STAGE <= SOURCE)
  {
    assert HEADER[|HEADER| - 4..] == "/x.h" && SOURCE[|SOURCE| - 5..] == "/y.cc";
  }

  lemma CandidatesOfTwo(a: string, b: string, name: string, stage: string)
    ensures Candidates([a, b], name, stage) ==
      (if IsCandidate(a, name, stage) then [a] else []) + if IsCandidate(b, name, stage) then [b] else []
  {
    assert [a, b][..1] == [a] && [a][..0] == [];
    assert Candidates([], name, stage) == [];
    assert Candidates([a], name, stage) == if IsCandidate(a, name, stage) then [a] else [];
  }

  /** x.h is found in both stages, y.cc in stage src only. */
  lemma FoundInStagedTree(choice: Choice, start: string)
    ensures forall stage :: Found([HEADER, SOURCE], choice, "x.h", start, stage) == Some(HEADER)
    ensures Found([HEADER, SOURCE], choice, "y.cc", start, "src") == Some(SOURCE)
    ensures Found([HEADER, SOURCE], choice, "y.cc", start, FIRST_STAGE) == None
  {
    forall stage ensures Found([HEADER, SOURCE], choice, "x.h", start, stage) == Some(HEADER) {
      NamesOfStagedTree(stage);
      CandidatesOfTwo(HEADER, SOURCE, "x.h", stage);
    }
    NamesOfStagedTree("src");
    NamesOfStagedTree(FIRST_STAGE);
    CandidatesOfTwo(HEADER, SOURCE, "y.cc", "src");
    CandidatesOfTwo(HEADER, SOURCE, "y.cc", FIRST_STAGE);
    assert "../" + "src" == "../src";
  }

  /** What the files of the tree include. */
  lemma StagedIncludes(choice: Choice, stage: string, x: string, y: string)
    requires stage == FIRST_STAGE || stage == "src"
    ensures Includes(StagedTree(choice), stage, x, y) <==>
      ((x == "a.cc" || x == "b.cc") && y == HEADER) || (x == HEADER && y == SOURCE && stage == "src")
  {
    FoundInStagedTree(choice, x);
    var tree := StagedTree(choice);
    if StagedLines(x) != [] {
      assert tree.lines(x)[0] == StagedLines(x)[0];
      assert Includes(tree, stage, x, y) <==> LineFinds(tree, stage, x, 0, y);
    }
  }

  /** When x.h was done before, or in the first stage, no route leads to y.cc. */
  lemma NoRouteToSource(choice: Choice, stage: string, done: set<string>, x: string)
    requires (stage == FIRST_STAGE || stage == "src") && x != SOURCE && (stage == "src" ==> HEADER in done)
    ensures !ReachesPast(StagedTree(choice), stage, done, x, SOURCE)
  {
    var tree := StagedTree(choice);
    forall p ensures !IsRoute(tree, stage, done, x, SOURCE, p) {
      if |p| > 1 && p[|p| - 1] == SOURCE && IsChain(tree, stage, p) {
        ShortenChain(tree, stage, p);
        StagedIncludes(choice, stage, p[|p| - 2], p[|p| - 1]);
        assert p[|p| - 2] == HEADER && !Unblocked(done, HEADER);
      }
    }
  }

  lemma SourceIsReachable(choice: Choice)
    ensures Reaches(StagedTree(choice), "src", "b.cc", SOURCE)
  {
    var p := ["b.cc", HEADER, SOURCE];
    StagedIncludes(choice, "src", "b.cc", HEADER);
    StagedIncludes(choice, "src", HEADER, SOURCE);
    assert IsChain(StagedTree(choice), "src", p);
    assert p[0] == "b.cc" && p[|p| - 1] == SOURCE;
  }

  /** Every run of the tree leaves y.cc out. */
  lemma SourceIsMissed(choice: Choice, states: seq<Snapshot>)
    requires IsRun(StagedTree(choice), STAGES, states)
    ensures SOURCE !in states[2].history
  {
    var tree := StagedTree(choice);
    assert STAGES[0] == ("a.cc", FIRST_STAGE) && STAGES[1] == ("b.cc", "src");
    StagedIncludes(choice, FIRST_STAGE, "a.cc", HEADER);
    var p := ["a.cc", HEADER];
    assert IsChain(tree, FIRST_STAGE, p);
    StageCovers(tree, STAGES, states, 0, p);
    assert HEADER in states[1].history;
    NoRouteToSource(choice, FIRST_STAGE, states[0].history, "a.cc");
    StageIsExact(tree, STAGES, states, 0, SOURCE);
    NoRouteToSource(choice, "src", states[1].history, "b.cc");
    StageIsExact(tree, STAGES, states, 1, SOURCE);
  }

  /**
   * Coverage can fail: x.h is finished in a stage in which its y.cc is not found, so the later stage that reaches y.cc
   * through it never expands y.cc.
   */
  method StagedIncludeIsMissed(choice: Choice) returns (done: set<string>, ghost states: seq<Snapshot>)
    requires ChoosesCandidate(choice)
    ensures IsRun(StagedTree(choice), STAGES, states) && states[2].history == done
    ensures Reaches(StagedTree(choice), "src", "b.cc", SOURCE) && SOURCE !in done
  {
    SourceTreeFindsSources(StagedLines, [HEADER, SOURCE], choice);
    var amalgamator := new Amalgamator(StagedTree(choice));
    states := amalgamator.ExpandStages(STAGES);
    done := amalgamator.history;
    SourceIsReachable(choice);
    SourceIsMissed(choice, states);
  }
}
