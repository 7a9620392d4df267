/** What passes guarantee to every task: one cycle per pass, a fixed relative order, bounded waiting. */
module Fairness {
  import opened Bytes
  import opened Machine
  import opened Scheduler
  import opened Traversal

  predicate NoRepeats(s: seq<nat>) {
    forall i, j :: 0 <= i < j < |s| ==> s[i] != s[j]
  }

  /** `x` is in the subtree of a child of `id` from index `i` on. */
  predicate UnderKid(kids: seq<seq<nat>>, parents: seq<nat>, id: nat, i: nat, x: nat)
    requires id < |kids| && x < |parents|
    decreases |kids[id]| - i
  {
    i < |kids[id]| && (Under(parents, x, kids[id][i]) || UnderKid(kids, parents, id, i + 1, x))
  }

  lemma {:induction false} UnderKidAt(kids: seq<seq<nat>>, parents: seq<nat>, id: nat, i: nat, j: nat, x: nat)
    requires id < |kids| && x < |parents| && i <= j < |kids[id]| && Under(parents, x, kids[id][j])
    ensures UnderKid(kids, parents, id, i, x)
    decreases j - i
  {
    if i < j {
      UnderKidAt(kids, parents, id, i + 1, j, x);
    }
  }

  /** A proper descendant of `id` is in the subtree of one of its children. */
  lemma {:induction false} DescendantOfKid(kids: seq<seq<nat>>, parents: seq<nat>, id: nat, x: nat) returns (j: nat)
    requires Tree(kids, parents) && id < |kids| && x < |kids| && x != id && Under(parents, x, id)
    ensures j < |kids[id]| && Under(parents, x, kids[id][j])
    decreases x
  {
    if parents[x] == id {
      j :| j < |kids[id]| && kids[id][j] == x;
    } else {
      j := DescendantOfKid(kids, parents, id, parents[x]);
      KidIsUnder(kids, parents, id, j);
      UnderAtLeast(parents, parents[x], kids[id][j]);
    }
  }

  /** The preorder of a subtree lists exactly its nodes. */
  lemma {:induction false} PreorderMembers(kids: seq<seq<nat>>, parents: seq<nat>, id: nat, x: nat)
    requires Tree(kids, parents) && id < |kids|
    ensures x in Preorder(kids, id) <==> x < |kids| && Under(parents, x, id)
    decreases |kids| - id, 1, 0
  {
    PreorderFromMembers(kids, parents, id, 0, x);
    if x < |kids| && x != id {
      if Under(parents, x, id) {
        var j := DescendantOfKid(kids, parents, id, x);
        UnderKidAt(kids, parents, id, 0, j, x);
      } else if UnderKid(kids, parents, id, 0, x) {
        UnderKidIsUnder(kids, parents, id, 0, x);
      }
    }
  }

  lemma {:induction false} UnderKidIsUnder(kids: seq<seq<nat>>, parents: seq<nat>, id: nat, i: nat, x: nat)
    requires Tree(kids, parents) && id < |kids| && x < |parents| && UnderKid(kids, parents, id, i, x)
    ensures Under(parents, x, id) && x > id
    decreases |kids[id]| - i
  {
    KidIsUnder(kids, parents, id, i);
    if Under(parents, x, kids[id][i]) {
      UnderTransitive(parents, x, kids[id][i], id);
      UnderAtLeast(parents, x, kids[id][i]);
    } else {
      UnderKidIsUnder(kids, parents, id, i + 1, x);
    }
  }

  lemma {:induction false} PreorderFromMembers(kids: seq<seq<nat>>, parents: seq<nat>, id: nat, i: nat, x: nat)
    requires Tree(kids, parents) && id < |kids|
    ensures x in PreorderFrom(kids, id, i) <==> x < |kids| && UnderKid(kids, parents, id, i, x)
    decreases |kids| - id, 0, |kids[id]| - i
  {
    if i < |kids[id]| {
      hide Preorder, Under;
      PreorderMembers(kids, parents, kids[id][i], x);
      PreorderFromMembers(kids, parents, id, i + 1, x);
    }
  }

  lemma {:induction false} PreorderNoRepeats(kids: seq<seq<nat>>, parents: seq<nat>, id: nat)
    requires Tree(kids, parents) && id < |kids|
    ensures NoRepeats(Preorder(kids, id))
    decreases |kids| - id, 1, 0
  {
    PreorderFromNoRepeats(kids, parents, id, 0);
    PreorderFromMembers(kids, parents, id, 0, id);
    if UnderKid(kids, parents, id, 0, id) { UnderKidIsUnder(kids, parents, id, 0, id); }
  }

  lemma {:induction false} PreorderFromNoRepeats(kids: seq<seq<nat>>, parents: seq<nat>, id: nat, i: nat)
    requires Tree(kids, parents) && id < |kids|
    ensures NoRepeats(PreorderFrom(kids, id, i))
    decreases |kids| - id, 0, |kids[id]| - i
  {
    if i < |kids[id]| {
      hide Preorder, Under, NoRepeats, UnderKid;
      var a := Preorder(kids, kids[id][i]);
      var b := PreorderFrom(kids, id, i + 1);
      PreorderNoRepeats(kids, parents, kids[id][i]);
      PreorderFromNoRepeats(kids, parents, id, i + 1);
      forall x | x in a ensures x !in b
      {
        PreorderMembers(kids, parents, kids[id][i], x);
        PreorderFromMembers(kids, parents, id, i + 1, x);
        if x < |kids| && UnderKid(kids, parents, id, i + 1, x) { LaterKidsApart(kids, parents, id, i, i + 1, x); }
      }
      JoinNoRepeats(a, b);
    } else {
      assert NoRepeats([]);
    }
  }

  lemma {:induction false} LaterKidsApart(kids: seq<seq<nat>>, parents: seq<nat>, id: nat, i: nat, j: nat, x: nat)
    requires Tree(kids, parents) && id < |kids| && i < j && i < |kids[id]| && x < |parents|
    requires UnderKid(kids, parents, id, j, x)
    ensures !Under(parents, x, kids[id][i])
    decreases |kids[id]| - j
  {
    KidIsUnder(kids, parents, id, i);
    KidIsUnder(kids, parents, id, j);
    if Under(parents, x, kids[id][j]) {
      if Under(parents, x, kids[id][i]) { SiblingsApart(parents, x, kids[id][i], kids[id][j]); }
    } else {
      LaterKidsApart(kids, parents, id, i, j + 1, x);
    }
  }

  lemma JoinNoRepeats(a: seq<nat>, b: seq<nat>)
    requires NoRepeats(a) && NoRepeats(b) && forall x :: x in a ==> x !in b
    ensures NoRepeats(a + b)
  {
    var s := a + b;
    forall i, j | 0 <= i < j < |s| ensures s[i] != s[j]
    {
      if i < |a| { assert s[i] in a; }
      if j >= |a| { assert s[j] in b; }
    }
  }

  /** In one pass every task that exists when the pass ends has exactly one cycle. */
  lemma PassVisitsEachOnce(cfg: Config, w: World, feed: Feed)
    requires Fits(cfg, w) && Pass(cfg, w, feed).Done?
    ensures var (w', trace) := Pass(cfg, w, feed).value;
            && Fits(cfg, w') && trace == Preorder(w'.kids, 0)
            && NoRepeats(trace) && forall x: nat :: x in trace <==> x < |w'.tasks|
  {
    hide Tree, Preorder, NoRepeats;
    VisitIsPreorder(cfg, w, 0, feed, 0);
    var (w', trace) := Pass(cfg, w, feed).value;
    PreorderNoRepeats(w'.kids, w'.parents, 0);
    forall x: nat ensures x in trace <==> x < |w'.tasks|
    {
      PreorderMembers(w'.kids, w'.parents, 0, x);
      if x < |w'.tasks| { UnderRoot(w'.kids, w'.parents, x); }
    }
  }

  // ----- a pass is a run -----

  /** The cycles of a pass as a schedule. */
  function Cycles(trace: seq<nat>, feed: Feed, k: nat): Schedule
    decreases |trace|
  {
    if trace == [] then [] else [(trace[0], feed(k))] + Cycles(trace[1..], feed, k + 1)
  }

  lemma {:induction false} CyclesAppend(a: seq<nat>, b: seq<nat>, feed: Feed, k: nat)
    ensures Cycles(a + b, feed, k) == Cycles(a, feed, k) + Cycles(b, feed, k + |a|)
    decreases |a|
  {
    hide *;
    CyclesUnfold(a, feed, k);
    if a == [] {
      assert a + b == b;
    } else {
      assert (a + b)[0] == a[0] && (a + b)[1..] == a[1..] + b;
      CyclesUnfold(a + b, feed, k);
      CyclesAppend(a[1..], b, feed, k + 1);
    }
  }

  lemma CyclesUnfold(trace: seq<nat>, feed: Feed, k: nat)
    ensures Cycles(trace, feed, k) == if trace == [] then [] else [(trace[0], feed(k))] + Cycles(trace[1..], feed, k + 1)
  {
  }

  lemma {:induction false} RunCyclesAppend(cfg: Config, w: World, a: Schedule, b: Schedule)
    requires cfg.image.Valid() && Ok(w) && RunCycles(cfg, w, a).Done?
    requires RunCycles(cfg, RunCycles(cfg, w, a).value.0, b).Done?
    ensures RunCycles(cfg, w, a + b).Done?
    ensures RunCycles(cfg, w, a + b).value.0 == RunCycles(cfg, RunCycles(cfg, w, a).value.0, b).value.0
    decreases |a|
  {
    hide Cycle;
    if a == [] {
      assert a + b == b;
    } else {
      assert (a + b)[0] == a[0] && (a + b)[1..] == a[1..] + b;
      RunCyclesAppend(cfg, Cycle(cfg, w, a[0].0, a[0].1).value.0, a[1..], b);
    }
  }

  /** A pass runs the cycles of its trace: what holds of every run holds of passes. */
  lemma {:induction false} PassIsRun(cfg: Config, w: World, id: nat, feed: Feed, k: nat)
    requires Fits(cfg, w) && id < |w.tasks| && Visit(cfg, w, id, feed, k).Done?
    ensures var (w', trace) := Visit(cfg, w, id, feed, k).value;
            var r := RunCycles(cfg, w, Cycles(trace, feed, k));
            r.Done? && r.value.0 == w'
    decreases cfg.maxTasks + 1 - id, 1, 0
  {
    hide Cycle, Tree, Grew;
    CycleGrew(cfg, w, id, feed(k));
    var w1 := Cycle(cfg, w, id, feed(k)).value.0;
    GrewFits(cfg, w, w1, At(id));
    StillThere(cfg, w, w1, At(id), id);
    KidsAreRuns(cfg, w1, id, 0, feed, k + 1);
    var (w', trace) := Visit(cfg, w, id, feed, k).value;
    assert trace[0] == id && trace[1..] == VisitKids(cfg, w1, id, 0, feed, k + 1).value.1;
    var sched := Cycles(trace, feed, k);
    assert sched[0] == (id, feed(k)) && sched[1..] == Cycles(trace[1..], feed, k + 1);
  }

  lemma StillThere(cfg: Config, w: World, w': World, at: Place, id: nat)
    requires Fits(cfg, w) && id < |w.tasks| && Grew(cfg, w, w', at)
    ensures id < |w'.tasks|
  {
  }

  lemma EmptyRun(cfg: Config, w: World, feed: Feed, k: nat)
    requires cfg.image.Valid() && Ok(w)
    ensures RunCycles(cfg, w, Cycles([], feed, k)) == Done((w, []))
  {
  }

  lemma {:induction false} KidsAreRuns(cfg: Config, w: World, id: nat, i: nat, feed: Feed, k: nat)
    requires Fits(cfg, w) && id < |w.tasks| && VisitKids(cfg, w, id, i, feed, k).Done?
    ensures var (w', trace) := VisitKids(cfg, w, id, i, feed, k).value;
            var r := RunCycles(cfg, w, Cycles(trace, feed, k));
            r.Done? && r.value.0 == w'
    decreases cfg.maxTasks + 1 - id, 0, |w.kids[id]| - i
  {
    hide Visit, Grew, RunCycles, Cycles;
    if i >= |w.kids[id]| {
      EmptyRun(cfg, w, feed, k);
    } else {
      var c := w.kids[id][i];
      KidIsUnder(w.kids, w.parents, id, i);
      AfterChild(cfg, w, id, i, feed, k);
      hide Tree;
      var (w1, first) := Visit(cfg, w, c, feed, k).value;
      PassIsRun(cfg, w, c, feed, k);
      KidsAreRuns(cfg, w1, id, i + 1, feed, k + |first|);
      var rest := VisitKids(cfg, w1, id, i + 1, feed, k + |first|).value.1;
      CyclesAppend(first, rest, feed, k);
      RunCyclesAppend(cfg, w, Cycles(first, feed, k), Cycles(rest, feed, k + |first|));
    }
  }

  /** So a pass, too, is invisible to each task that takes part in it. */
  lemma PassInvisible(cfg: Config, w: World, feed: Feed, i: nat)
    requires Fits(cfg, w) && i < |w.tasks| && Pass(cfg, w, feed).Done?
    ensures var (w', trace) := Pass(cfg, w, feed).value;
            var sched := Cycles(trace, feed, 0);
            && Fits(cfg, w') && i < |w'.tasks|
            && var solo := SoloCycles(cfg.image, View(w, i), w.tasks[i].handler, Projected(cfg, w, sched, i));
            solo.Done? && solo.value.0 == View(w', i)
  {
    hide Visit, Tree, View, SoloCycles, Projected, RunCycles;
    PassIsRun(cfg, w, 0, feed, 0);
    var (w', trace) := Pass(cfg, w, feed).value;
    InterleavingInvisible(cfg, w, Cycles(trace, feed, 0), i);
  }

  // ----- order and waiting -----

  /** The tasks of `s` with an id below `n`. */
  function Below(s: seq<nat>, n: nat): seq<nat> {
    if s == [] then [] else (if s[0] < n then [s[0]] else []) + Below(s[1..], n)
  }

  lemma {:induction false} BelowAppend(a: seq<nat>, b: seq<nat>, n: nat)
    ensures Below(a + b, n) == Below(a, n) + Below(b, n)
    decreases |a|
  {
    if a == [] {
      assert a + b == b;
    } else {
      assert (a + b)[0] == a[0] && (a + b)[1..] == a[1..] + b;
      BelowAppend(a[1..], b, n);
    }
  }

  lemma {:induction false} BelowNothing(s: seq<nat>, n: nat)
    requires forall x :: x in s ==> x >= n
    ensures Below(s, n) == []
    decreases |s|
  {
    if s != [] {
      assert s[0] in s;
      forall x | x in s[1..] ensures x >= n { assert x in s; }
      BelowNothing(s[1..], n);
    }
  }

  lemma {:induction false} BelowMembers(s: seq<nat>, n: nat, x: nat)
    ensures x in Below(s, n) <==> x in s && x < n
    decreases |s|
  {
    if s != [] {
      BelowMembers(s[1..], n, x);
    }
  }

  /** New tasks do not change the relative order of the old ones. */
  lemma {:induction false} OrderKept(cfg: Config, w: World, w': World, at: Place, id: nat)
    requires Fits(cfg, w) && Grew(cfg, w, w', at) && id < |w.kids|
    ensures Below(Preorder(w'.kids, id), |w.kids|) == Preorder(w.kids, id)
    decreases |w.kids| - id, 1, 0
  {
    OrderKeptFrom(cfg, w, w', at, id, 0);
    var rest := PreorderFrom(w'.kids, id, 0);
    assert Preorder(w'.kids, id)[1..] == rest;
  }

  lemma {:induction false} OrderKeptFrom(cfg: Config, w: World, w': World, at: Place, id: nat, i: nat)
    requires Fits(cfg, w) && Grew(cfg, w, w', at) && id < |w.kids|
    ensures Below(PreorderFrom(w'.kids, id, i), |w.kids|) == PreorderFrom(w.kids, id, i)
    decreases |w.kids| - id, 0, |w'.kids[id]| - i
  {
    assert w.kids[id] <= w'.kids[id];
    if i < |w.kids[id]| {
      var c := w.kids[id][i];
      assert w'.kids[id][i] == c;
      KidIsUnder(w.kids, w.parents, id, i);
      OrderKept(cfg, w, w', at, c);
      OrderKeptFrom(cfg, w, w', at, id, i + 1);
      BelowAppend(Preorder(w'.kids, c), PreorderFrom(w'.kids, id, i + 1), |w.kids|);
    } else {
      forall x | x in PreorderFrom(w'.kids, id, i) ensures x >= |w.kids|
      {
        PreorderFromMembers(w'.kids, w'.parents, id, i, x);
        NewKids(cfg, w, w', at, id, i, x);
      }
      BelowNothing(PreorderFrom(w'.kids, id, i), |w.kids|);
    }
  }

  lemma {:induction false} NewKids(cfg: Config, w: World, w': World, at: Place, id: nat, i: nat, x: nat)
    requires Fits(cfg, w) && Grew(cfg, w, w', at) && id < |w.kids| && i >= |w.kids[id]|
    requires x < |w'.parents| && UnderKid(w'.kids, w'.parents, id, i, x)
    ensures x >= |w.kids|
    decreases |w'.kids[id]| - i
  {
    if Under(w'.parents, x, w'.kids[id][i]) {
      UnderAtLeast(w'.parents, x, w'.kids[id][i]);
    } else {
      NewKids(cfg, w, w', at, id, i + 1, x);
    }
  }

  lemma SplitUnique(s: seq<nat>, a: seq<nat>, x: nat, b: seq<nat>, c: seq<nat>, d: seq<nat>)
    requires NoRepeats(s) && s == a + [x] + b && s == c + [x] + d
    ensures a == c && b == d
  {
    assert s[|a|] == x && s[|c|] == x;
    assert a == s[..|a|] && b == s[|a| + 1..] && c == s[..|c|] && d == s[|c| + 1..];
  }

  lemma {:induction false} NoRepeatsLength(s: seq<nat>, bound: set<nat>)
    requires NoRepeats(s) && forall x :: x in s ==> x in bound
    ensures |s| <= |bound|
    decreases |s|
  {
    if s != [] {
      var x, rest := s[0], s[1..];
      assert x in s;
      forall y | y in rest ensures y in bound - {x} { assert y in s; }
      NoRepeatsLength(rest, bound - {x});
      assert |bound - {x}| == |bound| - 1;
    }
  }

  function UpTo(n: nat): (s: set<nat>)
    ensures |s| == n && forall x: nat :: x in s <==> x < n
  {
    if n == 0 then {} else UpTo(n - 1) + {n - 1}
  }

  /** How many instructions the cycles of a run have together. */
  function Instructions(sched: Schedule): nat {
    if sched == [] then 0 else |sched[0].1.ins| + Instructions(sched[1..])
  }

  lemma {:induction false} FewInstructions(trace: seq<nat>, feed: Feed, k: nat)
    requires forall j :: |feed(j).ins| <= CONTEXT_MAX_CYCLES
    ensures Instructions(Cycles(trace, feed, k)) <= |trace| * CONTEXT_MAX_CYCLES
    decreases |trace|
  {
    if trace != [] {
      FewInstructions(trace[1..], feed, k + 1);
    }
  }

  /** Bounded waiting. Between two consecutive cycles of task `x`, one in each of two successive
      passes, no other task has more than one cycle, even when tasks are created in between. So there are at
      most `maxTasks` foreign cycles, and at most `maxTasks * 255` foreign instructions. */
  lemma BoundedWaiting(cfg: Config, w: World, feed1: Feed, feed2: Feed, x: nat,
                       a: seq<nat>, b: seq<nat>, c: seq<nat>, d: seq<nat>)
    requires Fits(cfg, w) && Pass(cfg, w, feed1).Done?
    requires Fits(cfg, Pass(cfg, w, feed1).value.0) && Pass(cfg, Pass(cfg, w, feed1).value.0, feed2).Done?
    requires Pass(cfg, w, feed1).value.1 == a + [x] + b
    requires Pass(cfg, Pass(cfg, w, feed1).value.0, feed2).value.1 == c + [x] + d
    ensures NoRepeats(b + c) && x !in b + c
    ensures |b + c| <= cfg.maxTasks
    ensures (forall k :: |feed1(k).ins| <= 255 && |feed2(k).ins| <= 255) ==>
              Instructions(Cycles(b, feed1, |a| + 1)) + Instructions(Cycles(c, feed2, 0)) <= cfg.maxTasks * 255
  {
    hide Tree, Visit, Preorder, Grew, Cycles, Instructions;
    if forall k :: |feed1(k).ins| <= 255 && |feed2(k).ins| <= 255 {
      FewInstructions(b, feed1, |a| + 1);
      FewInstructions(c, feed2, 0);
    }
    var (w1, trace1) := Pass(cfg, w, feed1).value;
    var (w2, trace2) := Pass(cfg, w1, feed2).value;
    PassVisitsEachOnce(cfg, w, feed1);
    PassVisitsEachOnce(cfg, w1, feed2);
    assert Grew(cfg, w1, w2, From(0));
    OrderKept(cfg, w1, w2, From(0), 0);
    var n := |w1.tasks|;
    assert Below(trace2, n) == trace1;
    assert x in trace1;
    BelowSplit(c, x, d, n);
    SplitUnique(trace1, a, x, b, Below(c, n), Below(d, n));
    hide Below;
    WaitApart(trace1, a, x, b, c, trace2, d, n);
    StillThere(cfg, w1, w2, From(0), n - 1);
    var others := UpTo(|w2.tasks|) - {x};
    assert x in trace2 && x in UpTo(|w2.tasks|);
    assert |others| == |w2.tasks| - 1;
    forall y | y in b + c ensures y in others
    {
      if y in b { assert y in trace1; } else { assert y in trace2; }
    }
    NoRepeatsLength(b + c, others);
  }

  lemma BelowSplit(c: seq<nat>, x: nat, d: seq<nat>, n: nat)
    requires x < n
    ensures Below(c + [x] + d, n) == Below(c, n) + [x] + Below(d, n)
  {
    BelowAppend(c + [x], d, n);
    BelowAppend(c, [x], n);
    assert [x][1..] == [];
  }

  lemma WaitApart(trace1: seq<nat>, a: seq<nat>, x: nat, b: seq<nat>, c: seq<nat>, trace2: seq<nat>, d: seq<nat>, n: nat)
    requires NoRepeats(trace1) && trace1 == a + [x] + b && a == Below(c, n)
    requires NoRepeats(trace2) && trace2 == c + [x] + d
    requires forall y :: y in trace1 ==> y < n
    ensures NoRepeats(b + c) && x !in b + c
  {
    hide Below;
    SplitApart(a, x, b);
    SplitApart(c, x, d);
    forall y | y in b ensures y != x && y !in c
    {
      assert y in trace1;
      BelowMembers(c, n, y);
    }
    assert b == trace1[|a| + 1..] && c == trace2[..|c|];
    JoinNoRepeats(b, c);
  }

  lemma SplitApart(a: seq<nat>, x: nat, b: seq<nat>)
    requires NoRepeats(a + [x] + b)
    ensures forall i :: 0 <= i < |a| ==> a[i] != x && a[i] !in b
    ensures x !in b
  {
    var s := a + [x] + b;
    forall i, j | 0 <= i < |a| && 0 <= j < |b| ensures a[i] != b[j]
    {
      assert s[i] == a[i] && s[|a| + 1 + j] == b[j];
    }
    forall i | 0 <= i < |a| ensures a[i] != x { assert s[i] == a[i] && s[|a|] == x; }
    forall j | 0 <= j < |b| ensures b[j] != x { assert s[|a| + 1 + j] == b[j] && s[|a|] == x; }
  }
}
