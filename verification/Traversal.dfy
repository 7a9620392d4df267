/** A scheduling pass: depth-first over a tree that grows while it is traversed (src/tasktree.c,
    src/cpu.c). A child's id is larger than its parent's, so a pass is bounded by the task limit. */
module Traversal {
  import opened Bytes
  import opened ByteStack
  import opened Isa
  import opened Machine
  import opened Scheduler
  import Handlers

  // ----- the tree -----

  /** Every child is larger than its parent. */
  predicate Ranked(kids: seq<seq<nat>>) {
    forall p, i :: 0 <= p < |kids| && 0 <= i < |kids[p]| ==> p < kids[p][i] < |kids|
  }

  /** Parent and child links agree, children come in the order of their creation. */
  predicate Tree(kids: seq<seq<nat>>, parents: seq<nat>) {
    && |kids| == |parents| > 0
    && Ranked(kids)
    && (forall p, i :: 0 <= p < |kids| && 0 <= i < |kids[p]| ==> parents[kids[p][i]] == p)
    && (forall p, i, j :: 0 <= p < |kids| && 0 <= i < j < |kids[p]| ==> kids[p][i] < kids[p][j])
    && (forall c :: 1 <= c < |kids| ==> parents[c] < c && c in kids[parents[c]])
  }

  /** A world within the task limit. */
  predicate Fits(cfg: Config, w: World) {
    cfg.image.Valid() && Ok(w) && Tree(w.kids, w.parents) && |w.tasks| <= cfg.maxTasks + 1
  }

  lemma BootFits(cfg: Config)
    requires cfg.image.Valid()
    ensures Fits(cfg, Boot(cfg))
  {
  }

  /** Where children may be added: at one node, or at all nodes from some id on. */
  datatype Place = At(id: nat) | From(id: nat)

  predicate Outside(at: Place, p: nat) { if at.At? then p != at.id else p < at.id }

  /** `w'` comes from `w` by adding nodes as children of nodes at `at`. */
  ghost predicate Grew(cfg: Config, w: World, w': World, at: Place) {
    && Fits(cfg, w')
    && |w.kids| <= |w'.kids| && w.parents <= w'.parents
    && (forall p :: 0 <= p < |w.kids| ==> w.kids[p] <= w'.kids[p])
    && (forall p, i :: 0 <= p < |w.kids| && |w.kids[p]| <= i < |w'.kids[p]| ==> w'.kids[p][i] >= |w.kids|)
    && (forall p :: 0 <= p < |w.kids| && Outside(at, p) ==> w'.kids[p] == w.kids[p])
  }

  lemma GrewTransitive(cfg: Config, a: World, b: World, c: World, s: Place, t: Place, all: Place)
    requires Grew(cfg, a, b, s) && Grew(cfg, b, c, t)
    requires forall p :: Outside(all, p) ==> Outside(s, p) && Outside(t, p)
    ensures Grew(cfg, a, c, all)
  {
    forall p, i | 0 <= p < |a.kids| && |a.kids[p]| <= i < |c.kids[p]| ensures c.kids[p][i] >= |a.kids|
    {
      if i < |b.kids[p]| { assert c.kids[p][i] == b.kids[p][i]; }
    }
  }

  lemma GrewRefl(cfg: Config, w: World, at: Place)
    requires Fits(cfg, w)
    ensures Grew(cfg, w, w, at)
  {
  }

  /** A new last child of `p`. */
  function WithChild(kids: seq<seq<nat>>, p: nat): seq<seq<nat>>
    requires p < |kids|
  {
    kids[p := kids[p] + [|kids|]] + [[]]
  }

  lemma WithChildAt(kids: seq<seq<nat>>, p: nat, q: nat)
    requires p < |kids| && q <= |kids|
    ensures |WithChild(kids, p)| == |kids| + 1
    ensures WithChild(kids, p)[q] == if q == |kids| then [] else if q == p then kids[p] + [|kids|] else kids[q]
  {
  }

  lemma WithChildTree(kids: seq<seq<nat>>, parents: seq<nat>, p: nat)
    requires Tree(kids, parents) && p < |kids|
    ensures Tree(WithChild(kids, p), parents + [p])
  {
    hide WithChild;
    var k, q := WithChild(kids, p), parents + [p];
    var n := |kids|;
    forall x | 0 <= x <= n ensures |k| == n + 1 && k[x] == if x == n then [] else if x == p then kids[p] + [n] else kids[x]
    {
      WithChildAt(kids, p, x);
    }
    WithChildAt(kids, p, p);
    forall x, i | 0 <= x < |k| && 0 <= i < |k[x]| ensures x < k[x][i] < |k| && q[k[x][i]] == x
    {
      if i < |kids[x]| { assert k[x][i] == kids[x][i]; }
    }
    forall x, i, j | 0 <= x < |k| && 0 <= i < j < |k[x]| ensures k[x][i] < k[x][j]
    {
      if j < |kids[x]| { assert k[x][i] == kids[x][i] && k[x][j] == kids[x][j]; }
    }
    forall c | 1 <= c < |k| ensures q[c] < c && c in k[q[c]]
    {
      if c < n {
        var i :| 0 <= i < |kids[parents[c]]| && kids[parents[c]][i] == c;
        assert k[q[c]][i] == c;
      } else {
        assert k[p][|kids[p]|] == n;
      }
    }
  }

  lemma SpawnedGrew(cfg: Config, w: World, entry: word, handler: word)
    requires Fits(cfg, w) && |w.tasks| <= cfg.maxTasks
    ensures Grew(cfg, w, Spawned(cfg, w, entry, handler), At(w.current))
  {
    hide Tree, Fresh;
    var r := Spawned(cfg, w, entry, handler);
    assert r.kids == WithChild(w.kids, w.current);
    WithChildTree(w.kids, w.parents, w.current);
    forall x | 0 <= x < |w.kids|
      ensures r.kids[x] == if x == w.current then w.kids[x] + [|w.kids|] else w.kids[x]
    {
      WithChildAt(w.kids, w.current, x);
    }
  }

  /** Only ASYNC_CALL spawns, and only below the limit. */
  lemma SpawnNeedsRoom(env: Env, i: Instr, ops: Stk, stk: Stk, input: Input)
    requires i.Valid() && !IsControl(i.op) && DataOp(env, i, ops, stk, input).Done?
    requires DataOp(env, i, ops, stk, input).value.event.Spawn?
    ensures i.op.AsyncCall? && input.maySpawn
  {
    hide PopPair, PopWord, Pop, PushWord, Push, Print, ReadAt, WriteAt, U16Result, I16Result, BitResult, CmpHolds;
  }

  lemma StepSpawns(img: Image, th: Thread, input: Input)
    requires img.Valid() && Step(img, th, input).Done? && Step(img, th, input).value.1.Spawn?
    ensures input.maySpawn
  {
    hide DataOp, PopFrame, PushFrame, Pop, Decode;
    var op := Decode(img.program[th.ip]).value;
    var next := th.ip + Size(op);
    var i := Instr(op, if Size(op) == 1 then [] else img.program[th.ip + 1..next]);
    SpawnNeedsRoom(img.Context(), i, th.ops, th.stk, input);
  }

  lemma StepGrew(cfg: Config, w: World, input: Input)
    requires Fits(cfg, w) && StepTask(cfg, w, input).Done?
    ensures var w' := StepTask(cfg, w, input).value.0;
            w'.current == w.current && Grew(cfg, w, w', At(w.current))
  {
    hide Step, Deliver, Spawned, Grew, Tree;
    var limited := WithLimit(cfg, w, input);
    var (th, e) := Step(cfg.image, Current(w), limited).value;
    var w1 := SetCurrent(w, th);
    if e.Spawn? {
      StepSpawns(cfg.image, Current(w), limited);
      SpawnedGrew(cfg, w1, e.entry, e.handler);
      assert Spawned(cfg, w1, e.entry, e.handler).current == w.current by { SpawnedCurrent(cfg, w1, e.entry, e.handler); }
      SameTreeGrew(cfg, w, w1, Spawned(cfg, w1, e.entry, e.handler));
    } else {
      GrewRefl(cfg, w, At(w.current));
      SameTreeGrew2(cfg, w, StepTask(cfg, w, input).value.0);
    }
  }

  lemma SpawnedCurrent(cfg: Config, w: World, entry: word, handler: word)
    requires Ok(w)
    ensures Spawned(cfg, w, entry, handler).current == w.current
  {
  }

  predicate SameTree(a: World, b: World) {
    a.kids == b.kids && a.parents == b.parents && |a.tasks| == |b.tasks| && a.current == b.current
  }

  lemma SameTreeGrew(cfg: Config, a: World, b: World, c: World)
    requires SameTree(a, b) && Grew(cfg, b, c, At(a.current))
    ensures Grew(cfg, a, c, At(a.current))
  {
  }

  lemma SameTreeGrew2(cfg: Config, a: World, b: World)
    requires Fits(cfg, a) && Ok(b) && SameTree(a, b)
    ensures Grew(cfg, a, b, At(a.current))
  {
  }

  lemma {:induction false} RunGrew(cfg: Config, w: World, ins: seq<Input>)
    requires Fits(cfg, w) && RunTask(cfg, w, ins).Done?
    ensures var w' := RunTask(cfg, w, ins).value.0;
            w'.current == w.current && Grew(cfg, w, w', At(w.current))
    decreases |ins|
  {
    hide StepTask, Grew, Tree;
    var at := At(w.current);
    if ins == [] {
      GrewRefl(cfg, w, at);
    } else {
      StepGrew(cfg, w, ins[0]);
      var w1 := StepTask(cfg, w, ins[0]).value.0;
      GrewFits(cfg, w, w1, at);
      RunGrew(cfg, w1, ins[1..]);
      GrewTransitive(cfg, w, w1, RunTask(cfg, w, ins).value.0, at, at, at);
    }
  }

  lemma GrewFits(cfg: Config, w: World, w': World, at: Place)
    requires Grew(cfg, w, w', at)
    ensures Fits(cfg, w')
  {
  }

  /** During its cycle a task only adds children to its own node. */
  lemma CycleGrew(cfg: Config, w: World, id: nat, input: CycleInput)
    requires Fits(cfg, w) && id < |w.tasks| && Cycle(cfg, w, id, input).Done?
    ensures Grew(cfg, w, Cycle(cfg, w, id, input).value.0, At(id))
  {
    hide Deliver, RunTask, Tree, Handlers.Drained;
    var w0 := Switch(Arrived(w, input.arrival), id);
    var w1 := Drain(w0).value;
    RunGrew(cfg, w1, input.ins);
    DrainKeepsTree(w, input.arrival, id);
    SameKidsGrew(cfg, w, w1, RunTask(cfg, w1, input.ins).value.0, id);
  }

  lemma DrainKeepsTree(w: World, arrival: Option<Wire.Msg>, id: nat)
    requires Ok(w) && id < |w.tasks| && Drain(Switch(Arrived(w, arrival), id)).Done?
    ensures var w1 := Drain(Switch(Arrived(w, arrival), id)).value;
            w1.kids == w.kids && w1.parents == w.parents && |w1.tasks| == |w.tasks| && w1.current == id
  {
    hide Deliver, Handlers.Drained;
  }

  lemma SameKidsGrew(cfg: Config, a: World, b: World, c: World, id: nat)
    requires a.kids == b.kids && a.parents == b.parents && Grew(cfg, b, c, At(id))
    ensures Grew(cfg, a, c, At(id))
  {
  }

  // ----- the pass -----

  /** The inputs of a pass: those of its `k`-th cycle. */
  type Feed = nat -> CycleInput

  /** `task_tree_traverse_dfs` at node `id`, `k` cycles into the pass: the state after it and the
      tasks that had their cycle, in order. */
  function Visit(cfg: Config, w: World, id: nat, feed: Feed, k: nat): (r: Outcome<(World, seq<nat>)>)
    requires Fits(cfg, w) && id < |w.tasks|
    ensures r.Done? ==> Grew(cfg, w, r.value.0, From(id))
    decreases cfg.maxTasks + 1 - id, 1, 0
  {
    var (w1, _) :- Cycle(cfg, w, id, feed(k));
    CycleGrew(cfg, w, id, feed(k));
    var (w2, trace) :- VisitKids(cfg, w1, id, 0, feed, k + 1);
    GrewTransitive(cfg, w, w1, w2, At(id), From(id + 1), From(id));
    Done((w2, [id] + trace))
  }

  /** The loop over the children from index `i`. */
  function VisitKids(cfg: Config, w: World, id: nat, i: nat, feed: Feed, k: nat): (r: Outcome<(World, seq<nat>)>)
    requires Fits(cfg, w) && id < |w.tasks|
    ensures r.Done? ==> Grew(cfg, w, r.value.0, From(id + 1))
    decreases cfg.maxTasks + 1 - id, 0, |w.kids[id]| - i
  {
    if i >= |w.kids[id]| then
      GrewRefl(cfg, w, From(id + 1));
      Done((w, []))
    else
      var c := w.kids[id][i];
      var (w1, first) :- Visit(cfg, w, c, feed, k);
      var (w2, rest) :- VisitKids(cfg, w1, id, i + 1, feed, k + |first|);
      GrewTransitive(cfg, w, w1, w2, From(c), From(id + 1), From(id + 1));
      Done((w2, first + rest))
  }

  /** One round of `cpu_run`. */
  function Pass(cfg: Config, w: World, feed: Feed): Outcome<(World, seq<nat>)>
    requires Fits(cfg, w)
  {
    Visit(cfg, w, 0, feed, 0)
  }

  // ----- preorder -----

  /** The preorder of the subtree of `id`. */
  function Preorder(kids: seq<seq<nat>>, id: nat): seq<nat>
    requires Ranked(kids) && id < |kids|
    decreases |kids| - id, 1, 0
  {
    [id] + PreorderFrom(kids, id, 0)
  }

  /** The preorders of the children of `id` from index `i` on. */
  function PreorderFrom(kids: seq<seq<nat>>, id: nat, i: nat): seq<nat>
    requires Ranked(kids) && id < |kids|
    decreases |kids| - id, 0, |kids[id]| - i
  {
    if i >= |kids[id]| then []
    else Preorder(kids, kids[id][i]) + PreorderFrom(kids, id, i + 1)
  }

  /** `x` is `c` or a descendant of it. */
  predicate Under(parents: seq<nat>, x: nat, c: nat)
    requires x < |parents|
    decreases x
  {
    x == c || (x > c && parents[x] < x && Under(parents, parents[x], c))
  }

  lemma {:induction false} UnderTransitive(parents: seq<nat>, x: nat, k: nat, c: nat)
    requires x < |parents| && k < |parents| && Under(parents, x, k) && Under(parents, k, c)
    ensures Under(parents, x, c)
    decreases x
  {
    if x != k {
      UnderAtLeast(parents, k, c);
      UnderTransitive(parents, parents[x], k, c);
    }
  }

  lemma {:induction false} UnderAtLeast(parents: seq<nat>, x: nat, c: nat)
    requires x < |parents| && Under(parents, x, c)
    ensures x >= c
  {
  }

  /** The subtrees of two children of one node have nothing in common. */
  lemma {:induction false} SiblingsApart(parents: seq<nat>, x: nat, c: nat, d: nat)
    requires x < |parents| && 0 < c < d < |parents| && parents[c] == parents[d] && parents[c] < c
    requires Under(parents, x, c)
    ensures !Under(parents, x, d)
    decreases x
  {
    if Under(parents, x, d) {
      if x == d {
        UnderAtLeast(parents, parents[d], c);
      } else {
        assert x > d > c;
        SiblingsApart(parents, parents[x], c, d);
      }
    }
  }

  lemma {:induction false} UnderSame(parents: seq<nat>, more: seq<nat>, x: nat, c: nat)
    requires x < |parents| && parents <= more
    ensures Under(more, x, c) == Under(parents, x, c)
    decreases x
  {
    if x > c && parents[x] < x {
      UnderSame(parents, more, parents[x], c);
    }
  }

  lemma {:induction false} UnderRoot(kids: seq<seq<nat>>, parents: seq<nat>, x: nat)
    requires Tree(kids, parents) && x < |parents|
    ensures Under(parents, x, 0)
    decreases x
  {
    if x > 0 {
      UnderRoot(kids, parents, parents[x]);
    }
  }

  lemma KidIsUnder(kids: seq<seq<nat>>, parents: seq<nat>, id: nat, i: nat)
    requires Tree(kids, parents) && id < |kids| && i < |kids[id]|
    ensures id < kids[id][i] < |kids| && parents[kids[id][i]] == id && Under(parents, kids[id][i], id)
  {
  }

  /** Growth inside the subtree of `c` only. */
  ghost predicate Local(w: World, w': World, c: nat)
    requires |w.kids| == |w.parents|
  {
    w.parents <= w'.parents && |w.kids| <= |w'.kids| == |w'.parents|
    && (forall x :: 0 <= x < |w.kids| && !Under(w.parents, x, c) ==> w'.kids[x] == w.kids[x])
  }

  /** A visit changes the children of no node outside its subtree. */
  lemma {:induction false} VisitLocal(cfg: Config, w: World, id: nat, feed: Feed, k: nat)
    requires Fits(cfg, w) && id < |w.tasks| && Visit(cfg, w, id, feed, k).Done?
    ensures Local(w, Visit(cfg, w, id, feed, k).value.0, id)
    decreases cfg.maxTasks + 1 - id, 1, 0
  {
    hide Cycle, Tree;
    var w1 := Cycle(cfg, w, id, feed(k)).value.0;
    CycleGrew(cfg, w, id, feed(k));
    VisitKidsLocal(cfg, w1, id, 0, feed, k + 1);
    var w2 := Visit(cfg, w, id, feed, k).value.0;
    forall x | 0 <= x < |w.kids| && !Under(w.parents, x, id) ensures w2.kids[x] == w.kids[x]
    {
      UnderSame(w.parents, w1.parents, x, id);
    }
  }

  /** The state after the visit of child `i`. */
  lemma AfterChild(cfg: Config, w: World, id: nat, i: nat, feed: Feed, k: nat)
    requires Fits(cfg, w) && id < |w.tasks| && i < |w.kids[id]|
    requires Visit(cfg, w, w.kids[id][i], feed, k).Done?
    ensures var w1 := Visit(cfg, w, w.kids[id][i], feed, k).value.0;
            && Fits(cfg, w1) && |w.tasks| <= |w1.tasks| && w.parents <= w1.parents && w1.kids[id] == w.kids[id]
  {
    hide Visit;
    KidIsUnder(w.kids, w.parents, id, i);
  }

  lemma LocalUp(w: World, w1: World, w2: World, c: nat, id: nat)
    requires |w.kids| == |w.parents| && |w1.kids| == |w1.parents| && c < |w.kids|
    requires Local(w, w1, c) && Local(w1, w2, id) && Under(w.parents, c, id)
    ensures Local(w, w2, id)
  {
    forall x | 0 <= x < |w.kids| && !Under(w.parents, x, id) ensures w2.kids[x] == w.kids[x]
    {
      UnderSame(w.parents, w1.parents, x, id);
      if Under(w.parents, x, c) { UnderTransitive(w.parents, x, c, id); }
    }
  }

  lemma {:induction false} VisitKidsLocal(cfg: Config, w: World, id: nat, i: nat, feed: Feed, k: nat)
    requires Fits(cfg, w) && id < |w.tasks| && VisitKids(cfg, w, id, i, feed, k).Done?
    ensures Local(w, VisitKids(cfg, w, id, i, feed, k).value.0, id)
    decreases cfg.maxTasks + 1 - id, 0, |w.kids[id]| - i
  {
    hide Visit, Local, Under, Grew;
    if i < |w.kids[id]| {
      var c := w.kids[id][i];
      KidIsUnder(w.kids, w.parents, id, i);
      AfterChild(cfg, w, id, i, feed, k);
      hide Tree;
      var (w1, first) := Visit(cfg, w, c, feed, k).value;
      VisitLocal(cfg, w, c, feed, k);
      VisitKidsLocal(cfg, w1, id, i + 1, feed, k + |first|);
      LocalUp(w, w1, VisitKids(cfg, w, id, i, feed, k).value.0, c, id);
    } else {
      LocalRefl(w, id);
    }
  }

  lemma LocalRefl(w: World, id: nat)
    requires |w.kids| == |w.parents|
    ensures Local(w, w, id)
  {
  }

  /** The preorder of a subtree depends on that subtree only. */
  lemma {:induction false} PreorderSame(w: World, w': World, c: nat)
    requires Tree(w.kids, w.parents) && Tree(w'.kids, w'.parents) && c < |w.kids| <= |w'.kids|
    requires SubtreeKept(w, w', c)
    ensures Preorder(w'.kids, c) == Preorder(w.kids, c)
    decreases |w.kids| - c, 1, 0
  {
    PreorderFromSame(w, w', c, 0);
  }

  lemma {:induction false} PreorderFromSame(w: World, w': World, c: nat, i: nat)
    requires Tree(w.kids, w.parents) && Tree(w'.kids, w'.parents) && c < |w.kids| <= |w'.kids|
    requires SubtreeKept(w, w', c)
    ensures PreorderFrom(w'.kids, c, i) == PreorderFrom(w.kids, c, i)
    decreases |w.kids| - c, 0, |w.kids[c]| - i
  {
    assert Under(w.parents, c, c);
    if i < |w.kids[c]| {
      var d := w.kids[c][i];
      KidIsUnder(w.kids, w.parents, c, i);
      forall x | 0 <= x < |w.kids| && Under(w.parents, x, d) ensures w'.kids[x] == w.kids[x]
      {
        UnderTransitive(w.parents, x, d, c);
      }
      PreorderSame(w, w', d);
      PreorderFromSame(w, w', c, i + 1);
    }
  }

  /** A pass visits exactly the preorder of the tree as it stands when the pass ends, although the tree
      grows under the traversal. */
  lemma {:induction false} VisitIsPreorder(cfg: Config, w: World, id: nat, feed: Feed, k: nat)
    requires Fits(cfg, w) && id < |w.tasks| && Visit(cfg, w, id, feed, k).Done?
    ensures var (w', trace) := Visit(cfg, w, id, feed, k).value;
            trace == Preorder(w'.kids, id)
    decreases cfg.maxTasks + 1 - id, 1, 0
  {
    hide Cycle, Tree;
    var w1 := Cycle(cfg, w, id, feed(k)).value.0;
    CycleGrew(cfg, w, id, feed(k));
    VisitKidsIsPreorder(cfg, w1, id, 0, feed, k + 1);
  }

  lemma {:induction false} VisitKidsIsPreorder(cfg: Config, w: World, id: nat, i: nat, feed: Feed, k: nat)
    requires Fits(cfg, w) && id < |w.tasks| && VisitKids(cfg, w, id, i, feed, k).Done?
    ensures var (w', trace) := VisitKids(cfg, w, id, i, feed, k).value;
            trace == PreorderFrom(w'.kids, id, i)
    decreases cfg.maxTasks + 1 - id, 0, |w.kids[id]| - i
  {
    hide Visit, Under, Preorder, Grew, SubtreeKept;
    var w2 := VisitKids(cfg, w, id, i, feed, k).value.0;
    AfterKids(cfg, w, id, i, feed, k);
    if i < |w.kids[id]| {
      hide PreorderFrom;
      var c := w.kids[id][i];
      KidIsUnder(w.kids, w.parents, id, i);
      AfterChild(cfg, w, id, i, feed, k);
      var (w1, first) := Visit(cfg, w, c, feed, k).value;
      VisitIsPreorder(cfg, w, c, feed, k);
      VisitKidsIsPreorder(cfg, w1, id, i + 1, feed, k + |first|);
      AfterKids(cfg, w1, id, i + 1, feed, k + |first|);
      LaterSiblings(cfg, w1, id, i, i + 1, feed, k + |first|);
      hide Tree;
      JoinPreorders(w1, w2, id, i, c);
    }
  }

  lemma JoinPreorders(w1: World, w2: World, id: nat, i: nat, c: nat)
    requires Tree(w1.kids, w1.parents) && Tree(w2.kids, w2.parents)
    requires c < |w1.kids| <= |w2.kids| && id < |w2.kids| && i < |w2.kids[id]| && w2.kids[id][i] == c
    requires SubtreeKept(w1, w2, c)
    ensures PreorderFrom(w2.kids, id, i)
            == Preorder(w1.kids, c) + PreorderFrom(w2.kids, id, i + 1)
  {
    hide SubtreeKept, Preorder;
    PreorderSame(w1, w2, c);
  }

  lemma AfterKids(cfg: Config, w: World, id: nat, i: nat, feed: Feed, k: nat)
    requires Fits(cfg, w) && id < |w.tasks| && VisitKids(cfg, w, id, i, feed, k).Done?
    ensures var w' := VisitKids(cfg, w, id, i, feed, k).value.0;
            Fits(cfg, w') && |w.tasks| <= |w'.tasks| && w'.kids[id] == w.kids[id]
  {
    hide VisitKids;
  }

  /** Visiting the later children leaves the subtree of child `i` alone. */
  lemma {:induction false} LaterSiblings(cfg: Config, w: World, id: nat, i: nat, j: nat, feed: Feed, k: nat)
    requires Fits(cfg, w) && id < |w.tasks| && i < j && i < |w.kids[id]|
    requires VisitKids(cfg, w, id, j, feed, k).Done?
    ensures |w.kids| <= |VisitKids(cfg, w, id, j, feed, k).value.0.kids|
    ensures SubtreeKept(w, VisitKids(cfg, w, id, j, feed, k).value.0, w.kids[id][i])
    decreases |w.kids[id]| - j
  {
    hide Visit, Under, Grew, SubtreeKept, Local;
    AfterKids(cfg, w, id, j, feed, k);
    if j < |w.kids[id]| {
      var c, d := w.kids[id][i], w.kids[id][j];
      KidIsUnder(w.kids, w.parents, id, i);
      KidIsUnder(w.kids, w.parents, id, j);
      assert c < d;
      AfterChild(cfg, w, id, j, feed, k);
      hide Tree;
      var (w1, first) := Visit(cfg, w, d, feed, k).value;
      VisitLocal(cfg, w, d, feed, k);
      LaterSiblings(cfg, w1, id, i, j + 1, feed, k + |first|);
      KeptUp(w, w1, VisitKids(cfg, w, id, j, feed, k).value.0, c, d);
    } else {
      KeptRefl(w, w.kids[id][i]);
    }
  }

  /** The children of the nodes in the subtree of `c` are the same in `w'`. */
  ghost predicate SubtreeKept(w: World, w': World, c: nat)
    requires |w.kids| <= |w.parents| && |w.kids| <= |w'.kids|
  {
    forall x :: 0 <= x < |w.kids| && Under(w.parents, x, c) ==> w'.kids[x] == w.kids[x]
  }

  lemma KeptRefl(w: World, c: nat)
    requires |w.kids| <= |w.parents|
    ensures SubtreeKept(w, w, c)
  {
  }

  lemma KeptUp(w: World, w1: World, w2: World, c: nat, d: nat)
    requires |w.kids| == |w.parents| && |w1.kids| == |w1.parents| && |w.kids| <= |w1.kids| <= |w2.kids|
    requires 0 < c < d < |w.parents| && w.parents[c] == w.parents[d] < c
    requires Local(w, w1, d) && SubtreeKept(w1, w2, c)
    ensures SubtreeKept(w, w2, c)
  {
    forall x | 0 <= x < |w.kids| && Under(w.parents, x, c) ensures w2.kids[x] == w.kids[x]
    {
      SiblingsApart(w.parents, x, c, d);
      UnderSame(w.parents, w1.parents, x, c);
    }
  }
}
