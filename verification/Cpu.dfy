/** The scheduler in the form of the source (src/cpu.c): the objects of all tasks, the tree nodes and the
    queues updated in place, each method proved to do to the tasks what the pure scheduler says. */
module Cpu {
  import opened Bytes
  import opened ByteStack
  import opened Isa
  import opened Machine
  import opened TaskTree
  import Processor
  import Inbox
  import Wire
  import S = Scheduler
  import T = Traversal
  import Fairness

  // ----- what the objects hold -----

  /** All tasks; and each stack, each of their arrays and each array of children with the id of its task. */
  datatype Owners = Owners(tasks: set<Task>, stacks: map<Stack, (nat, bool)>, buffers: map<array<byte>, (nat, bool)>,
                           arrays: map<array<TaskTreeNode?>, nat>)

  /** The stacks of task `i` are its own; `true` marks the call stack. */
  ghost predicate TaskOwned(o: Owners, t: Task, i: nat) {
    && t in o.tasks
    && t.opstack in o.stacks && o.stacks[t.opstack] == (i, false)
    && t.stack in o.stacks && o.stacks[t.stack] == (i, true)
    && t.opstack.data in o.buffers && o.buffers[t.opstack.data] == (i, false)
    && t.stack.data in o.buffers && o.buffers[t.stack.data] == (i, true)
  }

  ghost predicate Apart(o: Owners, nodes: seq<TaskTreeNode>) {
    forall i :: 0 <= i < |nodes| ==> TaskOwned(o, nodes[i].task, i)
  }

  /** Node `i` has the children and the parent that the tree gives it, and its own array. */
  ghost predicate NodeIs(o: Owners, nodes: seq<TaskTreeNode>, i: nat, kids: seq<nat>, parent: nat)
    requires i < |nodes|
    reads nodes[i], o.arrays.Keys
  {
    var n := nodes[i];
    && n.id == i && n.children in o.arrays && o.arrays[n.children] == i && n.Valid() && n.childCount == |kids|
    && (forall j :: 0 <= j < |kids| ==> kids[j] < |nodes| && n.children[j] == nodes[kids[j]])
    && (if i == 0 then n.parent == null else parent < |nodes| && n.parent == nodes[parent])
  }

  ghost predicate TreeIs(o: Owners, nodes: seq<TaskTreeNode>, kids: seq<seq<nat>>, parents: seq<nat>)
    requires |nodes| == |kids| == |parents|
    reads nodes, o.arrays.Keys
  {
    forall i :: 0 <= i < |nodes| ==> NodeIs(o, nodes, i, kids[i], parents[i])
  }

  /** Identity, saved `ip` and handler of each task; none but the current one is marked active. */
  ghost predicate SavedAre(o: Owners, nodes: seq<TaskTreeNode>, tasks: seq<S.TaskState>, current: nat)
    requires |nodes| == |tasks| && Apart(o, nodes)
    reads o.tasks
  {
    forall i :: 0 <= i < |nodes| ==> SavedIs(nodes[i].task, i, tasks[i], current)
  }

  ghost predicate SavedIs(t: Task, i: nat, v: S.TaskState, current: nat)
    reads t
  {
    t.id == i && t.ip == v.saved && t.handler == v.handler && (t.active ==> i == current)
  }

  ghost function PartsOf(nodes: seq<TaskTreeNode>, queues: seq<Inbox.MessageQueue>, o: Owners): set<object> {
    var n: set<object> := set x | x in nodes;
    var q: set<object> := set x | x in queues;
    n + q + o.tasks + o.stacks.Keys + o.buffers.Keys + o.arrays.Keys
  }

  /** A task object has the stacks of the value `v`. */
  ghost predicate StacksHold(t: Task, v: S.TaskState)
    reads t.opstack, t.opstack.data, t.stack, t.stack.data
  {
    t.opstack.Valid() && t.stack.Valid() && t.opstack.Abs() == v.ops && t.stack.Abs() == v.stk
  }

  ghost predicate StacksAre(o: Owners, nodes: seq<TaskTreeNode>, tasks: seq<S.TaskState>)
    requires |nodes| == |tasks| && Apart(o, nodes)
    reads o.stacks.Keys, o.buffers.Keys
  {
    forall i :: 0 <= i < |nodes| ==> StacksHold(nodes[i].task, tasks[i])
  }

  /** A queue holds the messages of inbox `i`. */
  ghost predicate QueueIs(q: Inbox.MessageQueue, i: nat, inbox: seq<Wire.Msg>)
    reads q
  {
    q.taskId == i && Inbox.Messages(q.chain) == inbox
  }

  /** Queue `i` is the inbox of task `i`. */
  ghost predicate QueuesAre(nodes: seq<TaskTreeNode>, queues: seq<Inbox.MessageQueue>, tasks: seq<S.TaskState>)
    requires |nodes| == |queues| == |tasks|
    reads queues
  {
    forall i :: 0 <= i < |nodes| ==> nodes[i].task.inbox == queues[i] && QueueIs(queues[i], i, tasks[i].inbox)
  }

  // ----- changes of the value alone -----

  lemma SameInboxes(nodes: seq<TaskTreeNode>, queues: seq<Inbox.MessageQueue>, tasks: seq<S.TaskState>, after: seq<S.TaskState>)
    requires |nodes| == |queues| == |tasks| == |after| && QueuesAre(nodes, queues, tasks)
    requires forall i :: 0 <= i < |tasks| ==> after[i].inbox == tasks[i].inbox
    ensures QueuesAre(nodes, queues, after)
  {
    forall i | 0 <= i < |nodes| ensures QueueIs(queues[i], i, after[i].inbox)
    {
      assert QueueIs(queues[i], i, tasks[i].inbox);
    }
  }

  lemma SameSaved(o: Owners, nodes: seq<TaskTreeNode>, tasks: seq<S.TaskState>, after: seq<S.TaskState>, current: nat)
    requires |nodes| == |tasks| == |after| && Apart(o, nodes) && SavedAre(o, nodes, tasks, current)
    requires forall i :: 0 <= i < |tasks| ==> after[i].saved == tasks[i].saved && after[i].handler == tasks[i].handler
    ensures SavedAre(o, nodes, after, current)
  {
    forall i | 0 <= i < |nodes| ensures SavedIs(nodes[i].task, i, after[i], current)
    {
      assert SavedIs(nodes[i].task, i, tasks[i], current);
    }
  }

  lemma SameStacks(o: Owners, nodes: seq<TaskTreeNode>, tasks: seq<S.TaskState>, after: seq<S.TaskState>)
    requires |nodes| == |tasks| == |after| && Apart(o, nodes) && StacksAre(o, nodes, tasks)
    requires forall i :: 0 <= i < |tasks| ==> after[i].ops == tasks[i].ops && after[i].stk == tasks[i].stk
    ensures StacksAre(o, nodes, after)
  {
    forall i | 0 <= i < |nodes| ensures StacksHold(nodes[i].task, after[i])
    {
      assert StacksHold(nodes[i].task, tasks[i]);
    }
  }

  /** Only saved instruction pointers change in a context switch. */
  lemma SwitchIs(cfg: S.Config, w: S.World, id: nat)
    requires T.Fits(cfg, w) && id < |w.tasks|
    ensures var r := S.Switch(w, id);
            && T.Fits(cfg, r) && r.kids == w.kids && r.parents == w.parents && r.current == id && |r.tasks| == |w.tasks|
            && r.ip == r.tasks[id].saved
            && forall i :: 0 <= i < |w.tasks| ==>
                 r.tasks[i] == if i == w.current then w.tasks[i].(saved := w.ip) else w.tasks[i]
  {
  }

  /** An instruction changes the thread of the current task. */
  lemma SetCurrentIs(cfg: S.Config, w: S.World, th: Thread)
    requires T.Fits(cfg, w)
    ensures S.Ok(w)
    ensures var r := S.SetCurrent(w, th);
            && T.Fits(cfg, r) && r.kids == w.kids && r.parents == w.parents && r.current == w.current
            && |r.tasks| == |w.tasks| && r.ip == th.ip
            && forall i :: 0 <= i < |w.tasks| ==>
                 r.tasks[i] == if i == w.current then w.tasks[i].(ops := th.ops, stk := th.stk) else w.tasks[i]
  {
  }

  /** The world with another inbox for its current task. */
  function WithInbox(w: S.World, inbox: seq<Wire.Msg>): (r: S.World)
    requires S.Ok(w)
    ensures S.Ok(r)
  {
    w.(tasks := w.tasks[w.current := w.tasks[w.current].(inbox := inbox)])
  }

  lemma WithInboxIs(cfg: S.Config, w: S.World, inbox: seq<Wire.Msg>)
    requires T.Fits(cfg, w)
    ensures var r := WithInbox(w, inbox);
            && T.Fits(cfg, r) && r.kids == w.kids && r.parents == w.parents && r.current == w.current
            && |r.tasks| == |w.tasks| && r.ip == w.ip
            && forall i :: 0 <= i < |w.tasks| ==>
                 r.tasks[i] == if i == w.current then w.tasks[i].(inbox := inbox) else w.tasks[i]
  {
  }

  /** The frame for one message: none without a handler. */
  function Called(w: S.World): Outcome<S.World>
    requires S.Ok(w)
  {
    if w.tasks[w.current].handler == 0 then Done(w)
    else
      var th :- CallAddress(S.Current(w), w.tasks[w.current].handler);
      Done(S.SetCurrent(w, th))
  }

  lemma CalledIs(w: S.World)
    requires S.Ok(w)
    ensures Called(w)
            == if w.tasks[w.current].handler == 0 then Done(w)
               else match CallAddress(S.Current(w), w.tasks[w.current].handler)
                    case Done(th) => Done(S.SetCurrent(w, th))
                    case Exited(c) => Exited(c)
                    case Undefined => Undefined
  {
    hide CallAddress;
  }

  /** The drain of a whole inbox, one message at a time. */
  lemma DrainUnfold(w: S.World)
    requires S.Ok(w)
    ensures var inbox := w.tasks[w.current].inbox;
            && (inbox == [] ==> S.Drain(w) == Done(w))
            && (inbox != [] ==>
                  match Called(w)
                  case Done(c) =>
                    && S.Ok(c) && c.current == w.current < |c.tasks| && c.tasks[w.current].inbox == inbox
                    && S.Drain(w) == S.Drain(WithInbox(c, inbox[1..]))
                  case Exited(c) => S.Drain(w) == Exited(c)
                  case Undefined => S.Drain(w) == Undefined)
  {
    hide CallAddress;
    var task := w.tasks[w.current];
    if task.inbox == [] {
      assert S.SetCurrent(w, S.Current(w)) == w;
      assert task.(inbox := []) == task;
    } else if Called(w).Done? {
      var w1 := WithInbox(Called(w).value, task.inbox[1..]);
      if S.Drain(w1).Done? { assert S.Drain(w).value.tasks == S.Drain(w1).value.tasks; }
    }
  }

  /** The world after a delivery. */
  function Delivered(w: S.World, m: Wire.Msg): S.World {
    w.(tasks := S.Deliver(w.tasks, m))
  }

  lemma MessageFromIs(src: word, dst: word, payload: seq<byte>)
    requires |payload| < 65536
    ensures S.MessageFrom(src, dst, payload)
            == Wire.Msg(S.LOCAL_VM, S.LOCAL_VM, src, dst, 0, |payload|, Wire.Crc(payload), 0, 0, Isa.Some(payload))
  {
  }

  lemma DeliveredIs(cfg: S.Config, w: S.World, m: Wire.Msg)
    requires T.Fits(cfg, w)
    ensures var r := Delivered(w, m);
            && T.Fits(cfg, r) && r == w.(tasks := r.tasks) && |r.tasks| == |w.tasks|
            && forall i :: 0 <= i < |w.tasks| ==>
                 r.tasks[i] == w.tasks[i].(inbox :=
                   if i == m.taskDst && |w.tasks[i].inbox| < Inbox.QUEUE_SIZE then w.tasks[i].inbox + [m]
                   else w.tasks[i].inbox)
  {
  }

  lemma SpawnedIs(cfg: S.Config, w: S.World, entry: word, handler: word)
    requires T.Fits(cfg, w) && |w.tasks| <= cfg.maxTasks
    ensures S.Ok(w)
    ensures var r := S.Spawned(cfg, w, entry, handler);
            && T.Fits(cfg, r) && r.current == w.current < |w.tasks| && r.ip == w.ip
            && |w.kids| == |w.parents| == |w.tasks| && |r.tasks| == |w.tasks| + 1
            && r.kids == T.WithChild(w.kids, w.current) && r.parents == w.parents + [w.current]
            && r.tasks == w.tasks + [S.TaskState(entry, Fresh(cfg.opsSize), Fresh(cfg.stkSize), handler, [])]
  {
    T.SpawnedGrew(cfg, w, entry, handler);
  }

  // ----- runs -----

  /** The whole run is the events so far followed by what is left. */
  ghost predicate RunSoFar(whole: Outcome<(S.World, seq<Event>)>, events: seq<Event>,
                           left: Outcome<(S.World, seq<Event>)>)
  {
    match left
    case Done(p) => whole == Done((p.0, events + p.1))
    case Exited(c) => whole == Exited(c)
    case Undefined => whole == Undefined
  }

  lemma RunStart(whole: Outcome<(S.World, seq<Event>)>)
    ensures RunSoFar(whole, [], whole)
  {
    if whole.Done? { assert [] + whole.value.1 == whole.value.1; }
  }

  lemma RunNext(cfg: S.Config, w: S.World, inputs: seq<Input>, i: nat, whole: Outcome<(S.World, seq<Event>)>,
                events: seq<Event>)
    requires S.Ok(w) && cfg.image.Valid() && i < |inputs| && RunSoFar(whole, events, S.RunTask(cfg, w, inputs[i..]))
    ensures match S.StepTask(cfg, w, inputs[i])
            case Done(p) => S.Ok(p.0) && RunSoFar(whole, events + [p.1], S.RunTask(cfg, p.0, inputs[i + 1..]))
            case Exited(c) => whole == Exited(c)
            case Undefined => whole == Undefined
  {
    hide S.StepTask;
    assert inputs[i..][1..] == inputs[i + 1..];
    var s := S.StepTask(cfg, w, inputs[i]);
    if s.Done? {
      var rest := S.RunTask(cfg, s.value.0, inputs[i + 1..]);
      if rest.Done? { assert events + ([s.value.1] + rest.value.1) == events + [s.value.1] + rest.value.1; }
    }
  }

  lemma RunDone(cfg: S.Config, w: S.World, inputs: seq<Input>, whole: Outcome<(S.World, seq<Event>)>, events: seq<Event>)
    requires S.Ok(w) && cfg.image.Valid() && RunSoFar(whole, events, S.RunTask(cfg, w, inputs[|inputs|..]))
    ensures whole == Done((w, events))
  {
    assert inputs[|inputs|..] == [] && events + [] == events;
  }

  // ----- passes -----

  /** The whole visit is the tasks visited so far followed by what is left. */
  ghost predicate VisitSoFar(whole: Outcome<(S.World, seq<nat>)>, trace: seq<nat>, left: Outcome<(S.World, seq<nat>)>) {
    match left
    case Done(p) => whole == Done((p.0, trace + p.1))
    case Exited(c) => whole == Exited(c)
    case Undefined => whole == Undefined
  }

  lemma VisitStart(cfg: S.Config, w: S.World, id: nat, feed: T.Feed, k: nat)
    requires T.Fits(cfg, w) && id < |w.tasks|
    ensures S.Ok(w) && cfg.image.Valid() && id <= cfg.maxTasks
    ensures var cycle, visit := S.Cycle(cfg, w, id, feed(k)), T.Visit(cfg, w, id, feed, k);
            && (cycle.Done? ==>
                  && T.Fits(cfg, cycle.value.0) && id < |cycle.value.0.tasks|
                  && VisitSoFar(visit, [id], T.VisitKids(cfg, cycle.value.0, id, 0, feed, k + 1)))
            && (cycle.Exited? ==> visit == Exited(cycle.code))
            && (cycle.Undefined? ==> visit == Undefined)
  {
    hide S.Cycle, T.VisitKids;
    if S.Cycle(cfg, w, id, feed(k)).Done? { T.CycleGrew(cfg, w, id, feed(k)); }
  }

  /** The loop over the children, one child at a time. */
  lemma KidsUnfold(cfg: S.Config, w: S.World, id: nat, i: nat, feed: T.Feed, k: nat)
    requires T.Fits(cfg, w) && id < |w.tasks|
    ensures |w.kids| == |w.tasks|
    ensures i >= |w.kids[id]| ==> T.VisitKids(cfg, w, id, i, feed, k) == Done((w, []))
    ensures i < |w.kids[id]| ==>
              var c := w.kids[id][i];
              && id < c < |w.tasks|
              && var visit, whole := T.Visit(cfg, w, c, feed, k), T.VisitKids(cfg, w, id, i, feed, k);
                 && (visit.Done? ==>
                       var w1 := visit.value.0;
                       && T.Fits(cfg, w1) && id < |w1.tasks| == |w1.kids| && w1.kids[id] == w.kids[id]
                       && VisitSoFar(whole, visit.value.1, T.VisitKids(cfg, w1, id, i + 1, feed, k + |visit.value.1|)))
                 && (visit.Exited? ==> whole == Exited(visit.code))
                 && (visit.Undefined? ==> whole == Undefined)
  {
    hide T.Visit, T.Grew;
    if i < |w.kids[id]| {
      T.KidIsUnder(w.kids, w.parents, id, i);
      hide T.Tree;
      if T.Visit(cfg, w, w.kids[id][i], feed, k).Done? { T.AfterChild(cfg, w, id, i, feed, k); }
    }
  }

  lemma SoFarAppend(whole: Outcome<(S.World, seq<nat>)>, trace: seq<nat>, part: Outcome<(S.World, seq<nat>)>,
                    more: seq<nat>, left: Outcome<(S.World, seq<nat>)>)
    requires VisitSoFar(whole, trace, part) && VisitSoFar(part, more, left)
    ensures VisitSoFar(whole, trace + more, left)
  {
    if left.Done? { assert trace + (more + left.value.1) == trace + more + left.value.1; }
  }

  lemma VisitNext(cfg: S.Config, w: S.World, id: nat, i: nat, feed: T.Feed, k: nat,
                  whole: Outcome<(S.World, seq<nat>)>, trace: seq<nat>)
    requires T.Fits(cfg, w) && id < |w.tasks| && VisitSoFar(whole, trace, T.VisitKids(cfg, w, id, i, feed, k))
    ensures |w.kids| == |w.tasks|
    ensures i >= |w.kids[id]| ==> whole == Done((w, trace))
    ensures i < |w.kids[id]| ==>
              var c := w.kids[id][i];
              && id < c < |w.tasks|
              && var visit := T.Visit(cfg, w, c, feed, k);
                 && (visit.Done? ==>
                       var w1 := visit.value.0;
                       && T.Fits(cfg, w1) && id < |w1.tasks| == |w1.kids| && w1.kids[id] == w.kids[id]
                       && VisitSoFar(whole, trace + visit.value.1,
                                     T.VisitKids(cfg, w1, id, i + 1, feed, k + |visit.value.1|)))
                 && (visit.Exited? ==> whole == Exited(visit.code))
                 && (visit.Undefined? ==> whole == Undefined)
  {
    hide T.Visit, T.VisitKids, T.Fits;
    KidsUnfold(cfg, w, id, i, feed, k);
    if i >= |w.kids[id]| {
      assert trace + [] == trace;
    } else {
      var visit := T.Visit(cfg, w, w.kids[id][i], feed, k);
      if visit.Done? {
        SoFarAppend(whole, trace, T.VisitKids(cfg, w, id, i, feed, k), visit.value.1,
                    T.VisitKids(cfg, visit.value.0, id, i + 1, feed, k + |visit.value.1|));
      }
    }
  }

  // ----- a new task -----

  /** `task_create` with the stacks and the inbox of the task, and its tree node. */
  method NewNode(cfg: S.Config, id: byte, entry: word, handler: word) returns (node: TaskTreeNode)
    ensures fresh(node) && fresh(node.children) && fresh(node.task) && fresh(node.task.inbox)
    ensures fresh(node.task.opstack) && fresh(node.task.opstack.data)
    ensures fresh(node.task.stack) && fresh(node.task.stack.data)
    ensures node.task.opstack != node.task.stack && node.task.opstack.data != node.task.stack.data
    ensures node.id == id && node.parent == null && node.Valid() && node.Kids() == []
    ensures NewTask(node.task, id, S.TaskState(entry, Fresh(cfg.opsSize), Fresh(cfg.stkSize), handler, []))
    ensures NewQueue(node.task.inbox, id) && node.task.opstack.Valid() && node.task.stack.Valid()
  {
    var opstack := new Stack(cfg.opsSize);
    var stack := new Stack(cfg.stkSize);
    var inbox := new Inbox.MessageQueue(id);
    var task := new Task(id, entry, opstack, stack, inbox, handler);
    node := new TaskTreeNode(id, task);
  }

  ghost predicate NewTask(t: Task, id: nat, v: S.TaskState)
    reads t, t.opstack, t.opstack.data, t.stack, t.stack.data
  {
    t.id == id && t.ip == v.saved && t.handler == v.handler && !t.active && StacksHold(t, v)
  }

  ghost predicate NewQueue(q: Inbox.MessageQueue, id: nat)
    reads q, q.chain
  {
    q.taskId == id && q.Valid() && q.next == null && q.chain == []
  }

  /** The owners with a new node `id`, a child of node `parent` which now has the array `children`. */
  ghost function Enlarged(o: Owners, t: Task, own: array<TaskTreeNode?>, id: nat, children: array<TaskTreeNode?>,
                          parent: nat): Owners
  {
    Owners(o.tasks + {t}, o.stacks[t.opstack := (id, false)][t.stack := (id, true)],
           o.buffers[t.opstack.data := (id, false)][t.stack.data := (id, true)],
           o.arrays[children := parent][own := id])
  }

  lemma EnlargedParts(o: Owners, t: Task, own: array<TaskTreeNode?>, id: nat, children: array<TaskTreeNode?>, parent: nat)
    ensures var r := Enlarged(o, t, own, id, children, parent);
            && r.tasks == o.tasks + {t} && r.stacks.Keys == o.stacks.Keys + {t.opstack, t.stack}
            && r.buffers.Keys == o.buffers.Keys + {t.opstack.data, t.stack.data}
            && r.arrays.Keys == o.arrays.Keys + {own, children}
  {
  }

  /** The objects of a new node; `children` is the array of its parent. */
  ghost function NewParts(node: TaskTreeNode, children: array<TaskTreeNode?>): set<object>
    reads node
  {
    var t := node.task;
    {node, t.inbox, t, t.opstack, t.stack, t.opstack.data, t.stack.data, node.children, children}
  }

  lemma NewPartsAre(node: TaskTreeNode, children: array<TaskTreeNode?>)
    ensures var t := node.task;
            NewParts(node, children)
            == {node, t.inbox, t, t.opstack, t.stack, t.opstack.data, t.stack.data, node.children, children}
  {
  }

  lemma MoreParts(nodes: seq<TaskTreeNode>, queues: seq<Inbox.MessageQueue>, o: Owners, node: TaskTreeNode,
                  children: array<TaskTreeNode?>, parent: nat)
    ensures PartsOf(nodes + [node], queues + [node.task.inbox], Enlarged(o, node.task, node.children, |nodes|, children, parent))
            <= PartsOf(nodes, queues, o) + NewParts(node, children)
  {
    var t := node.task;
    var more := Enlarged(o, t, node.children, |nodes|, children, parent);
    EnlargedParts(o, t, node.children, |nodes|, children, parent);
    hide Enlarged;
    forall x | x in PartsOf(nodes + [node], queues + [t.inbox], more)
      ensures x in PartsOf(nodes, queues, o) + NewParts(node, children)
    {
      if x in more.tasks || x in more.stacks.Keys || x in more.buffers.Keys || x in more.arrays.Keys {
      } else {
        assert x in nodes + [node] || x in queues + [t.inbox];
      }
    }
  }

  lemma EnlargedApart(o: Owners, nodes: seq<TaskTreeNode>, node: TaskTreeNode, children: array<TaskTreeNode?>, parent: nat)
    requires Apart(o, nodes)
    requires var t := node.task;
             && t.opstack !in o.stacks && t.stack !in o.stacks && t.opstack != t.stack
             && t.opstack.data !in o.buffers && t.stack.data !in o.buffers && t.opstack.data != t.stack.data
    ensures Apart(Enlarged(o, node.task, node.children, |nodes|, children, parent), nodes + [node])
  {
    var after := Enlarged(o, node.task, node.children, |nodes|, children, parent);
    forall i | 0 <= i < |nodes| ensures TaskOwned(after, nodes[i].task, i)
    {
      assert TaskOwned(o, nodes[i].task, i);
    }
  }

  lemma EnlargedTasks(o: Owners, after: Owners, nodes: seq<TaskTreeNode>, node: TaskTreeNode, tasks: seq<S.TaskState>, v: S.TaskState,
                      current: nat)
    requires |nodes| == |tasks| && Apart(o, nodes) && Apart(after, nodes + [node]) && NewTask(node.task, |nodes|, v)
    requires SavedAre(o, nodes, tasks, current) && StacksAre(o, nodes, tasks)
    ensures SavedAre(after, nodes + [node], tasks + [v], current) && StacksAre(after, nodes + [node], tasks + [v])
  {
    var n, t := nodes + [node], tasks + [v];
    forall i | 0 <= i < |n| ensures SavedIs(n[i].task, i, t[i], current) && StacksHold(n[i].task, t[i])
    {
      if i < |nodes| { assert SavedIs(nodes[i].task, i, tasks[i], current) && StacksHold(nodes[i].task, tasks[i]); }
    }
  }

  class Cpu {
    const cfg: S.Config
    const processor: Processor.Processor
    var root: TaskTreeNode
    var currentNode: TaskTreeNode
    var tasksNumber: nat
    var messageQueues: Inbox.MessageQueue

    /** Node and queue of each task by id, all messages, and the abstract value of all of it. */
    ghost var nodes: seq<TaskTreeNode>
    ghost var queues: seq<Inbox.MessageQueue>
    ghost var messages: set<Inbox.Message>
    ghost var owners: Owners

    /** All these objects. */
    ghost var objects: set<object>
    ghost var world: S.World

    /** The tree and the saved registers of `w`. */
    ghost predicate TreeReady(w: S.World)
      reads this`root, this`currentNode, this`tasksNumber, this`nodes, this`owners
      reads nodes, owners.tasks, owners.arrays.Keys
    {
      && T.Fits(cfg, w) && cfg.maxTasks < 256
      && |nodes| == |w.tasks| && tasksNumber == |nodes| - 1
      && root == nodes[0] && currentNode == nodes[w.current] && Apart(owners, nodes)
      && TreeIs(owners, nodes, w.kids, w.parents)
      && SavedAre(owners, nodes, w.tasks, w.current)
    }

    /** The inboxes of `w`. */
    ghost predicate InboxesReady(w: S.World)
      reads this`messageQueues, this`nodes, this`queues, this`messages, queues, messages
    {
      && |nodes| == |queues| == |w.tasks|
      && Inbox.Registry(queues, messageQueues, messages)
      && QueuesAre(nodes, queues, w.tasks)
    }

    /** The stacks of all tasks, and the processor at work on those of the current one. */
    ghost predicate StacksReady(w: S.World)
      reads this`nodes, this`owners, processor, owners.stacks.Keys, owners.buffers.Keys
    {
      && S.Ok(w) && |nodes| == |w.tasks| && Apart(owners, nodes) && StacksAre(owners, nodes, w.tasks)
      && processor.image == cfg.image && cfg.image.Valid() && processor.ip == w.ip
      && processor.opstack == nodes[w.current].task.opstack && processor.stack == nodes[w.current].task.stack
    }

    ghost predicate Covered()
      reads this`nodes, this`queues, this`messages, this`owners, this`objects
    {
      && (forall n :: n in nodes ==> n in objects) && (forall q :: q in queues ==> q in objects)
      && messages <= objects && owners.tasks <= objects && owners.stacks.Keys <= objects
      && owners.buffers.Keys <= objects && owners.arrays.Keys <= objects
    }

    /** The objects are the tasks of `world`. */
    ghost predicate Valid()
      reads this, processor, nodes, owners.tasks, owners.stacks.Keys, owners.buffers.Keys, owners.arrays.Keys
      reads queues, messages
    {
      TreeReady(world) && InboxesReady(world) && StacksReady(world) && Covered()
    }

    /** `cpu_create` and `cpu_load_program`. The source sets the stack pointers of the CPU only in the first
        context switch; here they already point to the stacks of the main task. */
    constructor (cfg: S.Config)
      requires cfg.image.Valid() && cfg.maxTasks < 256
      ensures Valid() && world == S.Boot(cfg) && this.cfg == cfg && fresh(processor) && fresh(objects)
    {
      hide T.Fits, Inbox.Registry, Inbox.MessageQueue.Valid, NewTask, StacksHold, Valid, S.Boot, Stack.Abs;
      var node := NewNode(cfg, 0, 0, 0);
      ghost var inbox, t := node.task.inbox, node.task;
      ghost var o := Owners({t}, map[t.opstack := (0, false), t.stack := (0, true)],
                            map[t.opstack.data := (0, false), t.stack.data := (0, true)], map[node.children := 0]);
      this.cfg := cfg;
      processor := new Processor.Processor(cfg.image, node.task.opstack, node.task.stack);
      root, currentNode, tasksNumber, messageQueues := node, node, 0, node.task.inbox;
      nodes, queues, messages, owners, world := [node], [inbox], {}, o, S.Boot(cfg);
      objects := {node, inbox, t, t.opstack, t.stack, t.opstack.data, t.stack.data, node.children};
      new;
      T.BootFits(cfg);
      Inbox.OneQueue(inbox);
      Alone(node);
    }

    lemma Alone(node: TaskTreeNode)
      requires nodes == [node] && queues == [node.task.inbox] && world == S.Boot(cfg) && T.Fits(cfg, world)
      requires root == currentNode == node && tasksNumber == 0 && cfg.maxTasks < 256 && cfg.image.Valid()
      requires TaskOwned(owners, node.task, 0) && NodeIs(owners, nodes, 0, [], 0) && Covered()
      requires NewTask(node.task, 0, S.TaskState(0, Fresh(cfg.opsSize), Fresh(cfg.stkSize), 0, []))
      requires Inbox.Registry(queues, messageQueues, messages) && QueueIs(queues[0], 0, [])
      requires processor.image == cfg.image && processor.ip == 0
      requires processor.opstack == node.task.opstack && processor.stack == node.task.stack
      ensures Valid()
    {
      hide T.Fits, Inbox.Registry, StacksHold, Fresh;
      assert world.tasks[0] == S.TaskState(0, Fresh(cfg.opsSize), Fresh(cfg.stkSize), 0, []);
    }

    // ----- context switch -----

    /** Node ids are positions, hence unique. */
    lemma IdOf(node: TaskTreeNode)
      requires Valid() && node in nodes
      ensures S.Ok(world) && node.id < |nodes| == |world.tasks| && nodes[node.id] == node
    {
      var i :| 0 <= i < |nodes| && nodes[i] == node;
      assert NodeIs(owners, nodes, i, world.kids[i], world.parents[i]);
    }

    /** `cpu_set_task_node`. */
    method SetTaskNode(node: TaskTreeNode)
      modifies processor`ip, processor`opstack, processor`stack, this`currentNode, node.task`active
      ensures node.task.active && currentNode == node
      ensures processor.ip == node.task.ip && processor.opstack == node.task.opstack && processor.stack == node.task.stack
    {
      node.task.active := true;
      processor.ip := node.task.ip;
      processor.opstack := node.task.opstack;
      processor.stack := node.task.stack;
      currentNode := node;
    }

    /** `cpu_context_switch`. */
    method ContextSwitch(node: TaskTreeNode)
      requires Valid() && node in nodes
      modifies processor`ip, processor`opstack, processor`stack
      modifies this`currentNode, this`world, currentNode.task`active, currentNode.task`ip, node.task`active
      ensures Valid() && node.id < |old(world).tasks| && world == S.Switch(old(world), node.id)
    {
      hide T.Fits, TreeIs, QueuesAre, StacksAre, SavedAre, InboxesReady;
      IdOf(node);
      ghost var before, after := world, S.Switch(world, node.id);
      SwitchIs(cfg, before, node.id);
      hide S.Switch;
      SameStacks(owners, nodes, before.tasks, after.tasks);
      SaveAndSet(node, before.current, before.tasks, after);
      InboxesSame(before, after);
    }

    lemma InboxesSame(w: S.World, after: S.World)
      requires InboxesReady(w) && |after.tasks| == |w.tasks|
      requires forall i :: 0 <= i < |w.tasks| ==> after.tasks[i].inbox == w.tasks[i].inbox
      ensures InboxesReady(after)
    {
      SameInboxes(nodes, queues, w.tasks, after.tasks);
    }

    /** The assignments of the switch. */
    method SaveAndSet(node: TaskTreeNode, ghost current: nat, ghost before: seq<S.TaskState>, ghost after: S.World)
      requires |nodes| == |before| == |after.tasks| && Apart(owners, nodes) && SavedAre(owners, nodes, before, current)
      requires current < |nodes| && currentNode == nodes[current] && node.id < |nodes| && nodes[node.id] == node
      requires forall i :: 0 <= i < |before| ==>
                 after.tasks[i] == if i == current then before[i].(saved := processor.ip) else before[i]
      modifies processor`ip, processor`opstack, processor`stack
      modifies this`currentNode, this`world, currentNode.task`active, currentNode.task`ip, node.task`active
      ensures SavedAre(owners, nodes, after.tasks, node.id)
      ensures currentNode == node && world == after && processor.ip == after.tasks[node.id].saved
      ensures processor.opstack == node.task.opstack && processor.stack == node.task.stack
    {
      currentNode.task.active := false;
      currentNode.task.ip := processor.ip;
      SetTaskNode(node);
      world := after;
      forall i | 0 <= i < |nodes| ensures SavedIs(nodes[i].task, i, after.tasks[i], node.id)
      {
        assert old(SavedIs(nodes[i].task, i, before[i], current));
      }
    }

    // ----- instructions -----

    /** The instruction on the processor leaves the stacks of the other tasks alone. */
    method StepStacks(input: Input, ghost before: S.World) returns (r: Outcome<Event>)
      requires StacksReady(before)
      modifies processor`ip, processor.opstack`sp, processor.opstack.data
      modifies processor.stack`sp, processor.stack`bp, processor.stack.data
      ensures match Machine.Step(cfg.image, S.Current(before), input)
              case Done(p) => r == Done(p.1) && StacksReady(S.SetCurrent(before, p.0))
              case Exited(c) => r == Exited(c)
              case Undefined => r == Undefined
    {
      hide Machine.Step;
      assert TaskOwned(owners, nodes[before.current].task, before.current);
      assert StacksHold(nodes[before.current].task, before.tasks[before.current]);
      r := processor.Step(input);
      if !r.Done? { return; }
      ghost var after := S.SetCurrent(before, processor.Abs()).tasks;
      forall i | 0 <= i < |nodes| ensures StacksHold(nodes[i].task, after[i])
      {
        assert TaskOwned(owners, nodes[i].task, i);
        assert old(StacksHold(nodes[i].task, before.tasks[i]));
      }
    }

    /** One instruction of the current task. */
    method StepCurrent(input: Input) returns (r: Outcome<Event>)
      requires Valid()
      modifies this`world, processor`ip, processor.opstack`sp, processor.opstack.data
      modifies processor.stack`sp, processor.stack`bp, processor.stack.data
      ensures match Machine.Step(cfg.image, S.Current(old(world)), input)
              case Done(p) => r == Done(p.1) && Valid() && world == S.SetCurrent(old(world), p.0)
              case Exited(c) => r == Exited(c)
              case Undefined => r == Undefined
    {
      hide *;
      ReadyOk();
      ghost var before, spec := world, Machine.Step(cfg.image, S.Current(world), input);
      r := StepStacks(input, before);
      if !r.Done? { return; }
      Moved(before, spec.value.0);
      world := S.SetCurrent(before, spec.value.0);
      ReadyValid();
    }

    /** The thread of the current task has no part in the tree and the inboxes. */
    lemma Moved(w: S.World, th: Thread)
      requires TreeReady(w) && InboxesReady(w)
      ensures S.Ok(w) && TreeReady(S.SetCurrent(w, th)) && InboxesReady(S.SetCurrent(w, th))
    {
      hide T.Fits, TreeIs, SavedAre, InboxesReady;
      SetCurrentIs(cfg, w, th);
      var after := S.SetCurrent(w, th);
      hide S.SetCurrent;
      InboxesSame(w, after);
      SameSaved(owners, nodes, w.tasks, after.tasks, w.current);
    }

    lemma ReadyOk()
      requires Valid()
      ensures TreeReady(world) && InboxesReady(world) && StacksReady(world) && Covered()
      ensures processor.opstack in owners.stacks && processor.stack in owners.stacks
      ensures processor.opstack.data in owners.buffers && processor.stack.data in owners.buffers
      ensures S.Ok(world) && cfg.image.Valid() && |nodes| == |queues| == |world.tasks| && currentNode == nodes[world.current]
    {
      assert TaskOwned(owners, currentNode.task, world.current);
    }

    lemma ReadyValid()
      requires TreeReady(world) && InboxesReady(world) && StacksReady(world) && Covered()
      ensures Valid()
    {
    }

    // ----- the inbox of the current task -----

    /** `call_address` on the processor leaves the stacks of the other tasks alone. */
    method CallStacks(address: word, ghost before: S.World) returns (r: Outcome<()>)
      requires StacksReady(before)
      modifies processor`ip, processor.stack`sp, processor.stack`bp, processor.stack.data
      ensures match Machine.CallAddress(S.Current(before), address)
              case Done(th) => r.Done? && StacksReady(S.SetCurrent(before, th))
              case Exited(c) => r == Exited(c)
              case Undefined => r == Undefined
    {
      hide Machine.CallAddress;
      assert TaskOwned(owners, nodes[before.current].task, before.current);
      assert StacksHold(nodes[before.current].task, before.tasks[before.current]);
      r := processor.CallAddress(address);
      if !r.Done? { return; }
      ghost var after := S.SetCurrent(before, processor.Abs()).tasks;
      forall i | 0 <= i < |nodes| ensures StacksHold(nodes[i].task, after[i])
      {
        assert TaskOwned(owners, nodes[i].task, i);
        assert old(StacksHold(nodes[i].task, before.tasks[i]));
      }
    }

    /** The handler, if there is one, is called on the current task. */
    method CallHandler() returns (r: Outcome<()>)
      requires Valid()
      modifies this`world, processor`ip, processor.stack`sp, processor.stack`bp, processor.stack.data
      ensures match Called(old(world))
              case Done(w) => r.Done? && Valid() && world == w
              case Exited(c) => r == Exited(c)
              case Undefined => r == Undefined
    {
      hide *;
      ReadyOk();
      HandlerIs();
      CalledIs(world);
      var handler := currentNode.task.handler;
      if handler == 0 { return Done(()); }
      ghost var before, spec := world, Machine.CallAddress(S.Current(world), handler);
      r := CallStacks(handler, before);
      if !r.Done? { return; }
      Moved(before, spec.value);
      world := S.SetCurrent(before, spec.value);
      ReadyValid();
    }

    lemma HandlerIs()
      requires Valid()
      ensures S.Ok(world) && currentNode.task.handler == world.tasks[world.current].handler
    {
      assert SavedIs(nodes[world.current].task, world.current, world.tasks[world.current], world.current);
    }

    lemma InboxIs()
      requires Valid()
      ensures S.Ok(world) && world.current < |nodes| && currentNode.task.inbox == queues[world.current]
      ensures currentNode.task.inbox.Valid() && currentNode.task.inbox.count == |world.tasks[world.current].inbox|
      ensures Inbox.Messages(currentNode.task.inbox.chain) == world.tasks[world.current].inbox
    {
      assert QueueIs(queues[world.current], world.current, world.tasks[world.current].inbox);
      assert Inbox.Owned(queues[world.current], messages);
    }

    /** The oldest message of the current inbox is unlinked. */
    method Unlink(queue: Inbox.MessageQueue, ghost before: S.World, ghost after: S.World)
      requires InboxesReady(before) && before.current < |queues| && queue == queues[before.current] && queue.count > 0
      requires queue.Valid() && before.tasks[before.current].inbox != []
      requires |after.tasks| == |before.tasks|
      requires forall i :: 0 <= i < |before.tasks| ==>
                 after.tasks[i].inbox == if i == before.current then before.tasks[i].inbox[1..] else before.tasks[i].inbox
      modifies queue`head, queue`count, queue`chain, queue`drained
      ensures InboxesReady(after) && queue.count == old(queue.count) - 1
    {
      hide Inbox.Registry, Inbox.Messages, Inbox.MessageQueue.Valid;
      ghost var at := before.current;
      assert QueueIs(queue, at, before.tasks[at].inbox);
      var message := Inbox.QueueTake(queue, queues, messageQueues, at, messages);
      Inbox.MessagesRest(message, queue.chain);
      forall i | 0 <= i < |nodes| ensures QueueIs(queues[i], i, after.tasks[i].inbox)
      {
        assert old(QueueIs(queues[i], i, before.tasks[i].inbox));
      }
    }

    /** The inboxes have no part in the tree and the stacks. */
    lemma InboxMoved(w: S.World, after: S.World)
      requires TreeReady(w) && StacksReady(w) && T.Fits(cfg, after)
      requires |after.tasks| == |w.tasks| && after == w.(tasks := after.tasks)
      requires forall i :: 0 <= i < |w.tasks| ==> after.tasks[i] == w.tasks[i].(inbox := after.tasks[i].inbox)
      ensures TreeReady(after) && StacksReady(after)
    {
      hide TreeIs, SavedAre, StacksAre;
      SameSaved(owners, nodes, w.tasks, after.tasks, w.current);
      SameStacks(owners, nodes, w.tasks, after.tasks);
    }

    lemma Taken(w: S.World, inbox: seq<Wire.Msg>)
      requires TreeReady(w) && StacksReady(w)
      ensures S.Ok(w) && var after := WithInbox(w, inbox);
              && TreeReady(after) && StacksReady(after)
              && |after.tasks| == |w.tasks|
              && forall i :: 0 <= i < |w.tasks| ==> after.tasks[i].inbox == if i == w.current then inbox else w.tasks[i].inbox
    {
      hide T.Fits;
      WithInboxIs(cfg, w, inbox);
      InboxMoved(w, WithInbox(w, inbox));
    }

    /** One turn of the drain after the call of the handler. */
    method TakeMessage()
      requires Valid() && currentNode.task.inbox.count > 0
      modifies this`world, currentNode.task.inbox`head, currentNode.task.inbox`count
      modifies currentNode.task.inbox`chain, currentNode.task.inbox`drained
      ensures old(S.Ok(world) && world.tasks[world.current].inbox != [])
      ensures currentNode.task.inbox.count == old(currentNode.task.inbox.count) - 1
      ensures Valid() && world == WithInbox(old(world), old(world.tasks[world.current].inbox[1..]))
    {
      hide *;
      ReadyOk();
      InboxIs();
      ghost var before, inbox := world, world.tasks[world.current].inbox[1..];
      Taken(before, inbox);
      Unlink(currentNode.task.inbox, before, WithInbox(before, inbox));
      Taken(before, inbox);
      world := WithInbox(before, inbox);
      ReadyValid();
    }

    /** `cpu_process_context_inbox`. */
    method ProcessContextInbox() returns (r: Outcome<()>)
      requires Valid()
      modifies this`world, processor`ip, processor.stack`sp, processor.stack`bp, processor.stack.data
      modifies currentNode.task.inbox`head, currentNode.task.inbox`count
      modifies currentNode.task.inbox`chain, currentNode.task.inbox`drained
      ensures old(S.Ok(world))
      ensures match S.Drain(old(world))
              case Done(w) => r.Done? && Valid() && world == w
              case Exited(c) => r == Exited(c)
              case Undefined => r == Undefined
    {
      hide *;
      InboxIs();
      DrainUnfold(world);
      ghost var spec := S.Drain(world);
      while currentNode.task.inbox.count > 0
        invariant Valid() && S.Ok(world) && S.Drain(world) == spec
        decreases currentNode.task.inbox.count
      {
        InboxIs();
        DrainUnfold(world);
        r := CallHandler();
        if !r.Done? { return; }
        TakeMessage();
      }
      InboxIs();
      DrainUnfold(world);
      return Done(());
    }

    // ----- sending -----

    /** `deliver_local` on the inboxes. */
    method DeliverInbox(message: Inbox.Message, ghost before: S.World, ghost after: S.World)
      requires InboxesReady(before) && message !in messages && message.next == null
      requires |after.tasks| == |before.tasks|
      requires forall i :: 0 <= i < |before.tasks| ==>
                 after.tasks[i].inbox == if i == message.msg.taskDst && |before.tasks[i].inbox| < Inbox.QUEUE_SIZE
                                         then before.tasks[i].inbox + [message.msg] else before.tasks[i].inbox
      requires Covered()
      modifies this`messages, this`objects, queues, messages
      ensures InboxesReady(after) && Covered()
      ensures messages == old(messages) + {message} && objects == old(objects) + {message}
    {
      hide Inbox.Registry;
      var r, at := Inbox.DeliverLocal(messageQueues, message, queues, messages);
      messages, objects := messages + {message}, objects + {message};
      forall i | 0 <= i < |nodes| ensures QueueIs(queues[i], i, after.tasks[i].inbox)
      {
        assert old(QueueIs(queues[i], i, before.tasks[i].inbox));
        if i == at { Inbox.MessagesRest(message, old(queues[i].chain)); }
      }
    }

    lemma DeliveredReady(w: S.World, m: Wire.Msg)
      requires TreeReady(w) && StacksReady(w)
      ensures var after := Delivered(w, m);
              && TreeReady(after) && StacksReady(after)
              && |after.tasks| == |w.tasks|
              && forall i :: 0 <= i < |w.tasks| ==>
                   after.tasks[i].inbox == if i == m.taskDst && |w.tasks[i].inbox| < Inbox.QUEUE_SIZE
                                           then w.tasks[i].inbox + [m] else w.tasks[i].inbox
    {
      hide T.Fits;
      DeliveredIs(cfg, w, m);
      InboxMoved(w, Delivered(w, m));
    }

    /** A message reaches the inbox of its task, or is dropped. */
    method Deliver(message: Inbox.Message)
      requires Valid() && message !in messages && message.next == null
      modifies this`world, this`messages, this`objects, queues, messages
      ensures Valid() && world == Delivered(old(world), message.msg) && objects == old(objects) + {message}
    {
      hide *;
      ReadyOk();
      ghost var before := world;
      DeliveredReady(before, message.msg);
      DeliverInbox(message, before, Delivered(before, message.msg));
      DeliveredReady(before, message.msg);
      world := Delivered(before, message.msg);
      ReadyValid();
    }

    // ----- creating a task -----

    /** `task_tree_add_child` on the current node. */
    method LinkNode(node: TaskTreeNode, ghost cur: nat, ghost kids: seq<seq<nat>>, ghost parents: seq<nat>)
      requires |nodes| == |kids| == |parents| && TreeIs(owners, nodes, kids, parents)
      requires cur < |nodes| && currentNode == nodes[cur] && node !in nodes && node.children !in owners.arrays
      requires node.id == |nodes| && node.Valid() && node.Kids() == []
      modifies currentNode`children, currentNode`childCount, currentNode.children, node`parent
      ensures TreeIs(Enlarged(owners, node.task, node.children, |nodes|, currentNode.children, cur),
                     nodes + [node], T.WithChild(kids, cur), parents + [cur])
      ensures currentNode.children == old(currentNode.children) || fresh(currentNode.children)
    {
      ghost var n, k, p := nodes + [node], T.WithChild(kids, cur), parents + [cur];
      assert NodeIs(owners, nodes, cur, kids[cur], parents[cur]);
      ghost var before := currentNode.Kids();
      currentNode.AddChild(node);
      ghost var o := Enlarged(owners, node.task, node.children, |nodes|, currentNode.children, cur);
      assert forall j :: 0 <= j <= |before| ==> currentNode.children[j] == (before + [node])[j];
      forall i | 0 <= i < |n| ensures NodeIs(o, n, i, k[i], p[i])
      {
        if i < |nodes| { assert old(NodeIs(owners, nodes, i, kids[i], parents[i])); }
        T.WithChildAt(kids, cur, i);
      }
    }

    /** `cpu_create_task_inbox`. */
    method LinkQueue(node: TaskTreeNode, ghost end: Inbox.MessageQueue, ghost tasks: seq<S.TaskState>, ghost v: S.TaskState)
      requires |nodes| == |queues| == |tasks| > 0 && Inbox.Registry(queues, messageQueues, messages)
      requires QueuesAre(nodes, queues, tasks) && node.task.inbox !in queues
      requires NewQueue(node.task.inbox, |nodes|) && v.inbox == []
      requires end == queues[|queues| - 1]
      modifies end`next
      ensures Inbox.Registry(queues + [node.task.inbox], messageQueues, messages)
      ensures QueuesAre(nodes + [node], queues + [node.task.inbox], tasks + [v])
    {
      hide Inbox.Registry;
      ghost var n, q, t := nodes + [node], queues + [node.task.inbox], tasks + [v];
      Inbox.AddQueue(messageQueues, node.task.inbox, queues, end, messages);
      forall i | 0 <= i < |n| ensures n[i].task.inbox == q[i] && QueueIs(q[i], i, t[i].inbox)
      {
        if i < |nodes| { assert old(QueueIs(queues[i], i, tasks[i].inbox)); }
      }
    }

    /** Nodes, queues and owners that hold `w`. */
    ghost predicate Holds(o: Owners, n: seq<TaskTreeNode>, q: seq<Inbox.MessageQueue>, first: Inbox.MessageQueue,
                          all: set<Inbox.Message>, w: S.World)
      reads n, q, all
      reads o.tasks, o.stacks.Keys, o.buffers.Keys, o.arrays.Keys
    {
      && T.Fits(cfg, w) && cfg.maxTasks < 256 && |n| == |q| == |w.tasks| && Apart(o, n)
      && TreeIs(o, n, w.kids, w.parents) && SavedAre(o, n, w.tasks, w.current) && StacksAre(o, n, w.tasks)
      && Inbox.Registry(q, first, all) && QueuesAre(n, q, w.tasks)
    }

    lemma HoldsValid()
      requires Holds(owners, nodes, queues, messageQueues, messages, world)
      requires tasksNumber == |nodes| - 1 && root == nodes[0] && world.current < |nodes| && currentNode == nodes[world.current]
      requires processor.image == cfg.image && processor.ip == world.ip
      requires processor.opstack == currentNode.task.opstack && processor.stack == currentNode.task.stack
      requires Covered()
      ensures Valid()
    {
      hide TreeIs, SavedAre, StacksAre, QueuesAre, Apart, Inbox.Registry;
    }

    lemma ValidHolds()
      requires Valid()
      ensures Holds(owners, nodes, queues, messageQueues, messages, world) && |queues| == |nodes| && Covered()
      ensures PartsOf(nodes, queues, owners) <= objects && messages <= objects
      ensures T.Fits(cfg, world) && S.Ok(world) && |nodes| == |world.tasks| <= cfg.maxTasks + 1 < 257
      ensures tasksNumber == |nodes| - 1 && root == nodes[0] && world.current < |nodes| && currentNode == nodes[world.current]
      ensures currentNode.children in owners.arrays
      ensures processor.image == cfg.image && processor.ip == world.ip
      ensures processor.opstack == currentNode.task.opstack && processor.stack == currentNode.task.stack
    {
      hide SavedAre, StacksAre, QueuesAre, Apart, Inbox.Registry;
      assert NodeIs(owners, nodes, world.current, world.kids[world.current], world.parents[world.current]);
    }

    /** The node and its inbox are linked in. */
    method LinkTask(node: TaskTreeNode, ghost end: Inbox.MessageQueue, ghost before: S.World, ghost after: S.World)
      requires Holds(owners, nodes, queues, messageQueues, messages, before) && T.Fits(cfg, after)
      requires before.current < |nodes| == |after.tasks| - 1 && currentNode == nodes[before.current]
      requires queues != [] && end == queues[|queues| - 1]
      requires after.tasks[..|nodes|] == before.tasks && after.current == before.current
      requires |before.kids| == |nodes| && after.kids == T.WithChild(before.kids, before.current)
      requires after.parents == before.parents + [before.current]
      requires node !in nodes && node.children !in owners.arrays && node.task.inbox !in queues
      requires node.id == |nodes| && node.Valid() && node.Kids() == []
      requires NewTask(node.task, |nodes|, after.tasks[|nodes|]) && NewQueue(node.task.inbox, |nodes|)
      requires after.tasks[|nodes|].inbox == []
      requires var t := node.task;
               && t.opstack !in owners.stacks && t.stack !in owners.stacks && t.opstack != t.stack
               && t.opstack.data !in owners.buffers && t.stack.data !in owners.buffers && t.opstack.data != t.stack.data
      modifies currentNode`children, currentNode`childCount, currentNode.children, node`parent, end`next
      ensures currentNode.children == old(currentNode.children) || fresh(currentNode.children)
      ensures Holds(Enlarged(owners, node.task, node.children, |nodes|, currentNode.children, before.current),
                    nodes + [node], queues + [node.task.inbox], messageQueues, messages, after)
    {
      hide *;
      ghost var n, v := |nodes|, after.tasks[|nodes|];
      HoldsParts(owners, nodes, queues, before);
      LinkQueue(node, end, before.tasks, v);
      assert TreeIs(owners, nodes, before.kids, before.parents);
      LinkNode(node, before.current, before.kids, before.parents);
      ghost var o := Enlarged(owners, node.task, node.children, n, currentNode.children, before.current);
      EnlargedApart(owners, nodes, node, currentNode.children, before.current);
      assert SavedAre(owners, nodes, before.tasks, before.current) && StacksAre(owners, nodes, before.tasks);
      EnlargedTasks(owners, o, nodes, node, before.tasks, v, before.current);
      assert before.tasks + [v] == after.tasks;
      FitsSizes(after);
      PartsHold(o, nodes + [node], queues + [node.task.inbox], after);
    }

    lemma HoldsParts(o: Owners, n: seq<TaskTreeNode>, q: seq<Inbox.MessageQueue>, w: S.World)
      requires Holds(o, n, q, messageQueues, messages, w)
      ensures |n| == |q| == |w.tasks| == |w.kids| == |w.parents| && cfg.maxTasks < 256 && Apart(o, n)
      ensures TreeIs(o, n, w.kids, w.parents) && SavedAre(o, n, w.tasks, w.current) && StacksAre(o, n, w.tasks)
      ensures Inbox.Registry(q, messageQueues, messages) && QueuesAre(n, q, w.tasks)
    {
      hide TreeIs, SavedAre, StacksAre, QueuesAre, Apart, Inbox.Registry, T.Fits;
      FitsSizes(w);
    }

    lemma PartsHold(o: Owners, n: seq<TaskTreeNode>, q: seq<Inbox.MessageQueue>, w: S.World)
      requires T.Fits(cfg, w) && |n| == |q| == |w.tasks| == |w.kids| == |w.parents| && cfg.maxTasks < 256 && Apart(o, n)
      requires TreeIs(o, n, w.kids, w.parents) && SavedAre(o, n, w.tasks, w.current) && StacksAre(o, n, w.tasks)
      requires Inbox.Registry(q, messageQueues, messages) && QueuesAre(n, q, w.tasks)
      ensures Holds(o, n, q, messageQueues, messages, w)
    {
      hide TreeIs, SavedAre, StacksAre, QueuesAre, Apart, Inbox.Registry, T.Fits;
    }

    lemma FitsSizes(w: S.World)
      requires T.Fits(cfg, w)
      ensures |w.kids| == |w.parents| == |w.tasks|
    {
    }

    /** The new state of the CPU itself. */
    method Adopt(ghost o: Owners, ghost n: seq<TaskTreeNode>, ghost q: seq<Inbox.MessageQueue>, ghost after: S.World)
      requires Holds(o, n, q, messageQueues, messages, after) && tasksNumber == |n| - 2
      requires after.current < |n| && root == n[0] && currentNode == n[after.current]
      requires processor.image == cfg.image && processor.ip == after.ip
      requires processor.opstack == currentNode.task.opstack && processor.stack == currentNode.task.stack
      requires messages <= objects
      modifies this`tasksNumber, this`nodes, this`queues, this`owners, this`objects, this`world
      ensures Valid() && nodes == n && queues == q && owners == o && world == after
      ensures objects == old(objects) + PartsOf(n, q, o)
    {
      hide *;
      tasksNumber := tasksNumber + 1;
      nodes, queues, owners, objects, world := n, q, o, objects + PartsOf(n, q, o), after;
      assert Holds(owners, nodes, queues, messageQueues, messages, world);
      PartsCovered();
      HoldsValid();
    }

    lemma PartsCovered()
      requires PartsOf(nodes, queues, owners) + messages <= objects
      ensures Covered()
    {
    }

    /** The objects of the new task, linked in. */
    method MakeTask(entry: word, handler: word, ghost before: S.World, ghost after: S.World)
      returns (node: TaskTreeNode, ghost o: Owners, ghost more: set<object>)
      requires Holds(owners, nodes, queues, messageQueues, messages, before)
      requires T.Fits(cfg, before) && |nodes| == |queues| == |before.tasks| == tasksNumber + 1 <= cfg.maxTasks < 256
      requires before.current < |nodes| && currentNode == nodes[before.current]
      requires after == S.Spawned(cfg, before, entry, handler)
      modifies currentNode`children, currentNode`childCount, currentNode.children, queues
      ensures Holds(o, nodes + [node], queues + [node.task.inbox], messageQueues, messages, after)
      ensures fresh(more - {old(currentNode.children)})
      ensures PartsOf(nodes + [node], queues + [node.task.inbox], o) <= PartsOf(nodes, queues, owners) + more
    {
      hide *;
      SpawnedIs(cfg, before, entry, handler);
      ghost var n, all, first := |nodes|, messages, messageQueues;
      assert allocated(all) && allocated(first) && allocated(owners) && allocated(owners.tasks);
      assert allocated(owners.stacks.Keys) && allocated(owners.buffers.Keys) && allocated(owners.arrays.Keys);
      node := NewNode(cfg, tasksNumber + 1, entry, handler);
      assert Holds(owners, nodes, queues, messageQueues, messages, before);
      LinkTask(node, queues[n - 1], before, after);
      o := Enlarged(owners, node.task, node.children, n, currentNode.children, before.current);
      more := {node, node.task.inbox, node.task, node.task.opstack, node.task.stack,
               node.task.opstack.data, node.task.stack.data, node.children, currentNode.children};
      NewPartsAre(node, currentNode.children);
      MoreParts(nodes, queues, owners, node, currentNode.children, before.current);
    }

    /** `cpu_create_task` below the limit: a new last child of the current node, and a new last queue. */
    method CreateTask(entry: word, handler: word)
      requires Valid() && tasksNumber != cfg.maxTasks
      modifies this`tasksNumber, this`nodes, this`queues, this`owners, this`objects, this`world
      modifies currentNode`children, currentNode`childCount, currentNode.children, queues
      ensures Valid() && old(nodes) <= nodes && fresh(objects - old(objects))
      ensures S.Ok(old(world)) && world == S.Spawned(cfg, old(world), entry, handler)
    {
      hide Valid, Holds, T.Fits, S.Spawned;
      ValidHolds();
      ghost var before, n := world, |nodes|;
      SpawnedIs(cfg, before, entry, handler);
      ghost var after := S.Spawned(cfg, before, entry, handler);
      var node, o, more := MakeTask(entry, handler, before, after);
      assert fresh(PartsOf(nodes + [node], queues + [node.task.inbox], o) - objects);
      Adopt(o, nodes + [node], queues + [node.task.inbox], after);
    }

    /** `message_queue_send_message` to a task of this VM. */
    method SendMessage(dst: word, payload: seq<byte>)
      requires Valid() && |payload| < 65536
      modifies this`world, this`messages, this`objects, queues, messages
      ensures S.Ok(old(world)) && old(world).current < 65536
      ensures Valid() && world == Delivered(old(world), S.MessageFrom(old(world).current, dst, payload))
      ensures fresh(objects - old(objects))
    {
      hide *;
      ValidHolds();
      TaskIdIs();
      var id := currentNode.task.id;
      var m := Wire.MessageCreate(S.LOCAL_VM, S.LOCAL_VM, id, dst, payload);
      MessageFromIs(id, dst, payload);
      ghost var all, first := messages, messageQueues;
      assert allocated(all) && allocated(first) && allocated(owners) && allocated(owners.tasks);
      assert allocated(owners.stacks.Keys) && allocated(owners.buffers.Keys) && allocated(owners.arrays.Keys);
      var message := new Inbox.Message(m);
      assert Holds(owners, nodes, queues, messageQueues, messages, world);
      HoldsValid();
      Deliver(message);
    }

    lemma TaskIdIs()
      requires Valid()
      ensures currentNode.task.id == world.current < 65536
    {
      assert SavedIs(nodes[world.current].task, world.current, world.tasks[world.current], world.current);
    }

    // ----- one instruction with its effect on the other tasks -----

    /** What the event of the instruction asks for: a new task or a message. */
    method Handle(event: Event)
      requires Valid() && !event.Ended? && (event.Spawn? ==> tasksNumber != cfg.maxTasks)
      modifies this`tasksNumber, this`nodes, this`queues, this`messages, this`owners, this`objects, this`world
      modifies currentNode, currentNode.children, queues, messages
      ensures S.Ok(old(world)) && Valid() && world == S.Apply(cfg, old(world), event)
      ensures old(nodes) <= nodes && fresh(objects - old(objects))
    {
      hide Valid, Holds, T.Fits, S.Spawned, S.MessageFrom, S.Deliver;
      ValidHolds();
      if event.Spawn? {
        CreateTask(event.entry, event.handler);
      } else if event.Send? && |event.payload| < 65536 {
        TaskIdIs();
        SendMessage(event.dst, event.payload);
      }
    }

    static lemma StepTaskIs(cfg: S.Config, w: S.World, input: Input)
      requires S.Ok(w) && cfg.image.Valid()
      ensures var limited := input.(maySpawn := |w.tasks| - 1 != cfg.maxTasks);
              match Machine.Step(cfg.image, S.Current(w), limited)
              case Done(p) =>
                && (p.1.Ended? ==> S.StepTask(cfg, w, input) == Undefined)
                && (!p.1.Ended? ==> S.StepTask(cfg, w, input) == Done((S.Apply(cfg, S.SetCurrent(w, p.0), p.1), p.1)))
                && (p.1.Spawn? ==> limited.maySpawn)
                && |S.SetCurrent(w, p.0).tasks| == |w.tasks|
              case Exited(c) => S.StepTask(cfg, w, input) == Exited(c)
              case Undefined => S.StepTask(cfg, w, input) == Undefined
    {
      hide Machine.Step, S.Apply;
      var limited := input.(maySpawn := |w.tasks| - 1 != cfg.maxTasks);
      var s := Machine.Step(cfg.image, S.Current(w), limited);
      if s.Done? && s.value.1.Spawn? { T.StepSpawns(cfg.image, S.Current(w), limited); }
    }

    lemma MyObjects()
      requires Valid()
      ensures {processor.opstack, processor.opstack.data, processor.stack, processor.stack.data} <= objects
      ensures {currentNode, currentNode.children} <= objects
      ensures forall q :: q in queues ==> q in objects
      ensures forall m :: m in messages ==> m in objects
    {
      hide Inbox.Registry, T.Fits, SavedAre, StacksAre, QueuesAre, TreeIs;
      ReadyOk();
      ValidHolds();
    }

    /** One turn of the loop of `cpu_run_cycle`. */
    method StepTask(input: Input) returns (r: Outcome<Event>)
      requires Valid()
      modifies this`tasksNumber, this`nodes, this`queues, this`messages, this`owners, this`objects, this`world, processor`ip
      modifies objects
      ensures S.Ok(old(world)) && cfg.image.Valid()
      ensures match S.StepTask(cfg, old(world), input)
              case Done(p) => r == Done(p.1) && Valid() && world == p.0
              case Exited(c) => r == Exited(c)
              case Undefined => r == Undefined
      ensures old(nodes) <= nodes && fresh(objects - old(objects))
    {
      hide *;
      ValidHolds();
      ReadyOk();
      MyObjects();
      StepTaskIs(cfg, world, input);
      r := StepCurrent(input.(maySpawn := tasksNumber != cfg.maxTasks));
      if !r.Done? { return; }
      if r.value.Ended? { return Undefined; }
      MyObjects();
      ValidHolds();
      Handle(r.value);
    }

    // ----- one cycle -----

    /** `cpu_check_incoming_messages`: what the server received is delivered like a local message. */
    method CheckIncomingMessages(arrival: Isa.Option<Wire.Msg>)
      requires Valid()
      modifies this`world, this`messages, this`objects, queues, messages
      ensures S.Ok(old(world)) && Valid() && world == S.Arrived(old(world), arrival)
      ensures fresh(objects - old(objects))
    {
      hide *;
      ValidHolds();
      ArrivedIs(world, arrival);
      if arrival.Some? {
        ghost var all, first := messages, messageQueues;
        assert allocated(all) && allocated(first) && allocated(owners) && allocated(owners.tasks);
        assert allocated(owners.stacks.Keys) && allocated(owners.buffers.Keys) && allocated(owners.arrays.Keys);
        var message := new Inbox.Message(arrival.value);
        assert Holds(owners, nodes, queues, messageQueues, messages, world);
        HoldsValid();
        Deliver(message);
      }
    }

    static lemma ArrivedIs(w: S.World, arrival: Isa.Option<Wire.Msg>)
      requires S.Ok(w)
      ensures S.Arrived(w, arrival) == if arrival.Some? then Delivered(w, arrival.value) else w
    {
      hide S.Deliver;
    }

    /** The next instruction of a run. */
    method Turn(ghost inputs: seq<Input>, input: Input, ghost i: nat, ghost whole: Outcome<(S.World, seq<Event>)>,
                ghost events: seq<Event>)
      returns (r: Outcome<Event>)
      requires Valid() && S.Ok(world) && cfg.image.Valid() && i < |inputs| && input == inputs[i]
      requires RunSoFar(whole, events, S.RunTask(cfg, world, inputs[i..]))
      modifies this`tasksNumber, this`nodes, this`queues, this`messages, this`owners, this`objects, this`world, processor`ip
      modifies objects
      ensures r.Done? ==>
                Valid() && S.Ok(world) && RunSoFar(whole, events + [r.value], S.RunTask(cfg, world, inputs[i + 1..]))
      ensures r.Exited? ==> whole == Exited(r.code)
      ensures r.Undefined? ==> whole == Undefined
      ensures old(nodes) <= nodes && fresh(objects - old(objects))
    {
      hide *;
      RunNext(cfg, world, inputs, i, whole, events);
      r := StepTask(input);
    }

    static lemma CyclesFit()
      ensures S.CONTEXT_MAX_CYCLES == 255
    {
    }

    /** The instruction loop of `cpu_run_cycle`. */
    method RunInstructions(inputs: seq<Input>, ghost whole: Outcome<(S.World, seq<Event>)>)
      returns (r: Outcome<()>, ghost events: seq<Event>)
      requires Valid() && S.Ok(world) && cfg.image.Valid() && |inputs| == S.CONTEXT_MAX_CYCLES
      requires whole == S.RunTask(cfg, world, inputs)
      modifies this`tasksNumber, this`nodes, this`queues, this`messages, this`owners, this`objects, this`world, processor`ip
      modifies objects
      ensures r.Done? ==> whole == Done((world, events)) && Valid()
      ensures r.Exited? ==> whole == Exited(r.code)
      ensures r.Undefined? ==> whole == Undefined
      ensures old(nodes) <= nodes && fresh(objects - old(objects))
    {
      hide *;
      CyclesFit();
      var cycles: byte := S.CONTEXT_MAX_CYCLES;
      events := [];
      RunStart(whole);
      assert inputs[0..] == inputs;
      ghost var i := 0;
      while cycles > 0
        invariant i == |inputs| - cycles && Valid() && S.Ok(world)
        invariant RunSoFar(whole, events, S.RunTask(cfg, world, inputs[i..]))
        invariant old(nodes) <= nodes && fresh(objects - old(objects))
      {
        var step := Turn(inputs, inputs[|inputs| - cycles], i, whole, events);
        if step.Exited? { return Exited(step.code), events; }
        if step.Undefined? { return Undefined, events; }
        events := events + [step.value];
        cycles, i := cycles - 1, i + 1;
      }
      RunDone(cfg, world, inputs, whole, events);
      r := Done(());
    }

    static lemma CycleIs(cfg: S.Config, w: S.World, id: nat, input: S.CycleInput)
      requires S.Ok(w) && cfg.image.Valid() && id < |w.tasks|
      ensures S.Ok(S.Arrived(w, input.arrival)) && |S.Arrived(w, input.arrival).tasks| == |w.tasks|
      ensures var drained, cycle := S.Drain(S.Switch(S.Arrived(w, input.arrival), id)), S.Cycle(cfg, w, id, input);
              && (drained.Done? ==> S.Ok(drained.value) && cycle == S.RunTask(cfg, drained.value, input.ins))
              && (drained.Exited? ==> cycle == Exited(drained.code))
              && (drained.Undefined? ==> cycle == Undefined)
    {
      hide S.Deliver, S.Drain, S.Switch, S.RunTask;
    }

    /** Everything of the current task and of `node` is among the objects. */
    lemma CycleObjects(node: TaskTreeNode)
      requires Valid() && node in nodes
      ensures {currentNode.task, node.task, currentNode.task.inbox, processor.stack, processor.stack.data} <= objects
      ensures (forall q :: q in queues ==> q in objects) && (forall m :: m in messages ==> m in objects)
    {
      hide Inbox.Registry, T.Fits, SavedAre, StacksAre, TreeIs;
      ReadyOk();
      ValidHolds();
      IdOf(node);
      assert TaskOwned(owners, node.task, node.id) && TaskOwned(owners, currentNode.task, world.current);
    }

    /** The start of `cpu_run_cycle`: reception, context switch, drain. */
    method BeginCycle(node: TaskTreeNode, arrival: Isa.Option<Wire.Msg>) returns (r: Outcome<()>)
      requires Valid() && node in nodes
      modifies this`messages, this`objects, this`world, this`currentNode
      modifies processor`ip, processor`opstack, processor`stack, objects
      ensures S.Ok(old(world)) && node.id < |S.Arrived(old(world), arrival).tasks|
      ensures r.Done? ==> Valid() && S.Drain(S.Switch(S.Arrived(old(world), arrival), node.id)) == Done(world)
      ensures r.Exited? ==> S.Drain(S.Switch(S.Arrived(old(world), arrival), node.id)) == Exited(r.code)
      ensures r.Undefined? ==> S.Drain(S.Switch(S.Arrived(old(world), arrival), node.id)) == Undefined
      ensures nodes == old(nodes) && fresh(objects - old(objects))
    {
      hide *;
      CycleObjects(node);
      CheckIncomingMessages(arrival);
      CycleObjects(node);
      ContextSwitch(node);
      CycleObjects(node);
      r := ProcessContextInbox();
    }

    /** `cpu_run_cycle`. */
    method RunCycle(node: TaskTreeNode, input: S.CycleInput) returns (r: Outcome<()>, ghost events: seq<Event>)
      requires Valid() && node in nodes && |input.ins| == S.CONTEXT_MAX_CYCLES
      modifies this`tasksNumber, this`nodes, this`queues, this`messages, this`owners, this`objects, this`world
      modifies this`currentNode, processor`ip, processor`opstack, processor`stack, objects
      ensures S.Ok(old(world)) && cfg.image.Valid() && node.id < |old(world).tasks|
      ensures r.Done? ==> Valid() && S.Cycle(cfg, old(world), node.id, input) == Done((world, events))
      ensures r.Exited? ==> S.Cycle(cfg, old(world), node.id, input) == Exited(r.code)
      ensures r.Undefined? ==> S.Cycle(cfg, old(world), node.id, input) == Undefined
      ensures old(nodes) <= nodes && fresh(objects - old(objects))
    {
      hide *;
      events := [];
      ReadyOk();
      IdOf(node);
      CycleIs(cfg, world, node.id, input);
      r := BeginCycle(node, input.arrival);
      if !r.Done? { return; }
      ReadyOk();
      r, events := RunInstructions(input.ins, S.RunTask(cfg, world, input.ins));
    }

    // ----- the pass -----

    lemma NodeHolds(node: TaskTreeNode, i: nat)
      requires Valid() && node in nodes
      ensures T.Fits(cfg, world) && node.id < |world.tasks| == |world.kids|
      ensures node.childCount == |world.kids[node.id]| && node.childCount <= node.children.Length
      ensures i < node.childCount ==>
                var child := node.children[i];
                child != null && child in nodes && child.id == world.kids[node.id][i]
    {
      hide T.Fits, Inbox.Registry, SavedAre, StacksAre, QueuesAre;
      IdOf(node);
      FitsSizes(world);
      assert NodeIs(owners, nodes, node.id, world.kids[node.id], world.parents[node.id]);
      if i < node.childCount {
        var c := world.kids[node.id][i];
        assert NodeIs(owners, nodes, c, world.kids[c], world.parents[c]);
      }
    }

    /** `task_tree_traverse_dfs` with `cpu_run_cycle`: `feed(k)` is what the `k`-th cycle of the pass gets from
        outside. The children are read again in each turn, as the tree may have grown. */
    method TraverseDfs(node: TaskTreeNode, feed: T.Feed, k: nat) returns (r: Outcome<()>, trace: seq<nat>)
      requires Valid() && node in nodes && T.Fits(cfg, world) && node.id < |world.tasks|
      requires forall j :: |feed(j).ins| == S.CONTEXT_MAX_CYCLES
      modifies this`tasksNumber, this`nodes, this`queues, this`messages, this`owners, this`objects, this`world
      modifies this`currentNode, processor`ip, processor`opstack, processor`stack, objects
      ensures r.Done? ==> Valid() && T.Visit(cfg, old(world), node.id, feed, k) == Done((world, trace))
      ensures r.Exited? ==> T.Visit(cfg, old(world), node.id, feed, k) == Exited(r.code)
      ensures r.Undefined? ==> T.Visit(cfg, old(world), node.id, feed, k) == Undefined
      ensures old(nodes) <= nodes && fresh(objects - old(objects))
      decreases cfg.maxTasks + 1 - node.id
    {
      hide *;
      ghost var whole, events := T.Visit(cfg, world, node.id, feed, k), [];
      VisitStart(cfg, world, node.id, feed, k);
      r, events := RunCycle(node, feed(k));
      trace := [node.id];
      if !r.Done? { return; }
      var i := 0;
      NodeHolds(node, i);
      while i < node.childCount
        invariant Valid() && node in nodes && T.Fits(cfg, world) && node.id < |world.tasks| == |world.kids|
        invariant node.childCount == |world.kids[node.id]| && r.Done?
        invariant VisitSoFar(whole, trace, T.VisitKids(cfg, world, node.id, i, feed, k + |trace|))
        invariant old(nodes) <= nodes && fresh(objects - old(objects))
        decreases |world.kids[node.id]| - i
      {
        NodeHolds(node, i);
        VisitNext(cfg, world, node.id, i, feed, k + |trace|, whole, trace);
        var more: seq<nat>;
        r, more := TraverseDfs(node.children[i], feed, k + |trace|);
        if !r.Done? { return; }
        trace, i := trace + more, i + 1;
        NodeHolds(node, i);
      }
      VisitNext(cfg, world, node.id, i, feed, k + |trace|, whole, trace);
    }

    /** One round of the endless loop of `cpu_run`: every task that exists at its end had exactly one cycle. */
    method Pass(feed: T.Feed) returns (r: Outcome<()>, trace: seq<nat>)
      requires Valid() && T.Fits(cfg, world)
      requires forall j :: |feed(j).ins| == S.CONTEXT_MAX_CYCLES
      modifies this`tasksNumber, this`nodes, this`queues, this`messages, this`owners, this`objects, this`world
      modifies this`currentNode, processor`ip, processor`opstack, processor`stack, objects
      ensures r.Done? ==> Valid() && T.Pass(cfg, old(world), feed) == Done((world, trace))
      ensures r.Exited? ==> T.Pass(cfg, old(world), feed) == Exited(r.code)
      ensures r.Undefined? ==> T.Pass(cfg, old(world), feed) == Undefined
      ensures r.Done? ==> Fairness.NoRepeats(trace) && forall x: nat :: x in trace <==> x < |world.tasks|
    {
      hide *;
      RootIs();
      PassIs(cfg, world, feed);
      if T.Pass(cfg, world, feed).Done? { Fairness.PassVisitsEachOnce(cfg, world, feed); }
      r, trace := TraverseDfs(root, feed, 0);
    }

    lemma RootIs()
      requires Valid()
      ensures root in nodes && root.id == 0
    {
      assert NodeIs(owners, nodes, 0, world.kids[0], world.parents[0]);
    }

    static lemma PassIs(cfg: S.Config, w: S.World, feed: T.Feed)
      requires T.Fits(cfg, w)
      ensures |w.tasks| > 0 && T.Pass(cfg, w, feed) == T.Visit(cfg, w, 0, feed, 0)
    {
      hide T.Visit;
    }
  }
}
