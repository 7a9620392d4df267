/** The cooperative scheduler: context switch, inbox drain and a bounded run of instructions
    (src/cpu.c), on the values of all tasks; and the theorem that a task cannot tell it is interleaved. */
module Scheduler {
  import opened Bytes
  import opened ByteStack
  import opened Isa
  import opened Machine
  import opened Wire
  import Inbox
  import Handlers

  /** Build-time configuration: the image, stack sizes and `MAX_TASKS`. */
  datatype Config = Config(image: Image, opsSize: word, stkSize: word, maxTasks: nat)

  const CONTEXT_MAX_CYCLES: nat := 255
  const LOCAL_VM: word := 1

  /** A task: the `ip` saved at its last switch, its stacks, its message handler, its inbox. */
  datatype TaskState = TaskState(saved: word, ops: Stk, stk: Stk, handler: word, inbox: seq<Msg>)

  /** The state of the VM. Task `i` is the task with id `i`; `kids` and `parents` are the task tree;
      `ip` is the register, which belongs to the task `current`. */
  datatype World = World(tasks: seq<TaskState>, kids: seq<seq<nat>>, parents: seq<nat>, current: nat, ip: word)

  predicate Ok(w: World) {
    |w.kids| == |w.parents| == |w.tasks| && w.current < |w.tasks|
  }

  /** `cpu_load_program`: the main task alone, at address 0. */
  function Boot(cfg: Config): World {
    World([TaskState(0, Fresh(cfg.opsSize), Fresh(cfg.stkSize), 0, [])], [[]], [0], 0, 0)
  }

  // ----- one task at a time -----

  function Current(w: World): Thread
    requires Ok(w)
  {
    Thread(w.ip, w.tasks[w.current].ops, w.tasks[w.current].stk)
  }

  function SetCurrent(w: World, th: Thread): (r: World)
    requires Ok(w)
    ensures Ok(r)
  {
    w.(ip := th.ip, tasks := w.tasks[w.current := w.tasks[w.current].(ops := th.ops, stk := th.stk)])
  }

  /** `deliver_local` on the inboxes: a full inbox or an unknown task drops the message. */
  function Deliver(tasks: seq<TaskState>, m: Msg): (r: seq<TaskState>)
    ensures |r| == |tasks|
  {
    if m.taskDst < |tasks| && |tasks[m.taskDst].inbox| < Inbox.QUEUE_SIZE then
      tasks[m.taskDst := tasks[m.taskDst].(inbox := tasks[m.taskDst].inbox + [m])]
    else tasks
  }

  /** `cpu_create_task`, the limit already checked: the new task is the last child of the current one. */
  function Spawned(cfg: Config, w: World, entry: word, handler: word): (r: World)
    requires Ok(w)
    ensures Ok(r)
  {
    var id := |w.tasks|;
    w.(tasks := w.tasks + [TaskState(entry, Fresh(cfg.opsSize), Fresh(cfg.stkSize), handler, [])],
       kids := w.kids[w.current := w.kids[w.current] + [id]] + [[]],
       parents := w.parents + [w.current])
  }

  function MessageFrom(src: nat, dst: word, payload: seq<byte>): Msg
    requires src < 65536 && |payload| < 65536
  {
    Msg(LOCAL_VM, LOCAL_VM, src, dst, 0, |payload|, Crc(payload), 0, 0, Some(payload))
  }

  /** The effect of an event on the other tasks. */
  function Apply(cfg: Config, w: World, e: Event): (r: World)
    requires Ok(w)
    ensures Ok(r)
  {
    match e
    case Spawn(entry, handler) => Spawned(cfg, w, entry, handler)
    case Send(dst, payload) =>
      if w.current < 65536 && |payload| < 65536 then
        w.(tasks := Deliver(w.tasks, MessageFrom(w.current, dst, payload)))
      else w
    case _ => w
  }

  /** What the instruction is told about the task limit. */
  function WithLimit(cfg: Config, w: World, input: Input): Input {
    input.(maySpawn := |w.tasks| - 1 != cfg.maxTasks)
  }

  /** One instruction of the current task. ASYNC_RETURN frees the node that is being visited and is
      not modelled. */
  function StepTask(cfg: Config, w: World, input: Input): (r: Outcome<(World, Event)>)
    requires cfg.image.Valid() && Ok(w)
    ensures r.Done? ==> Ok(r.value.0)
  {
    var (th, e) :- Step(cfg.image, Current(w), WithLimit(cfg, w, input));
    if e.Ended? then Undefined else Done((Apply(cfg, SetCurrent(w, th), e), e))
  }

  function RunTask(cfg: Config, w: World, ins: seq<Input>): (r: Outcome<(World, seq<Event>)>)
    requires cfg.image.Valid() && Ok(w)
    ensures r.Done? ==> Ok(r.value.0)
    decreases |ins|
  {
    if ins == [] then Done((w, []))
    else
      var (w1, e) :- StepTask(cfg, w, ins[0]);
      var (w2, events) :- RunTask(cfg, w1, ins[1..]);
      Done((w2, [e] + events))
  }

  /** `cpu_context_switch`: the register is saved in the task it belongs to, and loaded from the next. */
  function Switch(w: World, id: nat): (r: World)
    requires Ok(w) && id < |w.tasks|
    ensures Ok(r)
  {
    var tasks := w.tasks[w.current := w.tasks[w.current].(saved := w.ip)];
    w.(tasks := tasks, current := id, ip := tasks[id].saved)
  }

  /** `cpu_process_context_inbox`: one handler frame for each message; the inbox is empty afterwards. */
  function Drain(w: World): (r: Outcome<World>)
    requires Ok(w)
    ensures r.Done? ==> Ok(r.value)
  {
    var task := w.tasks[w.current];
    var th :- Handlers.Drained(Current(w), task.handler, |task.inbox|);
    var w1 := SetCurrent(w, th);
    Done(w1.(tasks := w1.tasks[w1.current := w1.tasks[w1.current].(inbox := [])]))
  }

  /** What comes from outside during one cycle: a message from the server and the instruction inputs. */
  datatype CycleInput = CycleInput(arrival: Option<Msg>, ins: seq<Input>)

  function Arrived(w: World, arrival: Option<Msg>): (r: World)
    requires Ok(w)
    ensures Ok(r)
  {
    if arrival.Some? then w.(tasks := Deliver(w.tasks, arrival.value)) else w
  }

  /** `cpu_run_cycle` for task `id`. */
  function Cycle(cfg: Config, w: World, id: nat, input: CycleInput): (r: Outcome<(World, seq<Event>)>)
    requires cfg.image.Valid() && Ok(w) && id < |w.tasks|
    ensures r.Done? ==> Ok(r.value.0)
  {
    var w1 :- Drain(Switch(Arrived(w, input.arrival), id));
    RunTask(cfg, w1, input.ins)
  }

  // ----- the same task alone -----

  /** The thread of task `i`: its `ip` is the register while it is current. */
  function View(w: World, i: nat): Thread
    requires Ok(w) && i < |w.tasks|
  {
    Thread(if i == w.current then w.ip else w.tasks[i].saved, w.tasks[i].ops, w.tasks[i].stk)
  }

  function SoloRun(image: Image, th: Thread, ins: seq<Input>): Outcome<(Thread, seq<Event>)>
    requires image.Valid()
    decreases |ins|
  {
    if ins == [] then Done((th, []))
    else
      var (t, e) :- Step(image, th, ins[0]);
      if e.Ended? then Undefined
      else
        var (u, events) :- SoloRun(image, t, ins[1..]);
        Done((u, [e] + events))
  }

  /** What one cycle gives to a task: the number of messages in its inbox and the inputs of its instructions. */
  datatype SoloInput = SoloInput(messages: nat, ins: seq<Input>)

  function SoloCycle(image: Image, th: Thread, handler: word, input: SoloInput): Outcome<(Thread, seq<Event>)>
    requires image.Valid()
  {
    var t :- Handlers.Drained(th, handler, input.messages);
    SoloRun(image, t, input.ins)
  }

  function SoloCycles(image: Image, th: Thread, handler: word, inputs: seq<SoloInput>): Outcome<(Thread, seq<Event>)>
    requires image.Valid()
    decreases |inputs|
  {
    if inputs == [] then Done((th, []))
    else
      var (t, events) :- SoloCycle(image, th, handler, inputs[0]);
      var (u, more) :- SoloCycles(image, t, handler, inputs[1..]);
      Done((u, events + more))
  }

  /** The inputs of a run, the task limit included. */
  function Resolved(cfg: Config, w: World, ins: seq<Input>): seq<Input>
    requires cfg.image.Valid() && Ok(w)
    decreases |ins|
  {
    if ins == [] then []
    else
      [WithLimit(cfg, w, ins[0])]
      + (if StepTask(cfg, w, ins[0]).Done? then Resolved(cfg, StepTask(cfg, w, ins[0]).value.0, ins[1..]) else [])
  }

  // ----- one cycle leaves the others alone -----

  /** Task `i` is as before: thread, handler, place in the tree's parent list. */
  predicate Untouched(w: World, w': World, i: nat) {
    Ok(w) && Ok(w') && i < |w.tasks| <= |w'.tasks|
    && View(w', i) == View(w, i) && w'.tasks[i].handler == w.tasks[i].handler
  }

  lemma ApplyView(cfg: Config, w: World, e: Event, i: nat)
    requires Ok(w) && i < |w.tasks|
    ensures Untouched(w, Apply(cfg, w, e), i) && Apply(cfg, w, e).current == w.current
    ensures Apply(cfg, w, e).ip == w.ip
  {
    hide Crc;
  }

  lemma StepOther(cfg: Config, w: World, input: Input, i: nat)
    requires cfg.image.Valid() && Ok(w) && i < |w.tasks| && i != w.current
    requires StepTask(cfg, w, input).Done?
    ensures var w' := StepTask(cfg, w, input).value.0; Untouched(w, w', i) && w'.current == w.current
  {
    hide Step, Apply;
    var (th, e) := Step(cfg.image, Current(w), WithLimit(cfg, w, input)).value;
    ApplyView(cfg, SetCurrent(w, th), e, i);
  }

  lemma StepSelf(cfg: Config, w: World, input: Input)
    requires cfg.image.Valid() && Ok(w) && StepTask(cfg, w, input).Done?
    ensures var (w', e) := StepTask(cfg, w, input).value;
            var s := Step(cfg.image, Current(w), WithLimit(cfg, w, input));
            && s == Done((Current(w'), e)) && !e.Ended?
            && w'.current == w.current && |w'.tasks| >= |w.tasks|
            && w'.tasks[w.current].handler == w.tasks[w.current].handler
  {
    hide Step, Apply;
    var (th, e) := Step(cfg.image, Current(w), WithLimit(cfg, w, input)).value;
    ApplyView(cfg, SetCurrent(w, th), e, w.current);
  }

  lemma {:induction false} RunOther(cfg: Config, w: World, ins: seq<Input>, i: nat)
    requires cfg.image.Valid() && Ok(w) && i < |w.tasks| && i != w.current
    requires RunTask(cfg, w, ins).Done?
    ensures var w' := RunTask(cfg, w, ins).value.0; Untouched(w, w', i) && w'.current == w.current
    decreases |ins|
  {
    hide StepTask;
    if ins != [] {
      StepOther(cfg, w, ins[0], i);
      RunOther(cfg, StepTask(cfg, w, ins[0]).value.0, ins[1..], i);
    }
  }

  lemma {:induction false} RunSelf(cfg: Config, w: World, ins: seq<Input>)
    requires cfg.image.Valid() && Ok(w) && RunTask(cfg, w, ins).Done?
    ensures var (w', events) := RunTask(cfg, w, ins).value;
            && SoloRun(cfg.image, Current(w), Resolved(cfg, w, ins)) == Done((Current(w'), events))
            && w'.current == w.current && |w'.tasks| >= |w.tasks|
            && w'.tasks[w.current].handler == w.tasks[w.current].handler
    decreases |ins|
  {
    hide StepTask, Step;
    if ins != [] {
      StepSelf(cfg, w, ins[0]);
      var w1 := StepTask(cfg, w, ins[0]).value.0;
      RunSelf(cfg, w1, ins[1..]);
      var all := Resolved(cfg, w, ins);
      assert all[0] == WithLimit(cfg, w, ins[0]) && all[1..] == Resolved(cfg, w1, ins[1..]);
    }
  }

  lemma ArrivedView(w: World, arrival: Option<Msg>, i: nat)
    requires Ok(w) && i < |w.tasks|
    ensures Untouched(w, Arrived(w, arrival), i)
    ensures Arrived(w, arrival).current == w.current && |Arrived(w, arrival).tasks| == |w.tasks|
  {
  }

  /** The context switch saves and restores: it changes no task's view. */
  lemma SwitchView(w: World, id: nat, i: nat)
    requires Ok(w) && id < |w.tasks| && i < |w.tasks|
    ensures Untouched(w, Switch(w, id), i)
    ensures Switch(w, id).tasks[i].inbox == w.tasks[i].inbox
  {
  }

  /** No other task's cycle changes the saved `ip`, the stacks or the handler of a task. */
  lemma CycleOther(cfg: Config, w: World, id: nat, input: CycleInput, i: nat)
    requires cfg.image.Valid() && Ok(w) && id < |w.tasks| && i < |w.tasks| && i != id
    requires Cycle(cfg, w, id, input).Done?
    ensures Untouched(w, Cycle(cfg, w, id, input).value.0, i)
  {
    hide Handlers.Drained, RunTask, Deliver;
    var w0 := Arrived(w, input.arrival);
    ArrivedView(w, input.arrival, i);
    var w1 := Switch(w0, id);
    SwitchView(w0, id, i);
    var w2 := Drain(w1).value;
    assert Untouched(w1, w2, i);
    RunOther(cfg, w2, input.ins, i);
  }

  /** What task `id` gets in the cycle. */
  function Given(cfg: Config, w: World, id: nat, input: CycleInput): SoloInput
    requires cfg.image.Valid() && Ok(w) && id < |w.tasks|
  {
    var w1 := Switch(Arrived(w, input.arrival), id);
    SoloInput(|w1.tasks[id].inbox|, if Drain(w1).Done? then Resolved(cfg, Drain(w1).value, input.ins) else [])
  }

  /** A cycle of a task is a solo cycle of its view. */
  lemma CycleSelf(cfg: Config, w: World, id: nat, input: CycleInput)
    requires cfg.image.Valid() && Ok(w) && id < |w.tasks|
    requires Cycle(cfg, w, id, input).Done?
    ensures var (w', events) := Cycle(cfg, w, id, input).value;
            && |w'.tasks| >= |w.tasks| && w'.current == id
            && SoloCycle(cfg.image, View(w, id), w.tasks[id].handler, Given(cfg, w, id, input)) == Done((View(w', id), events))
            && w'.tasks[id].handler == w.tasks[id].handler
  {
    hide Handlers.Drained, RunTask, Deliver, SoloRun, Resolved;
    var w0 := Arrived(w, input.arrival);
    ArrivedView(w, input.arrival, id);
    var w1 := Switch(w0, id);
    SwitchView(w0, id, id);
    var w2 := Drain(w1).value;
    assert Handlers.Drained(View(w, id), w.tasks[id].handler, |w1.tasks[id].inbox|) == Done(Current(w2));
    RunSelf(cfg, w2, input.ins);
  }

  // ----- whole runs -----

  /** A run: which task has its cycle, and what comes from outside. */
  type Schedule = seq<(nat, CycleInput)>

  /** The state after a run, and the events of each cycle with the task they come from. */
  function RunCycles(cfg: Config, w: World, sched: Schedule): (r: Outcome<(World, seq<(nat, seq<Event>)>)>)
    requires cfg.image.Valid() && Ok(w)
    ensures r.Done? ==> Ok(r.value.0)
    decreases |sched|
  {
    if sched == [] then Done((w, []))
    else if sched[0].0 >= |w.tasks| then Undefined
    else
      var (w1, events) :- Cycle(cfg, w, sched[0].0, sched[0].1);
      var (w2, more) :- RunCycles(cfg, w1, sched[1..]);
      Done((w2, [(sched[0].0, events)] + more))
  }

  /** The part of a run that task `i` sees. */
  function Projected(cfg: Config, w: World, sched: Schedule, i: nat): seq<SoloInput>
    requires cfg.image.Valid() && Ok(w)
    decreases |sched|
  {
    if sched == [] || sched[0].0 >= |w.tasks| || !Cycle(cfg, w, sched[0].0, sched[0].1).Done? then []
    else
      (if sched[0].0 == i then [Given(cfg, w, i, sched[0].1)] else [])
      + Projected(cfg, Cycle(cfg, w, sched[0].0, sched[0].1).value.0, sched[1..], i)
  }

  function EventsOf(log: seq<(nat, seq<Event>)>, i: nat): seq<Event>
    decreases |log|
  {
    if log == [] then [] else (if log[0].0 == i then log[0].1 else []) + EventsOf(log[1..], i)
  }

  /** Interleaving is invisible to a task: in any run, whatever the other tasks do and however the cycles
      are ordered, the task goes through exactly the states and events of a solo run with its
      own inbox counts and inputs. */
  lemma {:induction false} InterleavingInvisible(cfg: Config, w: World, sched: Schedule, i: nat)
    requires cfg.image.Valid() && Ok(w) && i < |w.tasks| && RunCycles(cfg, w, sched).Done?
    ensures var (w', log) := RunCycles(cfg, w, sched).value;
            && i < |w'.tasks|
            && SoloCycles(cfg.image, View(w, i), w.tasks[i].handler, Projected(cfg, w, sched, i))
               == Done((View(w', i), EventsOf(log, i)))
    decreases |sched|
  {
    hide Cycle, SoloCycle, Given, View;
    if sched != [] {
      var (id, input) := sched[0];
      var (w1, events) := Cycle(cfg, w, id, input).value;
      CycleSelf(cfg, w, id, input);
      if id != i { CycleOther(cfg, w, id, input, i); }
      InterleavingInvisible(cfg, w1, sched[1..], i);
      var rest := RunCycles(cfg, w1, sched[1..]).value;
      var log := [(id, events)] + rest.1;
      assert log[1..] == rest.1;
      assert log[0] == (id, events);
      assert EventsOf(log, i) == (if id == i then events else []) + EventsOf(rest.1, i);
      var later := Projected(cfg, w1, sched[1..], i);
      if id == i {
        assert ([Given(cfg, w, i, input)] + later)[1..] == later;
      } else {
        assert [] + later == later && [] + EventsOf(rest.1, i) == EventsOf(rest.1, i);
      }
    }
  }

  /** The task limit is part of what a task sees, and ASYNC_CALL is the only instruction that shows it: with
      the same stacks and inputs, whether there is room for a task makes a difference to ASYNC_CALL, always,
      and to no other instruction. */
  lemma LimitIsVisible(env: Env, i: Instr, ops: Stk, stk: Stk, input: Input)
    requires i.Valid() && !IsControl(i.op)
    ensures DataOp(env, i, ops, stk, input.(maySpawn := true)) == DataOp(env, i, ops, stk, input.(maySpawn := false))
            <==> !i.op.AsyncCall?
  {
    hide Machine.Print, PopWord, PushWord, Pop, Push, ReadAt, WriteAt;
  }
}
