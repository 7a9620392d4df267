/** What one step of the VM does to the tasks' inboxes and to the task tree, and that no accepted message is lost, repeated or
    reordered in any run. */
module Mail {
  import opened Bytes
  import opened ByteStack
  import opened Isa
  import opened Machine
  import opened Scheduler
  import Values
  import Meaning
  import Wire
  import Handlers
  import T = Traversal

  /** Message `m` joins the inbox, unless that is full. */
  predicate Joins(before: seq<Wire.Msg>, after: seq<Wire.Msg>, m: Wire.Msg) {
    after == if |before| < 4 then before + [m] else before
  }

  /** A message between two tasks of this VM. */
  predicate IsFrom(m: Wire.Msg, src: nat, dst: nat, payload: seq<byte>) {
    && m.taskSrc == src && m.taskDst == dst && m.vmSrc == m.vmDst == 1
    && m.payload == Some(payload) && m.payloadSize == |payload| && m.crc == Wire.Crc(payload)
  }

  // ----- one instruction -----

  lemma PayloadFits(env: Env, i: Instr, ops: Stk, stk: Stk, input: Input)
    requires i.Valid() && !IsControl(i.op) && DataOp(env, i, ops, stk, input).Done?
    requires DataOp(env, i, ops, stk, input).value.event.Send?
    ensures |DataOp(env, i, ops, stk, input).value.event.payload| <= |env.data|
  {
    OnlySysCallSends(env, i, ops, stk, input);
    Meaning.SysCallIs(env, i, ops, stk, input);
    hide DataOp, PopWord, PushWord, Machine.Print;
  }

  lemma OnlySysCallSends(env: Env, i: Instr, ops: Stk, stk: Stk, input: Input)
    requires i.Valid() && !IsControl(i.op) && DataOp(env, i, ops, stk, input).Done?
    requires DataOp(env, i, ops, stk, input).value.event.Send?
    ensures i.op.SysCall?
  {
    hide PopPair, PopWord, Pop, PushWord, Push, Machine.Print, ReadAt, WriteAt, U16Result, I16Result, BitResult, CmpHolds;
  }

  lemma StepPayload(img: Image, th: Thread, input: Input)
    requires img.Valid() && Step(img, th, input).Done? && Step(img, th, input).value.1.Send?
    ensures |Step(img, th, input).value.1.payload| < 65536
  {
    hide DataOp, PopFrame, PushFrame, Pop, Decode;
    var op := Decode(img.program[th.ip]).value;
    var next := th.ip + Size(op);
    var i := Instr(op, if Size(op) == 1 then [] else img.program[th.ip + 1..next]);
    PayloadFits(img.Context(), i, th.ops, th.stk, input);
  }

  /** What one instruction of the current task puts into inbox `i`. */
  function StepAccepts(cfg: Config, w: World, input: Input, i: nat): seq<Wire.Msg>
    requires cfg.image.Valid() && Ok(w) && i < |w.tasks|
  {
    var s := Step(cfg.image, Current(w), WithLimit(cfg, w, input));
    if s.Done? && s.value.1.Send? && s.value.1.dst == i && w.current < 65536 && |s.value.1.payload| < 65536 && |w.tasks[i].inbox| < 4
    then [MessageFrom(w.current, i, s.value.1.payload)] else []
  }

  lemma StepInbox(cfg: Config, w: World, input: Input, i: nat)
    requires cfg.image.Valid() && Ok(w) && i < |w.tasks| && StepTask(cfg, w, input).Done?
    ensures var w' := StepTask(cfg, w, input).value.0;
            i < |w'.tasks| && w'.tasks[i].inbox == w.tasks[i].inbox + StepAccepts(cfg, w, input, i)
  {
    hide Step, MessageFrom, Apply;
    var (th, e) := Step(cfg.image, Current(w), WithLimit(cfg, w, input)).value;
    EventInbox(cfg, SetCurrent(w, th), e, i);
  }

  lemma EventInbox(cfg: Config, w: World, e: Event, i: nat)
    requires Ok(w) && i < |w.tasks|
    ensures var w' := Apply(cfg, w, e);
            && i < |w'.tasks|
            && w'.tasks[i].inbox
               == w.tasks[i].inbox
                  + (if e.Send? && e.dst == i && w.current < 65536 && |e.payload| < 65536 && |w.tasks[i].inbox| < 4
                     then [MessageFrom(w.current, i, e.payload)] else [])
  {
    hide Wire.Crc, Fresh;
  }

  lemma TasksAfter(cfg: Config, w: World, input: Input)
    requires cfg.image.Valid() && Ok(w) && StepTask(cfg, w, input).Done?
    ensures Step(cfg.image, Current(w), WithLimit(cfg, w, input)).Done?
    ensures var e, w' := Step(cfg.image, Current(w), WithLimit(cfg, w, input)).value.1, StepTask(cfg, w, input).value.0;
            && |w'.tasks| == |w.tasks| + (if e.Spawn? then 1 else 0)
            && (e.Spawn? ==> w'.tasks[|w.tasks|].inbox == [])
  {
    hide Step, MessageFrom, Fresh;
  }

  /** The event of the machine's step decides what happens to the inboxes: a sent message joins the inbox of its destination,
      every other inbox is left alone; and a new task has an empty one. */
  lemma StepMail(cfg: Config, w: World, input: Input)
    requires cfg.image.Valid() && Ok(w) && |w.tasks| <= 65536 && StepTask(cfg, w, input).Done?
    ensures Step(cfg.image, Current(w), WithLimit(cfg, w, input)).Done?
    ensures var e, w' := Step(cfg.image, Current(w), WithLimit(cfg, w, input)).value.1, StepTask(cfg, w, input).value.0;
            && |w'.tasks| == |w.tasks| + (if e.Spawn? then 1 else 0)
            && (e.Spawn? ==> w'.tasks[|w.tasks|].inbox == [])
            && (forall i: nat :: i < |w.tasks| && !(e.Send? && e.dst == i) ==> w'.tasks[i].inbox == w.tasks[i].inbox)
            && (e.Send? && e.dst < |w.tasks| ==>
                  exists m :: IsFrom(m, w.current, e.dst, e.payload) && Joins(w.tasks[e.dst].inbox, w'.tasks[e.dst].inbox, m))
  {
    hide Step, StepTask, IsFrom, MessageFrom;
    TasksAfter(cfg, w, input);
    var e, w' := Step(cfg.image, Current(w), WithLimit(cfg, w, input)).value.1, StepTask(cfg, w, input).value.0;
    forall i: nat | i < |w.tasks| && !(e.Send? && e.dst == i) ensures w'.tasks[i].inbox == w.tasks[i].inbox
    {
      StepInbox(cfg, w, input, i);
    }
    if e.Send? && e.dst < |w.tasks| {
      StepInbox(cfg, w, input, e.dst);
      StepPayload(cfg.image, Current(w), WithLimit(cfg, w, input));
      SentIsFrom(w.current, e.dst, e.payload);
      var m := MessageFrom(w.current, e.dst, e.payload);
      assert Joins(w.tasks[e.dst].inbox, w'.tasks[e.dst].inbox, m);
    }
  }

  lemma SentIsFrom(src: nat, dst: word, payload: seq<byte>)
    requires src < 65536 && |payload| < 65536
    ensures IsFrom(MessageFrom(src, dst, payload), src, dst, payload)
  {
    hide Wire.Crc;
  }

  // ----- SYSCALL 3 and ASYNC_CALL from the bytes of the program to the world -----

  /** The bytes 11, 3, 0 send: the part of the data that the stack names is the payload of a message that joins the inbox of the
      task that it names, and the three numbers are gone from the stack. */
  lemma SendReaches(cfg: Config, w: World, input: Input, vs: seq<Values.Value>, dst: word, address: word, size: word)
    requires cfg.image.Valid() && Ok(w) && dst < |w.tasks| <= 65536
    requires w.ip + 3 <= |cfg.image.program| && cfg.image.program[w.ip..w.ip + 3] == [11, 3, 0]
    requires Values.Holds(w.tasks[w.current].ops, vs + [Values.Num(dst)] + [Values.Num(address)] + [Values.Num(size)])
    requires var at := cfg.image.dataAddress + address - cfg.image.platform.ports;
             cfg.image.dataAddress <= at && at + size <= |cfg.image.program|
    ensures StepTask(cfg, w, input).Done?
    ensures var w' := StepTask(cfg, w, input).value.0;
            var at := cfg.image.dataAddress + address - cfg.image.platform.ports;
            && w'.ip == w.ip + 3 && w'.current == w.current && |w'.tasks| == |w.tasks|
            && Values.Holds(w'.tasks[w.current].ops, vs) && w'.tasks[w.current].stk == w.tasks[w.current].stk
            && (forall i: nat :: i < |w.tasks| && i != dst ==> w'.tasks[i].inbox == w.tasks[i].inbox)
            && exists m :: IsFrom(m, w.current, dst, cfg.image.program[at..at + size])
                        && Joins(w.tasks[dst].inbox, w'.tasks[dst].inbox, m)
  {
    hide Step, IsFrom, MessageFrom, Values.Holds, DataOp, Joins, Apply;
    var th := Current(w);
    var i := Instr(SysCall, [3, 0]);
    var limited := WithLimit(cfg, w, input);
    BytesOfInstr(cfg.image.program, w.ip, 11, 3, 0);
    StepFetches(cfg.image, th, i, limited);
    var env := cfg.image.Context();
    Meaning.SendInstr(env, i, th.ops, vs, dst, address, size, th.stk, limited);
    var event := DataOp(env, i, th.ops, th.stk, limited).value.event;
    var at := cfg.image.dataAddress + address - cfg.image.platform.ports;
    assert event.payload == cfg.image.program[at..at + size];
    StepSelf(cfg, w, input);
    StepMail(cfg, w, input);
  }

  lemma BytesOfInstr(program: seq<byte>, ip: nat, code: byte, low: byte, high: byte)
    requires ip + 3 <= |program| && program[ip..ip + 3] == [code, low, high]
    ensures program[ip] == code && program[ip + 1..ip + 3] == [low, high]
  {
    assert program[ip] == program[ip..ip + 3][0];
    assert program[ip + 1..ip + 3] == program[ip..ip + 3][1..];
  }

  /** The bytes 12, low, high create a task that starts there, with the handler on the stack: the last child of the task at hand,
      with fresh stacks and an empty inbox. At the task limit nothing but `ip` changes. */
  lemma SpawnReaches(cfg: Config, w: World, input: Input, vs: seq<Values.Value>, h: word, low: byte, high: byte)
    requires T.Fits(cfg, w)
    requires w.ip + 3 <= |cfg.image.program| && cfg.image.program[w.ip..w.ip + 3] == [12, low, high]
    requires Values.Holds(w.tasks[w.current].ops, vs + [Values.Num(h)])
    ensures StepTask(cfg, w, input).Done?
    ensures var w', n, c := StepTask(cfg, w, input).value.0, |w.tasks|, w.current;
            && w'.ip == w.ip + 3 && w'.current == c
            && (n > cfg.maxTasks ==> w' == w.(ip := w.ip + 3))
            && (n <= cfg.maxTasks ==>
                  && |w'.tasks| == n + 1 && Values.Holds(w'.tasks[c].ops, vs) && w'.tasks[c].stk == w.tasks[c].stk
                  && View(w', n) == Thread(ToWord(low, high), Fresh(cfg.opsSize), Fresh(cfg.stkSize))
                  && w'.tasks[n].handler == h && w'.tasks[n].inbox == []
                  && w'.kids == w.kids[c := w.kids[c] + [n]] + [[]] && w'.parents == w.parents + [c]
                  && forall i: nat :: i < n && i != c ==> w'.tasks[i] == w.tasks[i])
  {
    hide Step, MessageFrom, Values.Holds, DataOp, T.Tree, Fresh;
    var th := Current(w);
    var i := Instr(AsyncCall, [low, high]);
    var limited := WithLimit(cfg, w, input);
    BytesOfInstr(cfg.image.program, w.ip, 12, low, high);
    StepFetches(cfg.image, th, i, limited);
    var env := cfg.image.Context();
    Meaning.AsyncCallInstr(env, i, th.ops, vs, h, th.stk, limited);
    assert i.Word() == ToWord(low, high);
  }

  // ----- whole runs -----

  function RunAccepts(cfg: Config, w: World, ins: seq<Input>, i: nat): seq<Wire.Msg>
    requires cfg.image.Valid() && Ok(w) && i < |w.tasks|
    decreases |ins|
  {
    if ins == [] || !StepTask(cfg, w, ins[0]).Done? || |StepTask(cfg, w, ins[0]).value.0.tasks| <= i then []
    else StepAccepts(cfg, w, ins[0], i) + RunAccepts(cfg, StepTask(cfg, w, ins[0]).value.0, ins[1..], i)
  }

  lemma {:induction false} RunInbox(cfg: Config, w: World, ins: seq<Input>, i: nat)
    requires cfg.image.Valid() && Ok(w) && i < |w.tasks| && RunTask(cfg, w, ins).Done?
    ensures var w' := RunTask(cfg, w, ins).value.0;
            i < |w'.tasks| && w'.tasks[i].inbox == w.tasks[i].inbox + RunAccepts(cfg, w, ins, i)
    decreases |ins|
  {
    hide StepTask, StepAccepts;
    if ins != [] {
      StepInbox(cfg, w, ins[0], i);
      RunInbox(cfg, StepTask(cfg, w, ins[0]).value.0, ins[1..], i);
    }
  }

  function ArrivalAccepts(w: World, arrival: Option<Wire.Msg>, i: nat): seq<Wire.Msg>
    requires i < |w.tasks|
  {
    if arrival.Some? && arrival.value.taskDst == i && |w.tasks[i].inbox| < 4 then [arrival.value] else []
  }

  lemma ArrivalInbox(w: World, arrival: Option<Wire.Msg>, i: nat)
    requires Ok(w) && i < |w.tasks|
    ensures |Arrived(w, arrival).tasks| == |w.tasks|
    ensures Arrived(w, arrival).tasks[i].inbox == w.tasks[i].inbox + ArrivalAccepts(w, arrival, i)
  {
  }

  /** What task `i` is given, and what it takes, in a cycle of task `id`. */
  function CycleAccepts(cfg: Config, w: World, id: nat, input: CycleInput, i: nat): seq<Wire.Msg>
    requires cfg.image.Valid() && Ok(w) && id < |w.tasks| && i < |w.tasks|
  {
    var drained := Drain(Switch(Arrived(w, input.arrival), id));
    ArrivalAccepts(w, input.arrival, i)
    + if drained.Done? && i < |drained.value.tasks| then RunAccepts(cfg, drained.value, input.ins, i) else []
  }

  function CycleTakes(w: World, id: nat, input: CycleInput, i: nat): seq<Wire.Msg>
    requires Ok(w) && i < |w.tasks|
  {
    if id == i then w.tasks[i].inbox + ArrivalAccepts(w, input.arrival, i) else []
  }

  lemma DrainInbox(w: World, id: nat, arrival: Option<Wire.Msg>, i: nat)
    requires Ok(w) && id < |w.tasks| && i < |w.tasks| && Drain(Switch(Arrived(w, arrival), id)).Done?
    ensures var r := Drain(Switch(Arrived(w, arrival), id)).value;
            && |r.tasks| == |w.tasks|
            && r.tasks[i].inbox == if id == i then [] else w.tasks[i].inbox + ArrivalAccepts(w, arrival, i)
    ensures |Switch(Arrived(w, arrival), id).tasks[i].inbox| == |w.tasks[i].inbox + ArrivalAccepts(w, arrival, i)|
  {
    hide Arrived, ArrivalAccepts, Handlers.Drained;
    ArrivalInbox(w, arrival, i);
    ArrivalInbox(w, arrival, id);
  }

  lemma CycleMail(cfg: Config, w: World, id: nat, input: CycleInput, i: nat)
    requires cfg.image.Valid() && Ok(w) && id < |w.tasks| && i < |w.tasks| && Cycle(cfg, w, id, input).Done?
    ensures var w' := Cycle(cfg, w, id, input).value.0;
            && i < |w'.tasks|
            && w.tasks[i].inbox + CycleAccepts(cfg, w, id, input, i) == CycleTakes(w, id, input, i) + w'.tasks[i].inbox
    ensures |CycleTakes(w, id, input, i)| == if id == i then Given(cfg, w, i, input).messages else 0
  {
    hide Arrived, ArrivalAccepts, Drain, Switch, RunTask, RunAccepts, Resolved;
    ArrivalInbox(w, input.arrival, id);
    DrainInbox(w, id, input.arrival, i);
    RunInbox(cfg, Drain(Switch(Arrived(w, input.arrival), id)).value, input.ins, i);
  }

  /** What task `i` is given in a run: in the order of acceptance, messages from this VM and from outside. */
  function Accepted(cfg: Config, w: World, sched: Schedule, i: nat): seq<Wire.Msg>
    requires cfg.image.Valid() && Ok(w) && i < |w.tasks|
    decreases |sched|
  {
    if sched == [] || sched[0].0 >= |w.tasks| || !Cycle(cfg, w, sched[0].0, sched[0].1).Done? then []
    else
      var w1 := Cycle(cfg, w, sched[0].0, sched[0].1).value.0;
      CycleAccepts(cfg, w, sched[0].0, sched[0].1, i) + if i < |w1.tasks| then Accepted(cfg, w1, sched[1..], i) else []
  }

  /** What it takes in a run, in the order of its drains. */
  function Taken(cfg: Config, w: World, sched: Schedule, i: nat): seq<Wire.Msg>
    requires cfg.image.Valid() && Ok(w) && i < |w.tasks|
    decreases |sched|
  {
    if sched == [] || sched[0].0 >= |w.tasks| || !Cycle(cfg, w, sched[0].0, sched[0].1).Done? then []
    else
      var w1 := Cycle(cfg, w, sched[0].0, sched[0].1).value.0;
      CycleTakes(w, sched[0].0, sched[0].1, i) + if i < |w1.tasks| then Taken(cfg, w1, sched[1..], i) else []
  }

  function AllMessages(inputs: seq<SoloInput>): nat {
    if inputs == [] then 0 else inputs[0].messages + AllMessages(inputs[1..])
  }

  /** In any run, with any schedule and any other tasks: what a task had waiting, followed by what it was given, is what it took,
      followed by what it has waiting. So each accepted message is taken once, in order, and none is lost; and as many
      handler frames are pushed for the task as messages are taken. */
  lemma {:induction false} MailConserved(cfg: Config, w: World, sched: Schedule, i: nat)
    requires cfg.image.Valid() && Ok(w) && i < |w.tasks| && RunCycles(cfg, w, sched).Done?
    ensures var w' := RunCycles(cfg, w, sched).value.0;
            && i < |w'.tasks|
            && w.tasks[i].inbox + Accepted(cfg, w, sched, i) == Taken(cfg, w, sched, i) + w'.tasks[i].inbox
    ensures |Taken(cfg, w, sched, i)| == AllMessages(Projected(cfg, w, sched, i))
    decreases |sched|
  {
    hide Cycle, CycleAccepts, CycleTakes, Given;
    if sched == [] {
      assert w.tasks[i].inbox + [] == [] + w.tasks[i].inbox;
    } else {
      var (id, input) := sched[0];
      var w1 := Cycle(cfg, w, id, input).value.0;
      var w' := RunCycles(cfg, w, sched).value.0;
      CycleMail(cfg, w, id, input, i);
      MailConserved(cfg, w1, sched[1..], i);
      Chained(w.tasks[i].inbox, CycleAccepts(cfg, w, id, input, i), CycleTakes(w, id, input, i), w1.tasks[i].inbox,
              Accepted(cfg, w1, sched[1..], i), Taken(cfg, w1, sched[1..], i), w'.tasks[i].inbox);
      MessagesMore(Given(cfg, w, i, input), Projected(cfg, w1, sched[1..], i));
      assert [] + Projected(cfg, w1, sched[1..], i) == Projected(cfg, w1, sched[1..], i);
    }
  }

  lemma Chained<X>(a: seq<X>, given: seq<X>, taken: seq<X>, b: seq<X>, given': seq<X>, taken': seq<X>, c: seq<X>)
    requires a + given == taken + b && b + given' == taken' + c
    ensures a + (given + given') == (taken + taken') + c
  {
    assert a + (given + given') == (a + given) + given' == taken + (b + given');
  }

  lemma MessagesMore(input: SoloInput, inputs: seq<SoloInput>)
    ensures AllMessages([input] + inputs) == input.messages + AllMessages(inputs)
  {
    assert ([input] + inputs)[1..] == inputs;
  }

  /** No inbox holds more than four messages. */
  predicate Bounded(w: World) {
    forall i :: 0 <= i < |w.tasks| ==> |w.tasks[i].inbox| <= 4
  }

  lemma StepBounded(cfg: Config, w: World, input: Input)
    requires cfg.image.Valid() && Ok(w) && Bounded(w) && StepTask(cfg, w, input).Done?
    ensures Bounded(StepTask(cfg, w, input).value.0)
  {
    hide Step, StepTask, MessageFrom;
    TasksAfter(cfg, w, input);
    var w' := StepTask(cfg, w, input).value.0;
    forall i | 0 <= i < |w'.tasks| ensures |w'.tasks[i].inbox| <= 4
    {
      if i < |w.tasks| { StepInbox(cfg, w, input, i); }
    }
  }

  lemma {:induction false} RunBounded(cfg: Config, w: World, ins: seq<Input>)
    requires cfg.image.Valid() && Ok(w) && Bounded(w) && RunTask(cfg, w, ins).Done?
    ensures Bounded(RunTask(cfg, w, ins).value.0)
    decreases |ins|
  {
    hide StepTask, Bounded;
    if ins != [] {
      StepBounded(cfg, w, ins[0]);
      RunBounded(cfg, StepTask(cfg, w, ins[0]).value.0, ins[1..]);
    }
  }

  lemma CycleBounded(cfg: Config, w: World, id: nat, input: CycleInput)
    requires cfg.image.Valid() && Ok(w) && Bounded(w) && id < |w.tasks| && Cycle(cfg, w, id, input).Done?
    ensures Bounded(Cycle(cfg, w, id, input).value.0)
  {
    hide Arrived, Drain, Switch, RunTask;
    ArrivalInbox(w, input.arrival, id);
    DrainInbox(w, id, input.arrival, id);
    var w1 := Drain(Switch(Arrived(w, input.arrival), id)).value;
    forall i | 0 <= i < |w1.tasks| ensures |w1.tasks[i].inbox| <= 4
    {
      DrainInbox(w, id, input.arrival, i);
    }
    RunBounded(cfg, w1, input.ins);
  }

  /** In every run from power-on no inbox ever holds more than four messages. */
  lemma {:induction false} InboxesBounded(cfg: Config, w: World, sched: Schedule)
    requires cfg.image.Valid() && Ok(w) && Bounded(w) && RunCycles(cfg, w, sched).Done?
    ensures Bounded(RunCycles(cfg, w, sched).value.0) && Bounded(Boot(cfg))
    decreases |sched|
  {
    hide Cycle;
    if sched != [] {
      CycleBounded(cfg, w, sched[0].0, sched[0].1);
      InboxesBounded(cfg, Cycle(cfg, w, sched[0].0, sched[0].1).value.0, sched[1..]);
    }
  }
}
