/** Every state that the VM reaches with a compiled program: all tasks, through context switches, drains,
    creation of tasks, cycles and passes. */
module Reachable {
  import opened Bytes
  import opened ByteStack
  import opened Isa
  import opened Machine
  import opened Assembler
  import opened Labelled
  import opened Boundaries
  import Frames
  import Handlers
  import Wire
  import S = Scheduler
  import T = Traversal
  import Fairness

  /** Tasks, too, start at labels of lines. */
  predicate EntriesOnLine(p: LProgram) {
    forall k :: 0 <= k < |p.Code()| ==> EntryOnLine(p, p.Code()[k])
  }

  predicate EntryOnLine(p: LProgram, line: Line) {
    line.Ins? && (line.op.AsyncCall? ==>
      line.arg.LabelRef? && LineOf(p.lines, line.arg.name).Some?
      && LineOf(p.lines, line.arg.name).value < |p.Code()|)
  }

  /** No handler, or one that starts at a line. */
  predicate HandlerOk(p: LProgram, h: word) { h == 0 || p.OnLine(p.Decode(h)) }

  /** A task is at a line, its call stack is a chain of frames that return to lines, and so will its handler. */
  ghost predicate TaskSound(p: LProgram, th: Thread, handler: word) {
    p.OnLine(p.Decode(th.ip)) && Sound(p, th.stk) && HandlerOk(p, handler)
  }

  ghost predicate WorldSound(p: LProgram, w: S.World) {
    S.Ok(w) && forall i :: 0 <= i < |w.tasks| ==> TaskSound(p, S.View(w, i), w.tasks[i].handler)
  }

  /** The next instruction stays in its frame, and a task that it creates gets a handler that starts at a line. */
  predicate SafeNow(p: LProgram, img: Image, th: Thread) {
    var i := Frames.Fetched(img, th.ip);
    i.Some? ==>
      && Frames.Safe(i.value, th.ops, th.stk)
      && (i.value.op.AsyncCall? && PopWord(th.ops).Done? ==> HandlerOk(p, PopWord(th.ops).value.0))
  }

  predicate SafeTask(p: LProgram, cfg: S.Config, w: S.World, ins: seq<Input>)
    requires cfg.image.Valid() && S.Ok(w)
    decreases |ins|
  {
    ins == [] ||
    (SafeNow(p, cfg.image, S.Current(w))
     && (S.StepTask(cfg, w, ins[0]).Done? ==> SafeTask(p, cfg, S.StepTask(cfg, w, ins[0]).value.0, ins[1..])))
  }

  predicate SafeCycle(p: LProgram, cfg: S.Config, w: S.World, id: nat, input: S.CycleInput)
    requires cfg.image.Valid() && S.Ok(w) && id < |w.tasks|
  {
    var drained := S.Drain(S.Switch(S.Arrived(w, input.arrival), id));
    drained.Done? ==> SafeTask(p, cfg, drained.value, input.ins)
  }

  /** Every instruction of the run is safe. */
  predicate SafeSchedule(p: LProgram, cfg: S.Config, w: S.World, sched: S.Schedule)
    requires cfg.image.Valid() && S.Ok(w)
    decreases |sched|
  {
    sched == [] || sched[0].0 >= |w.tasks| ||
    (SafeCycle(p, cfg, w, sched[0].0, sched[0].1)
     && (S.Cycle(cfg, w, sched[0].0, sched[0].1).Done? ==>
           SafeSchedule(p, cfg, S.Cycle(cfg, w, sched[0].0, sched[0].1).value.0, sched[1..])))
  }

  // ----- one instruction -----

  lemma TokenOf(p: LProgram, ip: word)
    requires p.Valid() && p.OnLine(p.Decode(ip))
    ensures p.tokens[p.Decode(ip).line] == ip
  {
  }

  /** What is fetched at a line is that line. */
  lemma FetchedLine(lines: seq<Line>, image: Image, ip: word)
    requires Compiled(lines, image)
    requires var p := ProgramOf(lines, image); p.Valid() && p.OnLine(p.Decode(ip))
    ensures var p := ProgramOf(lines, image);
            var line := p.Code()[p.Decode(ip).line];
            LineOk(lines, line) && Frames.Fetched(image, ip) == Some(Instr(line.op, p.Operand(line)))
  {
    hide Isa.Code, Isa.Decode, Size, LProgram.Operand;
    var p := ProgramOf(lines, image);
    TokenOf(p, ip);
    FetchesLine(lines, image, p.Decode(ip).line);
    DecodeCode(p.Code()[p.Decode(ip).line].op);
  }

  lemma SpawnIs(env: Env, i: Instr, ops: Stk, stk: Stk, input: Input)
    requires i.Valid() && !IsControl(i.op) && DataOp(env, i, ops, stk, input).Done?
    requires DataOp(env, i, ops, stk, input).value.event.Spawn?
    ensures var e := DataOp(env, i, ops, stk, input).value.event;
            && i.op.AsyncCall? && PopWord(ops).Done?
            && e.entry == i.Word() && e.handler == PopWord(ops).value.0
  {
    hide PopPair, PopWord, Pop, PushWord, Push, Print, ReadAt, WriteAt, U16Result, I16Result, BitResult, CmpHolds;
  }

  lemma StepSpawnIs(p: LProgram, th: LThread, input: Input)
    requires p.Valid() && p.OnLine(th.pc) && p.Step(th, input).Done? && p.Step(th, input).value.1.Spawn?
    ensures var line, e := p.Code()[th.pc.line], p.Step(th, input).value.1;
            && LineOk(p.lines, line) && line.op.AsyncCall? && PopWord(th.ops).Done?
            && Instr(line.op, p.Operand(line)).Valid()
            && e.entry == Instr(line.op, p.Operand(line)).Word() && e.handler == PopWord(th.ops).value.0
  {
    hide DataOp, PopFrame, PushFrame, Pop, PopWord;
    var line := p.Code()[th.pc.line];
    assert LineOk(p.lines, line);
    p.OperandValid(line);
    if !IsControl(line.op) {
      SpawnIs(p.env, Instr(line.op, p.Operand(line)), th.ops, th.stk, input);
    }
  }

  /** One instruction leads from a sound state to a sound state, and what it spawns is sound. */
  lemma StepSound(lines: seq<Line>, image: Image, th: Thread, input: Input)
    requires Compiled(lines, image)
    requires var p := ProgramOf(lines, image);
             && p.Valid() && Closed(p) && EntriesOnLine(p)
             && p.OnLine(p.Decode(th.ip)) && Sound(p, th.stk) && SafeNow(p, image, th)
    requires Step(image, th, input).Done?
    ensures var p, (t, e) := ProgramOf(lines, image), Step(image, th, input).value;
            && p.OnLine(p.Decode(t.ip)) && Sound(p, t.stk)
            && (e.Spawn? ==> p.OnLine(p.Decode(e.entry)) && HandlerOk(p, e.handler))
  {
    hide Sound, LProgram.Step, Machine.Step, Frames.Safe, Frames.Fetched, Closed, LProgram.Operand, PopWord;
    var p := ProgramOf(lines, image);
    var lth := LThread(p.Decode(th.ip), th.ops, th.stk);
    TokenOf(p, th.ip);
    FetchedLine(lines, image, th.ip);
    StepSimulates(lines, image, lth, input);
    StepStays(p, lth, input);
    var (t, e) := p.Step(lth, input).value;
    TokenOnLine(p, t.pc.line);
    if e.Spawn? {
      StepSpawnIs(p, lth, input);
      var line := p.Code()[lth.pc.line];
      assert EntryOnLine(p, line);
      OperandIsTarget(lines, image, line);
      TokenOnLine(p, p.Target(line.arg).line);
    }
  }

  // ----- the world -----

  lemma SpawnedTask(cfg: S.Config, w: S.World, entry: word, handler: word)
    requires S.Ok(w)
    ensures var r, n := S.Spawned(cfg, w, entry, handler), |w.tasks|;
            && |r.tasks| == n + 1 && S.View(r, n) == Thread(entry, Fresh(cfg.opsSize), Fresh(cfg.stkSize))
            && r.tasks[n].handler == handler
  {
  }

  lemma NoSpawn(cfg: S.Config, w: S.World, e: Event)
    requires S.Ok(w) && !e.Spawn?
    ensures |S.Apply(cfg, w, e).tasks| == |w.tasks|
  {
    hide S.MessageFrom;
  }

  lemma WorldTask(p: LProgram, w: S.World, i: nat)
    requires WorldSound(p, w) && i < |w.tasks|
    ensures TaskSound(p, S.View(w, i), w.tasks[i].handler)
  {
  }

  /** The tasks there are, after one instruction of the current one. */
  lemma TaskAfterStep(lines: seq<Line>, cfg: S.Config, w: S.World, input: Input, i: nat)
    requires Compiled(lines, cfg.image) && S.Ok(w) && S.StepTask(cfg, w, input).Done?
    requires var p := ProgramOf(lines, cfg.image);
             p.Valid() && Closed(p) && EntriesOnLine(p) && WorldSound(p, w) && SafeNow(p, cfg.image, S.Current(w))
    requires i < |w.tasks|
    ensures var w' := S.StepTask(cfg, w, input).value.0;
            i < |w'.tasks| && TaskSound(ProgramOf(lines, cfg.image), S.View(w', i), w'.tasks[i].handler)
  {
    hide Sound, Machine.Step, Closed, EntriesOnLine, SafeNow, HandlerOk, S.StepTask, WorldSound;
    var p := ProgramOf(lines, cfg.image);
    S.StepSelf(cfg, w, input);
    WorldTask(p, w, i);
    if i == w.current {
      StepSound(lines, cfg.image, S.Current(w), S.WithLimit(cfg, w, input));
    } else {
      S.StepOther(cfg, w, input, i);
    }
  }

  /** A task that was not there before is the one that the instruction created. */
  lemma CreatedBy(cfg: S.Config, w: S.World, input: Input, i: nat)
    requires cfg.image.Valid() && S.Ok(w) && S.StepTask(cfg, w, input).Done?
    requires |w.tasks| <= i < |S.StepTask(cfg, w, input).value.0.tasks|
    ensures Step(cfg.image, S.Current(w), S.WithLimit(cfg, w, input)).Done?
    ensures var e := Step(cfg.image, S.Current(w), S.WithLimit(cfg, w, input)).value.1;
            var w' := S.StepTask(cfg, w, input).value.0;
            && e.Spawn? && S.View(w', i) == Thread(e.entry, Fresh(cfg.opsSize), Fresh(cfg.stkSize))
            && w'.tasks[i].handler == e.handler
  {
    hide Machine.Step, S.Apply, S.Spawned;
    var (th, e) := Step(cfg.image, S.Current(w), S.WithLimit(cfg, w, input)).value;
    var w1 := S.SetCurrent(w, th);
    if e.Spawn? {
      SpawnedIsApplied(cfg, w1, e);
      SpawnedTask(cfg, w1, e.entry, e.handler);
    } else {
      NoSpawn(cfg, w1, e);
    }
  }

  lemma TaskCreated(lines: seq<Line>, cfg: S.Config, w: S.World, input: Input, i: nat)
    requires Compiled(lines, cfg.image) && S.Ok(w) && S.StepTask(cfg, w, input).Done?
    requires var p := ProgramOf(lines, cfg.image);
             p.Valid() && Closed(p) && EntriesOnLine(p) && WorldSound(p, w) && SafeNow(p, cfg.image, S.Current(w))
    requires |w.tasks| <= i < |S.StepTask(cfg, w, input).value.0.tasks|
    ensures var w' := S.StepTask(cfg, w, input).value.0;
            TaskSound(ProgramOf(lines, cfg.image), S.View(w', i), w'.tasks[i].handler)
  {
    hide Sound, Machine.Step, Closed, EntriesOnLine, SafeNow, HandlerOk, S.StepTask, WorldSound, S.View;
    var p := ProgramOf(lines, cfg.image);
    WorldTask(p, w, w.current);
    assert S.Current(w) == S.View(w, w.current) by { CurrentView(w); }
    CreatedBy(cfg, w, input, i);
    StepSound(lines, cfg.image, S.Current(w), S.WithLimit(cfg, w, input));
    FreshIsSound(p, cfg.stkSize);
  }

  lemma CurrentView(w: S.World)
    requires S.Ok(w)
    ensures S.Current(w) == S.View(w, w.current)
  {
  }

  lemma StepTaskSound(lines: seq<Line>, cfg: S.Config, w: S.World, input: Input)
    requires Compiled(lines, cfg.image) && S.Ok(w) && S.StepTask(cfg, w, input).Done?
    requires var p := ProgramOf(lines, cfg.image);
             p.Valid() && Closed(p) && EntriesOnLine(p) && WorldSound(p, w) && SafeNow(p, cfg.image, S.Current(w))
    ensures WorldSound(ProgramOf(lines, cfg.image), S.StepTask(cfg, w, input).value.0)
  {
    hide TaskSound, S.StepTask, S.View, Closed, EntriesOnLine, SafeNow;
    var w' := S.StepTask(cfg, w, input).value.0;
    forall i | 0 <= i < |w'.tasks| ensures TaskSound(ProgramOf(lines, cfg.image), S.View(w', i), w'.tasks[i].handler)
    {
      if i < |w.tasks| { TaskAfterStep(lines, cfg, w, input, i); } else { TaskCreated(lines, cfg, w, input, i); }
    }
  }

  lemma SpawnedIsApplied(cfg: S.Config, w: S.World, e: Event)
    requires S.Ok(w) && e.Spawn?
    ensures S.Apply(cfg, w, e) == S.Spawned(cfg, w, e.entry, e.handler)
  {
  }

  lemma {:induction false} RunTaskSound(lines: seq<Line>, cfg: S.Config, w: S.World, ins: seq<Input>)
    requires Compiled(lines, cfg.image) && S.Ok(w) && S.RunTask(cfg, w, ins).Done?
    requires var p := ProgramOf(lines, cfg.image);
             p.Valid() && Closed(p) && EntriesOnLine(p) && WorldSound(p, w) && SafeTask(p, cfg, w, ins)
    ensures WorldSound(ProgramOf(lines, cfg.image), S.RunTask(cfg, w, ins).value.0)
    decreases |ins|
  {
    hide WorldSound, S.StepTask, SafeNow, Closed, EntriesOnLine;
    if ins != [] {
      StepTaskSound(lines, cfg, w, ins[0]);
      RunTaskSound(lines, cfg, S.StepTask(cfg, w, ins[0]).value.0, ins[1..]);
    }
  }

  /** Reception, context switch and drain keep every task sound. */
  lemma BeginSound(p: LProgram, w: S.World, id: nat, arrival: Option<Wire.Msg>)
    requires p.Valid() && WorldSound(p, w) && id < |w.tasks|
    requires S.Drain(S.Switch(S.Arrived(w, arrival), id)).Done?
    ensures WorldSound(p, S.Drain(S.Switch(S.Arrived(w, arrival), id)).value)
  {
    hide Sound, HandlerOk, Handlers.Drained, S.Deliver;
    var w0 := S.Arrived(w, arrival);
    var w1 := S.Switch(w0, id);
    var w2 := S.Drain(w1).value;
    forall i | 0 <= i < |w2.tasks| ensures TaskSound(p, S.View(w2, i), w2.tasks[i].handler)
    {
      S.ArrivedView(w, arrival, i);
      S.SwitchView(w0, id, i);
      assert TaskSound(p, S.View(w, i), w.tasks[i].handler);
      if i == id { DrainSound(p, w1); }
    }
  }

  lemma DrainSound(p: LProgram, w: S.World)
    requires p.Valid() && S.Ok(w) && TaskSound(p, S.Current(w), w.tasks[w.current].handler) && S.Drain(w).Done?
    ensures var r := S.Drain(w).value;
            r.current == w.current && TaskSound(p, S.View(r, r.current), r.tasks[r.current].handler)
  {
    hide Sound, Handlers.Drained;
    DrainIsSound(p, S.Current(w), w.tasks[w.current].handler, |w.tasks[w.current].inbox|);
  }

  lemma CycleSound(lines: seq<Line>, cfg: S.Config, w: S.World, id: nat, input: S.CycleInput)
    requires Compiled(lines, cfg.image) && S.Ok(w) && id < |w.tasks| && S.Cycle(cfg, w, id, input).Done?
    requires var p := ProgramOf(lines, cfg.image);
             p.Valid() && Closed(p) && EntriesOnLine(p) && WorldSound(p, w) && SafeCycle(p, cfg, w, id, input)
    ensures WorldSound(ProgramOf(lines, cfg.image), S.Cycle(cfg, w, id, input).value.0)
  {
    hide WorldSound, S.RunTask, SafeTask, Closed, EntriesOnLine, S.Drain, S.Switch, S.Arrived;
    S.ArrivedView(w, input.arrival, id);
    BeginSound(ProgramOf(lines, cfg.image), w, id, input.arrival);
    RunTaskSound(lines, cfg, S.Drain(S.Switch(S.Arrived(w, input.arrival), id)).value, input.ins);
  }

  /** Any run keeps every task sound. */
  lemma {:induction false} RunCyclesSound(lines: seq<Line>, cfg: S.Config, w: S.World, sched: S.Schedule)
    requires Compiled(lines, cfg.image) && S.Ok(w) && S.RunCycles(cfg, w, sched).Done?
    requires var p := ProgramOf(lines, cfg.image);
             p.Valid() && Closed(p) && EntriesOnLine(p) && WorldSound(p, w) && SafeSchedule(p, cfg, w, sched)
    ensures WorldSound(ProgramOf(lines, cfg.image), S.RunCycles(cfg, w, sched).value.0)
    decreases |sched|
  {
    hide WorldSound, S.Cycle, SafeCycle, Closed, EntriesOnLine;
    if sched != [] {
      CycleSound(lines, cfg, w, sched[0].0, sched[0].1);
      RunCyclesSound(lines, cfg, S.Cycle(cfg, w, sched[0].0, sched[0].1).value.0, sched[1..]);
    }
  }

  lemma BootSound(lines: seq<Line>, cfg: S.Config)
    requires Compiled(lines, cfg.image)
    requires var p := ProgramOf(lines, cfg.image); p.Valid() && Closed(p)
    ensures WorldSound(ProgramOf(lines, cfg.image), S.Boot(cfg))
  {
    hide Sound;
    var p := ProgramOf(lines, cfg.image);
    FirstLine(p);
    FreshIsSound(p, cfg.stkSize);
  }

  lemma FirstLine(p: LProgram)
    requires p.Valid() && p.Code() != [] && forall k :: 0 <= k < |p.tokens| ==> p.tokens[k] == Addr(p.Code(), k)
    ensures p.OnLine(p.Decode(0))
  {
    assert p.tokens[0] == 0 by { assert p.Code()[..0] == []; }
    TokenOnLine(p, 0);
  }

  lemma SoundIsAtInstruction(lines: seq<Line>, image: Image, th: Thread, handler: word)
    requires Compiled(lines, image)
    requires var p := ProgramOf(lines, image); p.Valid() && TaskSound(p, th, handler)
    ensures AtInstruction(lines, image, th.ip)
  {
    hide Sound, AtInstruction;
    var p := ProgramOf(lines, image);
    TokenOf(p, th.ip);
    LineIsInstruction(lines, image, p.Decode(th.ip).line);
  }

  /** In every world reached from power-on, whatever the schedule, the messages and the inputs: every task, created at
      whatever moment and with whatever handlers entered on it, is at a whole instruction inside the code, and the
      return addresses on its call stack are such instructions. */
  lemma ReachedAtInstruction(lines: seq<Line>, cfg: S.Config, sched: S.Schedule, i: nat)
    requires Compiled(lines, cfg.image) && S.RunCycles(cfg, S.Boot(cfg), sched).Done?
    requires var p := ProgramOf(lines, cfg.image);
             p.Valid() && Closed(p) && EntriesOnLine(p) && SafeSchedule(p, cfg, S.Boot(cfg), sched)
    requires i < |S.RunCycles(cfg, S.Boot(cfg), sched).value.0.tasks|
    ensures var th := S.View(S.RunCycles(cfg, S.Boot(cfg), sched).value.0, i);
            AtInstruction(lines, cfg.image, th.ip) && Sound(ProgramOf(lines, cfg.image), th.stk)
  {
    hide Sound, S.Boot, S.RunCycles, SafeSchedule, Closed, EntriesOnLine, AtInstruction;
    BootSound(lines, cfg);
    RunCyclesSound(lines, cfg, S.Boot(cfg), sched);
    var w := S.RunCycles(cfg, S.Boot(cfg), sched).value.0;
    assert TaskSound(ProgramOf(lines, cfg.image), S.View(w, i), w.tasks[i].handler);
    SoundIsAtInstruction(lines, cfg.image, S.View(w, i), w.tasks[i].handler);
  }

  /** The same from pass to pass of the main loop. */
  lemma PassSound(lines: seq<Line>, cfg: S.Config, w: S.World, feed: T.Feed)
    requires Compiled(lines, cfg.image) && T.Fits(cfg, w) && T.Pass(cfg, w, feed).Done?
    requires var p := ProgramOf(lines, cfg.image);
             && p.Valid() && Closed(p) && EntriesOnLine(p) && WorldSound(p, w)
             && SafeSchedule(p, cfg, w, Fairness.Cycles(T.Pass(cfg, w, feed).value.1, feed, 0))
    ensures WorldSound(ProgramOf(lines, cfg.image), T.Pass(cfg, w, feed).value.0)
    ensures forall i :: 0 <= i < |T.Pass(cfg, w, feed).value.0.tasks| && S.Ok(T.Pass(cfg, w, feed).value.0) ==>
              AtInstruction(lines, cfg.image, S.View(T.Pass(cfg, w, feed).value.0, i).ip)
  {
    hide Sound, SafeSchedule, Closed, EntriesOnLine, AtInstruction, T.Visit, T.Tree, WorldSound, S.View;
    var w' := T.Pass(cfg, w, feed).value.0;
    Fairness.PassIsRun(cfg, w, 0, feed, 0);
    RunCyclesSound(lines, cfg, w, Fairness.Cycles(T.Pass(cfg, w, feed).value.1, feed, 0));
    forall i | 0 <= i < |w'.tasks| && S.Ok(w') ensures AtInstruction(lines, cfg.image, S.View(w', i).ip)
    {
      WorldTask(ProgramOf(lines, cfg.image), w', i);
      SoundIsAtInstruction(lines, cfg.image, S.View(w', i), w'.tasks[i].handler);
    }
  }
}
