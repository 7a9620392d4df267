/** The main loop of the VM (cpu_run) for a program that creates no tasks: pass after pass, it is the byte machine. */
module PowerOn {
  import opened Bytes
  import opened ByteStack
  import opened Isa
  import opened Machine
  import opened Scheduler
  import T = Traversal
  import Handlers
  import Wire
  import RP = RecursionProgram
  import Compiler
  import Recursion
  import Assembler
  import Constants

  /** The passes of `cpu_run`, one feed of inputs for each. */
  function Rounds(cfg: Config, w: World, feeds: seq<T.Feed>): Outcome<World>
    requires T.Fits(cfg, w)
    decreases |feeds|
  {
    if feeds == [] then Done(w)
    else
      var (w1, _) :- T.Pass(cfg, w, feeds[0]);
      Rounds(cfg, w1, feeds[1..])
  }

  /** The instruction inputs of the main task's cycles, with what it is told about the task limit. */
  function MainInputs(cfg: Config, feeds: seq<T.Feed>): seq<Input> {
    if feeds == [] then [] else Told(cfg, feeds[0](0).ins) + MainInputs(cfg, feeds[1..])
  }

  function Told(cfg: Config, ins: seq<Input>): (r: seq<Input>)
    ensures |r| == |ins|
  {
    if ins == [] then [] else [ins[0].(maySpawn := cfg.maxTasks != 0)] + Told(cfg, ins[1..])
  }

  /** No task is created and the task does not end by ASYNC_RETURN. */
  predicate Solitary(events: seq<Event>) {
    forall i :: 0 <= i < |events| ==> !events[i].Spawn? && !events[i].Ended?
  }

  /** One task, without a message handler. */
  predicate Alone(w: World) {
    Ok(w) && |w.tasks| == 1 && w.tasks[0].handler == 0
  }

  /** The world that a run of the machine leads to, or how it ends. */
  predicate EndsAs(world: Outcome<World>, end: Outcome<Thread>) {
    match end
    case Done(th) => world.Done? && Alone(world.value) && View(world.value, 0) == th
    case Exited(code) => world == Exited(code)
    case Undefined => world == Undefined
  }

  function WorldOf<T>(r: Outcome<(World, T)>): Outcome<World> {
    if r.Done? then Done(r.value.0) else r.PropagateFailure()
  }

  lemma AloneStep(cfg: Config, w: World, input: Input)
    requires cfg.image.Valid() && Alone(w)
    requires var s := Step(cfg.image, Current(w), input.(maySpawn := cfg.maxTasks != 0));
             s.Done? ==> !s.value.1.Spawn? && !s.value.1.Ended?
    ensures var s := Step(cfg.image, Current(w), input.(maySpawn := cfg.maxTasks != 0));
            EndsAs(WorldOf(StepTask(cfg, w, input)), if s.Done? then Done(s.value.0) else s.PropagateFailure())
  {
    hide Step, MessageFrom;
  }

  lemma {:induction false} AloneRun(cfg: Config, w: World, ins: seq<Input>)
    requires cfg.image.Valid() && Alone(w)
    requires Solitary(Run(cfg.image, Current(w), Told(cfg, ins)).events)
    ensures EndsAs(WorldOf(RunTask(cfg, w, ins)), Run(cfg.image, Current(w), Told(cfg, ins)).end)
    decreases |ins|
  {
    hide Step, StepTask;
    if ins != [] {
      var all := Told(cfg, ins);
      assert all[0] == ins[0].(maySpawn := cfg.maxTasks != 0) && all[1..] == Told(cfg, ins[1..]);
      var s := Step(cfg.image, Current(w), all[0]);
      if s.Done? {
        SolitaryAfter(s.value.1, Run(cfg.image, s.value.0, all[1..]).events);
      }
      AloneStep(cfg, w, ins[0]);
      if s.Done? {
        AloneRun(cfg, StepTask(cfg, w, ins[0]).value.0, ins[1..]);
      }
    }
  }

  lemma SolitaryAfter(e: Event, events: seq<Event>)
    requires Solitary([e] + events)
    ensures !e.Spawn? && !e.Ended? && Solitary(events)
  {
    assert ([e] + events)[0] == e;
    forall i | 0 <= i < |events| ensures !events[i].Spawn? && !events[i].Ended?
    {
      assert ([e] + events)[i + 1] == events[i];
    }
  }

  lemma SolitarySplit(a: seq<Event>, b: seq<Event>)
    requires Solitary(a + b)
    ensures Solitary(a) && Solitary(b)
  {
    forall i | 0 <= i < |a| ensures !a[i].Spawn? && !a[i].Ended? { assert (a + b)[i] == a[i]; }
    forall i | 0 <= i < |b| ensures !b[i].Spawn? && !b[i].Ended? { assert (a + b)[|a| + i] == b[i]; }
  }

  lemma {:induction false} NoHandler(th: Thread, count: nat)
    ensures Handlers.Drained(th, 0, count) == Done(th)
    decreases count
  {
    if count > 0 { NoHandler(th, count - 1); }
  }

  /** Without a handler, messages change nothing that the task sees. */
  lemma AloneDrain(w: World, arrival: Option<Wire.Msg>)
    requires Alone(w)
    ensures var r := Drain(Switch(Arrived(w, arrival), 0));
            r.Done? && Alone(r.value) && Current(r.value) == View(w, 0)
  {
    hide Deliver;
    ArrivedView(w, arrival, 0);
    var w1 := Switch(Arrived(w, arrival), 0);
    SwitchView(Arrived(w, arrival), 0, 0);
    NoHandler(Current(w1), |w1.tasks[0].inbox|);
  }

  lemma AloneCycle(cfg: Config, w: World, input: CycleInput)
    requires cfg.image.Valid() && Alone(w)
    requires Solitary(Run(cfg.image, View(w, 0), Told(cfg, input.ins)).events)
    ensures EndsAs(WorldOf(Cycle(cfg, w, 0, input)), Run(cfg.image, View(w, 0), Told(cfg, input.ins)).end)
  {
    hide Drain, Switch, Arrived, RunTask, Run, Told, Solitary;
    AloneDrain(w, input.arrival);
    AloneRun(cfg, Drain(Switch(Arrived(w, input.arrival), 0)).value, input.ins);
  }

  /** A pass over a single task is its cycle. */
  lemma AlonePass(cfg: Config, w: World, feed: T.Feed)
    requires T.Fits(cfg, w) && Alone(w)
    requires Solitary(Run(cfg.image, View(w, 0), Told(cfg, feed(0).ins)).events)
    ensures EndsAs(WorldOf(T.Pass(cfg, w, feed)), Run(cfg.image, View(w, 0), Told(cfg, feed(0).ins)).end)
  {
    hide Cycle, Run, Told, Solitary, View, T.Ranked;
    AloneCycle(cfg, w, feed(0));
    var r := Cycle(cfg, w, 0, feed(0));
    if r.Done? {
      T.CycleGrew(cfg, w, 0, feed(0));
      NoKids(r.value.0.kids);
      assert T.VisitKids(cfg, r.value.0, 0, 0, feed, 1) == Done((r.value.0, []));
      assert T.Pass(cfg, w, feed) == Done((r.value.0, [0] + []));
    } else {
      assert T.Pass(cfg, w, feed) == r.PropagateFailure();
    }
  }

  lemma NoKids(kids: seq<seq<nat>>)
    requires T.Ranked(kids) && |kids| == 1
    ensures kids[0] == []
  {
    hide T.Ranked;
    if kids[0] != [] { KidAbove(kids, 0, 0); }
  }

  lemma KidAbove(kids: seq<seq<nat>>, p: nat, i: nat)
    requires T.Ranked(kids) && p < |kids| && i < |kids[p]|
    ensures p < kids[p][i] < |kids|
  {
  }

  /** The main loop with a program that creates no tasks is the byte machine: however its instructions
      are spread over passes and whatever messages arrive, it ends in the same state or with the same exit code. */
  lemma {:induction false} RoundsAreRun(cfg: Config, w: World, feeds: seq<T.Feed>)
    requires T.Fits(cfg, w) && Alone(w)
    requires Solitary(Run(cfg.image, View(w, 0), MainInputs(cfg, feeds)).events)
    ensures EndsAs(Rounds(cfg, w, feeds), Run(cfg.image, View(w, 0), MainInputs(cfg, feeds)).end)
    decreases |feeds|
  {
    hide Run, Told, Solitary, View, T.Tree, T.Visit;
    if feeds != [] {
      var now, later := Told(cfg, feeds[0](0).ins), MainInputs(cfg, feeds[1..]);
      var r := Run(cfg.image, View(w, 0), now);
      Handlers.RunAppend(cfg.image, View(w, 0), now, later);
      if r.end.Done? {
        SolitarySplit(r.events, Run(cfg.image, r.end.value, later).events);
      }
      AlonePass(cfg, w, feeds[0]);
      if r.end.Done? {
        RoundsAreRun(cfg, T.Pass(cfg, w, feeds[0]).value.0, feeds[1..]);
      }
    } else {
      EmptyRun(cfg.image, View(w, 0));
    }
  }

  lemma EmptyRun(image: Image, th: Thread)
    requires image.Valid()
    ensures Run(image, th, []) == Trace([], Done(th))
  {
  }

  // ----- programs/recursion.rfl -----

  lemma {:induction false} LoudIsSolitary(events: seq<Event>)
    requires forall i :: 0 <= i < |RP.Loud(events)| ==> RP.Loud(events)[i].Printed?
    ensures Solitary(events)
    decreases |events|
  {
    if events != [] {
      var rest := RP.Loud(events[1..]);
      var loud := RP.Loud(events);
      if !events[0].Silent? { assert loud[0] == events[0]; }
      forall i | 0 <= i < |rest| ensures rest[i].Printed?
      {
        assert rest[i] == loud[if events[0].Silent? then i else i + 1];
      }
      LoudIsSolitary(events[1..]);
      forall i | 0 <= i < |events| ensures !events[i].Spawn? && !events[i].Ended?
      {
        if i > 0 { assert events[i] == events[1..][i - 1]; }
      }
    }
  }

  lemma {:induction false} FullCycles(cfg: Config, feeds: seq<T.Feed>)
    requires forall i :: 0 <= i < |feeds| ==> |feeds[i](0).ins| == CONTEXT_MAX_CYCLES
    ensures |MainInputs(cfg, feeds)| == |feeds| * CONTEXT_MAX_CYCLES
    decreases |feeds|
  {
    if feeds != [] {
      FullCycles(cfg, feeds[1..]);
    }
  }

  /** The recursive program from power-on to the end: in the main loop, with its cycles of 255 instructions, the VM
      exits with code 0 if the frames fit and with a failure if they do not, within the given number of passes. */
  lemma RecursionFromPowerOn(n: word, cfg: Config, feeds: seq<T.Feed>)
    requires cfg.image.Valid() && cfg.image.platform.ports == Constants.PORT_COUNT && cfg.image.platform.pointer >= 2
    requires Compiler.Compiled(map[], "", RP.Source(n)) == Assembler.Ok((cfg.image.program, cfg.image.dataAddress))
    requires 8 <= cfg.opsSize < 65534 && cfg.stkSize < 65534
    requires forall i :: 0 <= i < |feeds| ==> |feeds[i](0).ins| == CONTEXT_MAX_CYCLES
    requires |feeds| * CONTEXT_MAX_CYCLES >= RP.TotalSteps(n)
    ensures T.Fits(cfg, Boot(cfg))
    ensures Rounds(cfg, Boot(cfg), feeds)
            == Exited(if 4 + 8 * (Recursion.Depth(1, n) + 1) <= cfg.stkSize then 0 else FAILURE)
    ensures RP.Loud(Run(cfg.image, View(Boot(cfg), 0), MainInputs(cfg, feeds)).events)
            == if 4 + 8 * (Recursion.Depth(1, n) + 1) <= cfg.stkSize then [Printed([LowHigh(n)])] else []
  {
    hide T.Fits, Rounds, Run, RP.Loud, Recursion.Depth, RP.TotalSteps, Compiler.Compiled, MainInputs, Solitary, LowHigh, RP.Source;
    T.BootFits(cfg);
    FullCycles(cfg, feeds);
    var ins := MainInputs(cfg, feeds);
    RP.CompiledProgramRuns(n, cfg.image, cfg.opsSize, cfg.stkSize, ins);
    assert View(Boot(cfg), 0) == Thread(0, Fresh(cfg.opsSize), Fresh(cfg.stkSize));
    LoudIsSolitary(Run(cfg.image, View(Boot(cfg), 0), ins).events);
    RoundsAreRun(cfg, Boot(cfg), feeds);
  }
}
