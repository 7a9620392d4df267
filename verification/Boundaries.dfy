/** A compiled program never runs anything but its own instructions: `ip` is the address of a line
    in every reachable state, and no operand is fetched from outside the code. */
module Boundaries {
  import opened Bytes
  import opened ByteStack
  import opened Isa
  import opened Machine
  import opened Assembler
  import opened Labelled
  import Frames
  import Handlers

  /** Jumps and calls go to labels of lines, and the last line does not fall through. */
  predicate Closed(p: LProgram) {
    && p.Code() != []
    && p.Code()[|p.Code()| - 1].op in {Jump, Return, Halt}
    && forall k :: 0 <= k < |p.Code()| ==> TargetOnLine(p, p.Code()[k])
  }

  predicate TargetOnLine(p: LProgram, line: Line) {
    line.Ins? && (line.op in {Jump, PopJumpIfFalse, Call} ==>
      line.arg.LabelRef? && LineOf(p.lines, line.arg.name).Some?
      && LineOf(p.lines, line.arg.name).value < |p.Code()|)
  }

  /** The call stack is a chain of frames whose return addresses are lines, down to `bp == 0`. */
  ghost predicate Linked(p: LProgram, stk: Stk, fs: seq<Frames.Frame>, base: nat) {
    && Frames.Framed(stk)
    && if fs == [] then stk.bp == 0
       else
         && Frames.Holds(stk.data, stk.bp, fs, base)
         && fs[0].bp == 0
         && forall i :: 0 <= i < |fs| ==> p.OnLine(p.Decode(fs[i].back))
  }

  ghost predicate Sound(p: LProgram, stk: Stk) {
    exists fs, base: nat :: Linked(p, stk, fs, base)
  }

  lemma FreshIsSound(p: LProgram, size: word)
    ensures Sound(p, Fresh(size))
  {
    assert Linked(p, Fresh(size), [], 0);
  }

  lemma CallIsSound(p: LProgram, stk: Stk, back: word)
    requires Sound(p, stk) && p.OnLine(p.Decode(back)) && PushFrame(stk, back).Done?
    ensures Sound(p, PushFrame(stk, back).value)
  {
    hide PushFrame, Frames.Holds;
    var fs, base: nat :| Linked(p, stk, fs, base);
    if fs == [] { base := stk.sp; }
    Frames.PushFrameHolds(stk, back, fs, base);
    assert Linked(p, PushFrame(stk, back).value, fs + [Frames.Frame(back, stk.bp)], base);
  }

  lemma ReturnIsSound(p: LProgram, stk: Stk)
    requires Sound(p, stk) && PopFrame(stk).Done?
    ensures p.OnLine(p.Decode(PopFrame(stk).value.0)) && Sound(p, PopFrame(stk).value.1)
  {
    var fs, base: nat :| Linked(p, stk, fs, base);
    if fs != [] {
      Frames.PopFrameHolds(stk, fs, base);
      var rest := Init(fs);
      var t := PopFrame(stk).value.1;
      assert fs[|fs| - 1] == Last(fs);
      assert Linked(p, t, rest, base) by { hide PopFrame; }
    }
  }

  lemma SameFramesIsSound(p: LProgram, stk: Stk, t: Stk)
    requires Sound(p, stk) && Frames.SameFrames(stk, t)
    ensures Sound(p, t)
  {
    var fs, base: nat :| Linked(p, stk, fs, base);
    if fs != [] {
      Frames.HoldsBelow(stk.data, t.data, stk.bp, fs, base);
    }
    assert Linked(p, t, fs, base);
  }

  lemma SoundIsFramed(p: LProgram, stk: Stk)
    requires Sound(p, stk)
    ensures Frames.Framed(stk)
  {
  }

  predicate SafeLine(p: LProgram, th: LThread)
    requires p.Valid() && p.OnLine(th.pc)
  {
    var line := p.Code()[th.pc.line];
    p.OperandValid(line);
    Frames.Safe(Instr(line.op, p.Operand(line)), th.ops, th.stk)
  }

  /** Every line that is run stays in its own frame. */
  predicate SafeRun(p: LProgram, th: LThread, ins: seq<Input>)
    requires p.Valid()
    decreases |ins|
  {
    ins == [] || !p.OnLine(th.pc) ||
    (SafeLine(p, th) && (p.Step(th, ins[0]).Done? ==> SafeRun(p, p.Step(th, ins[0]).value.0, ins[1..])))
  }

  lemma TokenOnLine(p: LProgram, k: nat)
    requires p.Valid() && k < |p.Code()|
    ensures p.Decode(p.tokens[k]) == At(k)
  {
  }

  /** One line leads to a line. */
  lemma StepStays(p: LProgram, th: LThread, input: Input)
    requires p.Valid() && Closed(p) && p.OnLine(th.pc) && Sound(p, th.stk)
    requires SafeLine(p, th) && p.Step(th, input).Done?
    ensures var t := p.Step(th, input).value.0; p.OnLine(t.pc) && Sound(p, t.stk)
  {
    hide DataOp, PopFrame, PushFrame, Pop, Sound, Frames.Safe;
    var line := p.Code()[th.pc.line];
    assert TargetOnLine(p, line) && LineOk(p.lines, line);
    if line.op.Call? {
      TokenOnLine(p, th.pc.line + 1);
      CallIsSound(p, th.stk, p.tokens[th.pc.line + 1]);
    } else if line.op.Return? {
      ReturnIsSound(p, th.stk);
    } else if !IsControl(line.op) {
      SoundIsFramed(p, th.stk);
      p.OperandValid(line);
      var i := Instr(line.op, p.Operand(line));
      Frames.DataOpKeepsFrames(p.env, i, th.ops, th.stk, input);
      SameFramesIsSound(p, th.stk, DataOp(p.env, i, th.ops, th.stk, input).value.stk);
      if line.op.Halt? { HaltStops(p.env, i, th.ops, th.stk, input); }
    }
  }

  lemma HaltStops(env: Env, i: Instr, ops: Stk, stk: Stk, input: Input)
    requires i.Valid() && i.op.Halt?
    ensures DataOp(env, i, ops, stk, input) == Exited(0)
  {
  }

  lemma {:induction false} RunStays(p: LProgram, th: LThread, ins: seq<Input>)
    requires p.Valid() && Closed(p) && p.OnLine(th.pc) && Sound(p, th.stk) && SafeRun(p, th, ins)
    ensures p.Stays(th, ins)
    ensures var r := p.Run(th, ins);
            r.end.Done? ==> p.OnLine(r.end.value.pc) && Sound(p, r.end.value.stk)
    decreases |ins|
  {
    hide LProgram.Step, Sound, SafeLine, Closed;
    if ins != [] && p.Step(th, ins[0]).Done? {
      StepStays(p, th, ins[0]);
      RunStays(p, p.Step(th, ins[0]).value.0, ins[1..]);
    }
  }

  /** The bytes from `ip` on are a whole instruction of the program, inside the code. */
  ghost predicate AtInstruction(lines: seq<Line>, image: Image, ip: word)
    requires Compiled(lines, image)
  {
    exists k: nat ::
      && k < |Assembler.Code(lines)|
      && ip == ProgramOf(lines, image).tokens[k]
      && Frames.Fetched(image, ip).Some?
      && Frames.Fetched(image, ip).value.op == Assembler.Code(lines)[k].op
      && ip + Size(Assembler.Code(lines)[k].op) <= image.dataAddress
  }

  lemma LineIsInstruction(lines: seq<Line>, image: Image, k: nat)
    requires Compiled(lines, image) && k < |Assembler.Code(lines)|
    ensures AtInstruction(lines, image, ProgramOf(lines, image).tokens[k])
  {
    hide Isa.Code, Isa.Decode, Size;
    FetchesLine(lines, image, k);
    DecodeCode(Assembler.Code(lines)[k].op);
  }

  /** However long one task runs, `ip` is an instruction boundary inside the code, and every return address on
      its call stack is one. */
  lemma AlwaysAtInstruction(lines: seq<Line>, image: Image, th: LThread, ins: seq<Input>)
    requires Compiled(lines, image) && ProgramOf(lines, image).Valid()
    requires var p := ProgramOf(lines, image);
             Closed(p) && p.OnLine(th.pc) && Sound(p, th.stk) && SafeRun(p, th, ins)
    ensures var r := Run(image, Lower(ProgramOf(lines, image), th), ins);
            r.end.Done? ==> AtInstruction(lines, image, r.end.value.ip) && Sound(ProgramOf(lines, image), r.end.value.stk)
  {
    hide Sound, SafeRun, Closed, LProgram.Run, Machine.Run, AtInstruction;
    var p := ProgramOf(lines, image);
    RunStays(p, th, ins);
    RunSimulates(lines, image, th, ins);
    var r := p.Run(th, ins);
    if r.end.Done? {
      LineIsInstruction(lines, image, r.end.value.pc.line);
    }
  }

  /** Handler frames keep this: a drain at a line leaves the task at the handler's line with a
      sound call stack. */
  lemma {:induction false} DrainIsSound(p: LProgram, th: Thread, h: word, count: nat)
    requires p.Valid() && p.OnLine(p.Decode(th.ip)) && Sound(p, th.stk)
    requires h != 0 ==> p.OnLine(p.Decode(h))
    requires Handlers.Drained(th, h, count).Done?
    ensures var t := Handlers.Drained(th, h, count).value; p.OnLine(p.Decode(t.ip)) && Sound(p, t.stk)
    decreases count
  {
    hide Sound, PushFrame;
    if count > 0 && h == 0 {
      DrainIsSound(p, th, h, count - 1);
    } else if count > 0 {
      CallIsSound(p, th.stk, th.ip);
      DrainIsSound(p, CallAddress(th, h).value, h, count - 1);
    }
  }
}
