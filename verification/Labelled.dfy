/** The meaning of a labelled program, and the theorem that its encoding has the same meaning.

    The program counter is a line. A code pointer held in data (a return address, a function
    address pushed by `PUSHL_U16 .f`) is an opaque token: `tokens[k]` stands for line `k`. */
module Labelled {
  import opened Bytes
  import opened ByteStack
  import opened Isa
  import opened Machine
  import opened Assembler

  /** A line, or a token that stands for no line. */
  datatype Pc = At(line: nat) | Wild(token: word)

  datatype LThread = LThread(pc: Pc, ops: Stk, stk: Stk)

  /** The line a label stands for: the instruction after its last definition. */
  function LineOf(lines: seq<Line>, name: string): Option<nat>
  {
    if lines == [] then None
    else if Last(lines).IsLabel() && Last(lines).name == name then Some(|Assembler.Code(Init(lines))|)
    else LineOf(Init(lines), name)
  }

  /** Every label used is defined and every operand has the form its instruction needs. */
  predicate WellFormed(lines: seq<Line>) {
    Plain(lines) && forall k :: 0 <= k < |Assembler.Code(lines)| ==> LineOk(lines, Assembler.Code(lines)[k])
  }

  predicate LineOk(lines: seq<Line>, line: Line) {
    line.Ins? &&
    (line.arg.LabelRef? ==> LineOf(lines, line.arg.name).Some?) &&
    (Size(line.op) == 3 ==> line.arg.Num? || line.arg.LabelRef?) &&
    (Size(line.op) == 5 ==> line.arg.Float?)
  }

  /** A program with its tokens: one for each line and one for the end. */
  datatype LProgram = LProgram(lines: seq<Line>, tokens: seq<word>, env: Env) {
    function Code(): (code: seq<Line>)
      ensures forall k :: 0 <= k < |code| ==> code[k].Ins?
    {
      Assembler.Code(lines)
    }

    predicate Valid() {
      && WellFormed(lines)
      && |tokens| == |Code()| + 1
      && forall j, k :: 0 <= j < k < |tokens| ==> tokens[j] != tokens[k]
    }

    /** The line a token stands for. */
    function Decode(token: word): Pc
    {
      if token in tokens then At(IndexOf(tokens, token)) else Wild(token)
    }

    function Token(pc: Pc): word
      requires pc.At? ==> pc.line < |tokens|
    {
      if pc.At? then tokens[pc.line] else pc.token
    }

    predicate OnLine(pc: Pc) { pc.At? && pc.line < |Code()| }

    function Target(arg: Arg): Pc
      requires arg.Num? || (arg.LabelRef? && LineOf(lines, arg.name).Some?)
    {
      if arg.Num? then Decode(Wrap(arg.v)) else At(LineOf(lines, arg.name).value)
    }

    /** The operand as data. */
    function Operand(line: Line): seq<byte>
      requires Valid() && LineOk(lines, line)
    {
      if Size(line.op) == 1 then []
      else if line.arg.Float? then line.arg.bits
      else if line.arg.Num? then LowHigh(Wrap(line.arg.v))
      else
        LineOfBound(lines, line.arg.name);
        LowHigh(tokens[LineOf(lines, line.arg.name).value])
    }

    /** One line. */
    function Step(th: LThread, input: Input): Outcome<(LThread, Event)>
      requires Valid() && OnLine(th.pc)
    {
      var line := Code()[th.pc.line];
      var next := At(th.pc.line + 1);
      if line.op.Jump? then
        Done((th.(pc := Target(line.arg)), Silent))
      else if line.op.PopJumpIfFalse? then
        var (flag, ops1) :- Pop(th.ops, 1);
        Done((LThread(if flag[0] == 0 then Target(line.arg) else next, ops1, th.stk), Silent))
      else if line.op.Call? then
        var stk :- PushFrame(th.stk, tokens[th.pc.line + 1]);
        Done((LThread(Target(line.arg), th.ops, stk), Silent))
      else if line.op.Return? then
        var (back, stk) :- PopFrame(th.stk);
        Done((LThread(Decode(back), th.ops, stk), Silent))
      else
        OperandValid(line);
        var e :- DataOp(env, Instr(line.op, Operand(line)), th.ops, th.stk, input);
        Done((LThread(next, e.ops, e.stk), e.event))
    }

    lemma OperandValid(line: Line)
      requires Valid() && LineOk(lines, line)
      ensures Instr(line.op, Operand(line)).Valid()
    {
    }

    /** One line per input, as long as the counter is on a line. */
    function Run(th: LThread, ins: seq<Input>): Trace<LThread>
      requires Valid()
      decreases |ins|
    {
      if ins == [] || !OnLine(th.pc) then Trace([], Done(th))
      else
        var s := Step(th, ins[0]);
        if s.Done? then Run(s.value.0, ins[1..]).After(s.value.1)
        else Trace([], s.PropagateFailure())
    }

    /** The counter is on a line whenever another line is to be run. */
    predicate Stays(th: LThread, ins: seq<Input>)
      requires Valid()
      decreases |ins|
    {
      ins == [] ||
      (OnLine(th.pc) && (Step(th, ins[0]).Done? ==> Stays(Step(th, ins[0]).value.0, ins[1..])))
    }
  }

  function IndexOf(s: seq<word>, x: word): (i: nat)
    requires x in s
    ensures i < |s| && s[i] == x
  {
    if s[0] == x then 0 else 1 + IndexOf(s[1..], x)
  }

  lemma {:induction false} LineOfBound(lines: seq<Line>, name: string)
    ensures LineOf(lines, name).Some? ==> LineOf(lines, name).value <= |Assembler.Code(lines)|
  {
    if lines != [] {
      LineOfBound(Init(lines), name);
    }
  }

  /** With distinct label names a label stands for the instruction after its one definition. */
  lemma {:induction false} LineOfUnique(lines: seq<Line>, i: nat)
    requires i < |lines| && lines[i].IsLabel()
    requires forall j :: 0 <= j < |lines| && j != i && lines[j].IsLabel() ==> lines[j].name != lines[i].name
    ensures LineOf(lines, lines[i].name) == Some(|Assembler.Code(lines[..i])|)
  {
    if i == |lines| - 1 {
      assert Init(lines) == lines[..i];
    } else {
      assert Init(lines)[..i] == lines[..i] && Init(lines)[i] == lines[i];
      LineOfUnique(Init(lines), i);
    }
  }

  // ----- addresses -----

  lemma {:induction false} AddrStep(code: seq<Line>, k: nat)
    requires k < |code| && forall j :: 0 <= j < |code| ==> code[j].Ins?
    ensures Addr(code, k + 1) == Addr(code, k) + Size(code[k].op)
  {
    assert Init(code[..k + 1]) == code[..k];
  }

  lemma {:induction false} AddrMonotone(code: seq<Line>, j: nat, k: nat)
    requires j < k <= |code| && forall j :: 0 <= j < |code| ==> code[j].Ins?
    ensures Addr(code, j) < Addr(code, k)
  {
    AddrStep(code, k - 1);
    if j < k - 1 {
      AddrMonotone(code, j, k - 1);
    }
  }

  /** The address table maps a label to the address of its line. */
  lemma {:induction false} TableIsLineAddress(lines: seq<Line>, name: string)
    ensures name in Addresses(lines) <==> LineOf(lines, name).Some?
    ensures LineOf(lines, name).Some? ==>
              && LineOf(lines, name).value <= |Assembler.Code(lines)|
              && Addresses(lines)[name] == Addr(Assembler.Code(lines), LineOf(lines, name).value)
  {
    if lines != [] {
      var code, front := Assembler.Code(lines), Assembler.Code(Init(lines));
      TableIsLineAddress(Init(lines), name);
      assert code[..|front|] == front;
      if LineOf(Init(lines), name).Some? {
        var k := LineOf(Init(lines), name).value;
        assert code[..k] == front[..k];
      }
    }
  }

  /** The tokens of the byte machine: addresses. */
  function AddressTokens(code: seq<Line>): (t: seq<word>)
    requires forall j :: 0 <= j < |code| ==> code[j].Ins?
    requires CodeSize(code) < 65536
    ensures |t| == |code| + 1
    ensures forall k :: 0 <= k <= |code| ==> t[k] == Addr(code, k)
  {
    assert code[..|code|] == code;
    forall k | 0 <= k < |code| ensures Addr(code, k) < CodeSize(code) { AddrMonotone(code, k, |code|); }
    seq(|code| + 1, k requires 0 <= k <= |code| => Addr(code, k) as word)
  }

  // ----- the encoding -----

  lemma {:induction false} ResolveKeepsSizes(table: map<string, nat>, code: seq<Line>)
    requires forall j :: 0 <= j < |code| ==> code[j].Ins?
    ensures CodeSize(Resolve(table, code)) == CodeSize(code)
  {
    if code != [] {
      assert Init(Resolve(table, code)) == Resolve(table, Init(code));
      ResolveKeepsSizes(table, Init(code));
    }
  }

  /** Instruction `k` of the encoding lies exactly at its address. */
  lemma {:induction false} EncodedAt(code: seq<Line>, k: nat)
    requires k < |code| && forall j :: 0 <= j < |code| ==> code[j].Ins?
    requires Encoded(code).Ok?
    ensures EncodeLine(code[k]).Ok?
    ensures Addr(code, k) <= Addr(code, k + 1) <= CodeSize(code)
    ensures Encoded(code).value[Addr(code, k)..Addr(code, k + 1)] == EncodeLine(code[k]).value
  {
    hide EncodeLine, Size;
    var front := Init(code);
    var a, b := Encoded(front).value, EncodeLine(Last(code)).value;
    assert Encoded(code).value == a + b;
    if k == |code| - 1 {
      assert code[..k] == front && code[..k + 1] == code;
      assert (a + b)[|a|..|a + b|] == b;
    } else {
      EncodedAt(front, k);
      assert front[..k] == code[..k] && front[..k + 1] == code[..k + 1];
      assert (a + b)[Addr(code, k)..Addr(code, k + 1)] == a[Addr(code, k)..Addr(code, k + 1)];
    }
  }

  /** `image` holds the assembled `lines` followed by `env.data`. */
  ghost predicate Compiled(lines: seq<Line>, image: Image)
  {
    && image.Valid()
    && Plain(lines)
    && Assembled(lines) == Ok(image.program[..image.dataAddress])
  }

  /** The labelled program that an image implements. */
  ghost function ProgramOf(lines: seq<Line>, image: Image): (p: LProgram)
    requires Compiled(lines, image)
    ensures |p.tokens| == |Assembler.Code(lines)| + 1
    ensures p.lines == lines && p.env == image.Context()
    ensures forall k :: 0 <= k < |p.tokens| ==> p.tokens[k] == Addr(Assembler.Code(lines), k)
  {
    var code := Assembler.Code(lines);
    ResolveKeepsSizes(Addresses(lines), code);
    LProgram(lines, AddressTokens(code), image.Context())
  }

  /** Assembling succeeds only on well-formed programs, and addresses identify lines. */
  lemma CompiledIsValid(lines: seq<Line>, image: Image)
    requires Compiled(lines, image)
    ensures ProgramOf(lines, image).Valid()
  {
    var p := ProgramOf(lines, image);
    var code := p.Code();
    var resolved := Resolve(Addresses(lines), code);
    forall k | 0 <= k < |code| ensures LineOk(lines, code[k])
    {
      EncodedAt(resolved, k);
      if code[k].arg.LabelRef? {
        TableIsLineAddress(lines, code[k].arg.name);
      }
    }
    forall j, k | 0 <= j < k < |p.tokens| ensures p.tokens[j] != p.tokens[k]
    {
      AddrMonotone(code, j, k);
    }
  }

  /** Conversely a well-formed program that fits always assembles. */
  lemma WellFormedAssembles(lines: seq<Line>)
    requires WellFormed(lines)
    ensures Assembled(lines).Ok?
  {
    var code := Assembler.Code(lines);
    var table := Addresses(lines);
    forall k | 0 <= k < |code| && code[k].arg.LabelRef? ensures code[k].arg.name in table
    {
      assert LineOk(lines, code[k]);
      TableIsLineAddress(lines, code[k].arg.name);
    }
    var resolved := Resolve(table, code);
    forall k | 0 <= k < |code| ensures EncodeLine(resolved[k]).Ok?
    {
      assert LineOk(lines, code[k]);
    }
    EncodedOk(resolved);
  }

  lemma {:induction false} EncodedOk(code: seq<Line>)
    requires forall k :: 0 <= k < |code| ==> code[k].Ins? && EncodeLine(code[k]).Ok?
    ensures Encoded(code).Ok?
  {
    if code != [] {
      EncodedOk(Init(code));
    }
  }

  // ----- simulation -----

  /** The byte-machine state that implements a labelled state. */
  function Lower(p: LProgram, th: LThread): Thread
    requires th.pc.At? ==> th.pc.line < |p.tokens|
  {
    Thread(p.Token(th.pc), th.ops, th.stk)
  }

  predicate InRange(p: LProgram, pc: Pc) { pc.At? ==> pc.line < |p.tokens| }

  lemma DecodeToken(p: LProgram, token: word)
    requires p.Valid()
    ensures InRange(p, p.Decode(token)) && p.Token(p.Decode(token)) == token
  {
  }

  lemma TargetToken(lines: seq<Line>, image: Image, arg: Arg)
    requires Compiled(lines, image)
    requires arg.Num? || (arg.LabelRef? && LineOf(lines, arg.name).Some?)
    ensures var p := ProgramOf(lines, image);
            && InRange(p, p.Target(arg))
            && (arg.Num? ==> p.Token(p.Target(arg)) == Wrap(arg.v))
            && (arg.LabelRef? ==> arg.name in Addresses(lines)
                                  && p.Token(p.Target(arg)) == Addresses(lines)[arg.name])
  {
    CompiledIsValid(lines, image);
    var p := ProgramOf(lines, image);
    if arg.Num? {
      DecodeToken(p, Wrap(arg.v));
    } else {
      TableIsLineAddress(lines, arg.name);
    }
  }

  lemma ResolvedAddr(lines: seq<Line>, k: nat)
    requires k <= |Assembler.Code(lines)|
    ensures Addr(Resolve(Addresses(lines), Assembler.Code(lines)), k) == Addr(Assembler.Code(lines), k)
  {
    var code, table := Assembler.Code(lines), Addresses(lines);
    ResolveKeepsSizes(table, code[..k]);
    assert Resolve(table, code)[..k] == Resolve(table, code[..k]);
  }

  /** The bytes between the addresses of lines `k` and `k + 1` encode line `k`. */
  lemma LineBytes(lines: seq<Line>, image: Image, k: nat)
    requires Compiled(lines, image) && k < |Assembler.Code(lines)|
    ensures var p := ProgramOf(lines, image);
            var line := p.Code()[k];
            var bytes := EncodeLine(ResolveLine(Addresses(lines), line));
            && p.tokens[k + 1] == p.tokens[k] + Size(line.op) <= image.dataAddress
            && bytes.Ok? && image.program[p.tokens[k]..p.tokens[k + 1]] == bytes.value
  {
    hide EncodeLine, Isa.Code, LowHigh, Uint8List;
    var p := ProgramOf(lines, image);
    var resolved := Resolve(Addresses(lines), p.Code());
    AddrStep(p.Code(), k);
    ResolvedAddr(lines, k);
    ResolvedAddr(lines, k + 1);
    EncodedAt(resolved, k);
    var code := image.program[..image.dataAddress];
    assert code[p.tokens[k]..p.tokens[k + 1]] == image.program[p.tokens[k]..p.tokens[k + 1]];
  }

  /** The encoding of a line is its opcode and its operand, labels being their addresses. */
  lemma LineEncodes(p: LProgram, table: map<string, nat>, line: Line)
    requires p.Valid() && LineOk(p.lines, line)
    requires line.arg.LabelRef? ==>
               && InRange(p, p.Target(line.arg))
               && line.arg.name in table && p.Token(p.Target(line.arg)) == table[line.arg.name]
    ensures EncodeLine(ResolveLine(table, line)) == Ok([Isa.Code(line.op)] + p.Operand(line))
  {
    hide Isa.Code, Size, LowHigh, Uint8List;
    var resolved := ResolveLine(table, line);
    if Size(line.op) == 3 {
      Uint8ListWord(resolved.arg.v);
    }
  }

  /** At the address of line `k` lie its opcode and its operand. */
  lemma FetchesLine(lines: seq<Line>, image: Image, k: nat)
    requires Compiled(lines, image) && k < |Assembler.Code(lines)|
    ensures var p := ProgramOf(lines, image);
            var line := p.Code()[k];
            && p.Valid() && LineOk(lines, line)
            && var ip := p.tokens[k];
            var next := p.tokens[k + 1];
            && next == ip + Size(line.op) && next <= image.dataAddress
            && image.program[ip] == Isa.Code(line.op)
            && image.program[ip + 1..next] == p.Operand(line)
  {
    hide Isa.Code, Size, EncodeLine;
    CompiledIsValid(lines, image);
    LineBytes(lines, image, k);
    var p := ProgramOf(lines, image);
    var line := p.Code()[k];
    assert LineOk(lines, line);
    if line.arg.LabelRef? { TargetToken(lines, image, line.arg); }
    LineEncodes(p, Addresses(lines), line);
    var ip, next := p.tokens[k], p.tokens[k + 1];
    var bytes := image.program[ip..next];
    assert image.program[ip] == bytes[0];
    assert image.program[ip + 1..next] == bytes[1..];
  }

  function LowerStep(p: LProgram, s: Outcome<(LThread, Event)>): Outcome<(Thread, Event)>
    requires s.Done? ==> InRange(p, s.value.0.pc)
  {
    var (th, e) :- s;
    Done((Lower(p, th), e))
  }

  /** One line of the labelled program is one instruction of the byte machine, whatever the line
      does: same stacks, same event, same way of stopping, and the new `ip` is the address of the
      new line. */
  lemma StepSimulates(lines: seq<Line>, image: Image, th: LThread, input: Input)
    requires Compiled(lines, image)
    requires th.pc.At? && th.pc.line < |Assembler.Code(lines)|
    ensures var p := ProgramOf(lines, image);
            && p.Valid()
            && (p.Step(th, input).Done? ==> InRange(p, p.Step(th, input).value.0.pc))
            && Step(image, Lower(p, th), input) == LowerStep(p, p.Step(th, input))
  {
    hide Machine.Step, Execute, Isa.Code;
    var p := ProgramOf(lines, image);
    FetchesLine(lines, image, th.pc.line);
    var line := p.Code()[th.pc.line];
    p.OperandValid(line);
    StepFetches(image, Lower(p, th), Instr(line.op, p.Operand(line)), input);
    if IsControl(line.op) && !line.op.Return? { OperandIsTarget(lines, image, line); }
    ExecutesLine(p, th, input);
  }

  lemma ExecutesLine(p: LProgram, th: LThread, input: Input)
    requires p.Valid() && p.OnLine(th.pc)
    requires var line := p.Code()[th.pc.line];
             LineOk(p.lines, line)
             && (IsControl(line.op) && !line.op.Return? ==>
                   && InRange(p, p.Target(line.arg))
                   && Instr(line.op, p.Operand(line)).Valid()
                   && Instr(line.op, p.Operand(line)).Word() == p.Token(p.Target(line.arg)))
    ensures var line := p.Code()[th.pc.line];
            && Instr(line.op, p.Operand(line)).Valid()
            && (p.Step(th, input).Done? ==> InRange(p, p.Step(th, input).value.0.pc))
            && Execute(p.env, Instr(line.op, p.Operand(line)), Lower(p, th).(ip := p.tokens[th.pc.line + 1]), input)
               == LowerStep(p, p.Step(th, input))
  {
    hide DataOp, PopFrame, PushFrame, Pop, WellFormed, Isa.Code;
    p.OperandValid(p.Code()[th.pc.line]);
    if p.Code()[th.pc.line].op.Return? && PopFrame(th.stk).Done? {
      DecodeToken(p, PopFrame(th.stk).value.0);
    }
  }

  lemma OperandIsTarget(lines: seq<Line>, image: Image, line: Line)
    requires Compiled(lines, image) && ProgramOf(lines, image).Valid()
    requires LineOk(lines, line) && Size(line.op) == 3
    ensures var p := ProgramOf(lines, image);
            InRange(p, p.Target(line.arg)) && Instr(line.op, p.Operand(line)).Word() == p.Token(p.Target(line.arg))
  {
    var p := ProgramOf(lines, image);
    TargetToken(lines, image, line.arg);
    LowHighInjective(Instr(line.op, p.Operand(line)).Word(), p.Token(p.Target(line.arg)));
  }

  function LowerTrace(p: LProgram, t: Trace<LThread>): Trace<Thread>
    requires t.end.Done? ==> InRange(p, t.end.value.pc)
  {
    if t.end.Done? then Trace(t.events, Done(Lower(p, t.end.value)))
    else Trace(t.events, t.end.PropagateFailure())
  }

  /** Compilation preserves meaning: from the address of a line, the encoded bytes produce the events,
      the stacks and the ending of the labelled program, and `ip` is the address of its line. */
  lemma {:induction false} RunSimulates(lines: seq<Line>, image: Image, th: LThread, ins: seq<Input>)
    requires Compiled(lines, image)
    requires ProgramOf(lines, image).Valid() && InRange(ProgramOf(lines, image), th.pc)
    requires ProgramOf(lines, image).Stays(th, ins)
    ensures var p := ProgramOf(lines, image);
            && (p.Run(th, ins).end.Done? ==> InRange(p, p.Run(th, ins).end.value.pc))
            && Run(image, Lower(p, th), ins) == LowerTrace(p, p.Run(th, ins))
    decreases |ins|
  {
    var p := ProgramOf(lines, image);
    if ins != [] {
      StepSimulates(lines, image, th, ins[0]);
      var s := p.Step(th, ins[0]);
      if s.Done? {
        RunSimulates(lines, image, s.value.0, ins[1..]);
      }
    }
  }
}
