/** The byte machine: fetch, decode and execute on one task's `ip`, operand stack and call stack
    (src/cpu.c, src/instructions.c, src/builtin.c). */
module Machine {
  import opened Bytes
  import opened ByteStack
  import opened Isa

  type Quad = s: seq<byte> | |s| == 4 witness [0, 0, 0, 0]

  /** What one instruction reads from outside the task: a port, the clock, the allocation counter,
      the result of a float operation, and whether fewer than MAX_TASKS tasks were created. */
  datatype Input = Input(port: byte, millis: word, memory: word, float: Quad, maySpawn: bool)

  /** What one instruction does outside the task. */
  datatype Event =
    | Silent
    | Printed(values: seq<seq<byte>>)
    | PortWrite(port: word, value: byte)
    | Spawn(entry: word, handler: word)
    | Send(dst: word, payload: seq<byte>)
    | Ended

  /** Build-time choices: port count, bytes of a `void *`, float printing. */
  datatype Platform = Platform(ports: byte, pointer: byte, printsFloats: bool)

  /** The constant data and the platform: all that non-control instructions see of the image. */
  datatype Env = Env(data: seq<byte>, platform: Platform)

  datatype Thread = Thread(ip: word, ops: Stk, stk: Stk)

  datatype Effect = Effect(ops: Stk, stk: Stk, event: Event)

  // ----- arithmetic -----

  function CmpHolds(c: Cmp, a: int, b: int): bool {
    match c case Eq => a == b case Lt => a < b case Gt => a > b case Le => a <= b case Ge => a >= b
  }

  /** `uint16_t` operands are promoted to a 32-bit `int`: a product of 2^31 or more overflows. */
  function U16Result(alu: Alu, a: word, b: word): Outcome<word> {
    match alu
    case Add => Done(Wrap(a + b))
    case Sub => Done(Wrap(a - b))
    case Mul => if a * b < 0x8000_0000 then Done(Wrap(a * b)) else Undefined
    case Div => if b == 0 then Undefined else Done(Wrap(a / b))
  }

  function I16Result(alu: Alu, a: word, b: word): Outcome<word> {
    match alu
    case Add => Done(Wrap(Signed(a) + Signed(b)))
    case Sub => Done(Wrap(Signed(a) - Signed(b)))
    case Mul => Done(Wrap(Signed(a) * Signed(b)))
    case Div => if Signed(b) == 0 then Undefined else Done(Wrap(TruncDiv(Signed(a), Signed(b))))
  }

  /** The shifted operand is promoted to a 32-bit `int`: a left shift is undefined when the result leaves it. */
  function BitResult(bit: BitOp, a: word, b: word): Outcome<word> {
    match bit
    case Shl => if b < 32 && a * Pow2(b) < 0x8000_0000 then Done(ShiftLeft(a, b)) else Undefined
    case Shr => if b < 32 then Done(ShiftRight(a, b)) else Undefined
    case Or => Done(WordBits(OrBit, a, b))
    case Xor => Done(WordBits(XorBit, a, b))
    case And => Done(WordBits(AndBit, a, b))
  }

  // ----- non-control instructions -----

  /** The second operand is on top. */
  function PopPair(s: Stk): Outcome<(word, word, Stk)> {
    var (b, s1) :- PopWord(s);
    var (a, s2) :- PopWord(s1);
    Done((a, b, s2))
  }

  /** Bytes that the conversion `%c` of `builtin_print` takes from the operand stack. */
  function PrintSize(platform: Platform, c: byte): nat {
    if c == 'u' as int || c == 'i' as int then 2
    else if c == 'f' as int && platform.printsFloats then 4
    else if c == 's' as int then 1
    else 0
  }

  /** `builtin_print` from position `i` of the data: the stack left and the values taken.
      A `%` before the terminator steps over it, as the source does. */
  function Print(env: Env, i: nat, ops: Stk): Outcome<(Stk, seq<seq<byte>>)>
    decreases |env.data| - i
  {
    if i >= |env.data| then Undefined
    else if env.data[i] == 0 then Done((ops, []))
    else if env.data[i] != '%' as int then Print(env, i + 1, ops)
    else if i + 1 >= |env.data| then Undefined
    else
      var n := PrintSize(env.platform, env.data[i + 1]);
      if n == 0 then Print(env, i + 2, ops)
      else
        var (v, ops1) :- Pop(ops, n);
        var (rest, values) :- Print(env, i + 2, ops1);
        Done((rest, [v] + values))
  }

  function Builtin(env: Env, id: word, ops: Stk, stk: Stk, input: Input): Outcome<Effect> {
    match id
    case 0 =>
      var (format, ops1) :- PopWord(ops);
      if format < env.platform.ports then Undefined
      else
        var (ops2, values) :- Print(env, format - env.platform.ports, ops1);
        Done(Effect(ops2, stk, Printed(values)))
    case 3 =>
      var (size, ops1) :- PopWord(ops);
      var (address, ops2) :- PopWord(ops1);
      var (dst, ops3) :- PopWord(ops2);
      var start := address - env.platform.ports;
      if start < 0 || start + size > |env.data| then Undefined
      else Done(Effect(ops3, stk, Send(dst, env.data[start..start + size])))
    case 4 =>
      var ops1 :- PushWord(ops, input.memory);
      Done(Effect(ops1, stk, Silent))
    case _ => Done(Effect(ops, stk, Silent))
  }

  predicate IsControl(op: Op) {
    op.Jump? || op.PopJumpIfFalse? || op.Call? || op.Return?
  }

  function OnOps(ops: Outcome<Stk>, stk: Stk): Outcome<Effect> {
    var s :- ops;
    Done(Effect(s, stk, Silent))
  }

  function CompareOp(cmp: Cmp, ops: Stk, stk: Stk): Outcome<Effect> {
    var (a, b, ops1) :- PopPair(ops);
    OnOps(Push(ops1, [if CmpHolds(cmp, Signed(a), Signed(b)) then 1 else 0]), stk)
  }

  function U16Op(alu: Alu, ops: Stk, stk: Stk): Outcome<Effect> {
    var (a, b, ops1) :- PopPair(ops);
    var r :- U16Result(alu, a, b);
    OnOps(PushWord(ops1, r), stk)
  }

  function I16Op(alu: Alu, ops: Stk, stk: Stk): Outcome<Effect> {
    var (a, b, ops1) :- PopPair(ops);
    var r :- I16Result(alu, a, b);
    OnOps(PushWord(ops1, r), stk)
  }

  function BitsOp(bit: BitOp, ops: Stk, stk: Stk): Outcome<Effect> {
    var (a, b, ops1) :- PopPair(ops);
    var r :- BitResult(bit, a, b);
    OnOps(PushWord(ops1, r), stk)
  }

  function NotOp(ops: Stk, stk: Stk): Outcome<Effect> {
    var (a, ops1) :- PopWord(ops);
    OnOps(PushWord(ops1, 65535 - a), stk)
  }

  function F32Op(result: Quad, ops: Stk, stk: Stk): Outcome<Effect> {
    var (b, ops1) :- Pop(ops, 4);
    var (a, ops2) :- Pop(ops1, 4);
    OnOps(Push(ops2, result), stk)
  }

  function DropOp(n: nat, ops: Stk, stk: Stk): Outcome<Effect> {
    var (_, ops1) :- Pop(ops, n);
    Done(Effect(ops1, stk, Silent))
  }

  function TopOp(n: nat, ops: Stk, stk: Stk): Outcome<Effect> {
    var v :- ReadAt(ops, n, Wrap(ops.sp - n));
    Done(Effect(ops, stk, Printed([v])))
  }

  /** Addresses below the port count are ports; of a constant only one byte is read. */
  function PushU16Op(env: Env, address: word, ops: Stk, stk: Stk, input: Input): Outcome<Effect> {
    var at := address - env.platform.ports;
    if at < 0 then OnOps(PushWord(ops, input.port), stk)
    else if at >= |env.data| then Undefined
    else OnOps(PushWord(ops, env.data[at]), stk)
  }

  function PopAddressOp(env: Env, address: word, ops: Stk, stk: Stk): Outcome<Effect> {
    var (v, ops1) :- PopWord(ops);
    if address < env.platform.ports then Done(Effect(ops1, stk, PortWrite(address, v % 256)))
    else Exited(FAILURE)
  }

  function AsyncCallOp(entry: word, ops: Stk, stk: Stk, input: Input): Outcome<Effect> {
    if !input.maySpawn then Done(Effect(ops, stk, Silent))
    else
      var (handler, ops1) :- PopWord(ops);
      Done(Effect(ops1, stk, Spawn(entry, handler)))
  }

  function AllocLocalOp(ops: Stk, stk: Stk): Outcome<Effect> {
    var (size, ops1) :- PopWord(ops);
    Done(Effect(ops1, stk.(sp := Wrap(stk.sp + size)), Silent))
  }

  /** Locals pass through a buffer of the size of a `void *`. */
  function PushLocalOp(env: Env, ops: Stk, stk: Stk): Outcome<Effect> {
    var (size, address, ops2) :- PopPair(ops);
    var v :- ReadAt(stk, size, Wrap(stk.bp + address));
    if size > env.platform.pointer then Undefined else OnOps(Push(ops2, v), stk)
  }

  function PopLocalOp(env: Env, ops: Stk, stk: Stk): Outcome<Effect> {
    var (size, address, ops2) :- PopPair(ops);
    var (v, ops3) :- Pop(ops2, size);
    if size > env.platform.pointer then Undefined
    else
      var stk1 :- WriteAt(stk, v, Wrap(stk.bp + address));
      Done(Effect(ops3, stk1, Silent))
  }

  function ReadI16Op(address: word, ops: Stk, stk: Stk): Outcome<Effect> {
    var v :- ReadAt(stk, 2, address);
    OnOps(Push(ops, v), stk)
  }

  function WriteI16Op(address: word, ops: Stk, stk: Stk): Outcome<Effect> {
    var (v, ops1) :- Pop(ops, 2);
    var stk1 :- WriteAt(stk, v, address);
    Done(Effect(ops1, stk1, Silent))
  }

  /** The instructions that touch the call stack without being calls. */
  function LocalOp(env: Env, i: Instr, ops: Stk, stk: Stk): Outcome<Effect>
    requires i.Valid()
    requires i.op in {AllocLocal, PushLocal, PopLocal, ReadI16, WriteI16, AllocI16, FreeI16}
  {
    match i.op
    case AllocLocal => AllocLocalOp(ops, stk)
    case PushLocal => PushLocalOp(env, ops, stk)
    case PopLocal => PopLocalOp(env, ops, stk)
    case ReadI16 => ReadI16Op(i.Word(), ops, stk)
    case WriteI16 => WriteI16Op(i.Word(), ops, stk)
    case AllocI16 => Done(Effect(ops, stk.(sp := Wrap(stk.sp + 2)), Silent))
    case FreeI16 => Done(Effect(ops, stk.(sp := Wrap(stk.sp - 2)), Silent))
  }

  /** Every instruction that does not assign `ip`, after its operand was fetched. */
  function DataOp(env: Env, i: Instr, ops: Stk, stk: Stk, input: Input): Outcome<Effect>
    requires i.Valid() && !IsControl(i.op)
  {
    match i.op
    case Halt => Exited(0)
    case Delay => Done(Effect(ops, stk, Silent))
    case Compare(cmp) => CompareOp(cmp, ops, stk)
    case U16(alu) => U16Op(alu, ops, stk)
    case I16(alu) => I16Op(alu, ops, stk)
    case Bits(bit) => BitsOp(bit, ops, stk)
    case NotU16 => NotOp(ops, stk)
    case F32(alu) => F32Op(input.float, ops, stk)
    case PushLU16 => OnOps(Push(ops, i.arg), stk)
    case PushLI16 => OnOps(Push(ops, i.arg), stk)
    case PushLF32 => OnOps(Push(ops, i.arg), stk)
    case PushMillis => OnOps(PushWord(ops, input.millis), stk)
    case PopU16 => DropOp(2, ops, stk)
    case PopF32 => DropOp(4, ops, stk)
    case PopI16 => Done(Effect(ops.(sp := Wrap(ops.sp - 2)), stk, Silent))
    case TopU16 => TopOp(2, ops, stk)
    case TopI16 => TopOp(2, ops, stk)
    case TopF32 => TopOp(4, ops, stk)
    case PushU16 => PushU16Op(env, i.Word(), ops, stk, input)
    case PopAU16 => PopAddressOp(env, i.Word(), ops, stk)
    case SysCall => Builtin(env, i.Word(), ops, stk, input)
    case AsyncCall => AsyncCallOp(i.Word(), ops, stk, input)
    case AsyncReturn => Done(Effect(ops, stk, Ended))
    case AllocLocal | PushLocal | PopLocal | ReadI16 | WriteI16 | AllocI16 | FreeI16 => LocalOp(env, i, ops, stk)
  }

  // ----- control -----

  /** `call_address`: the return address and the caller's `bp` go on the call stack itself. */
  function PushFrame(stk: Stk, back: word): Outcome<Stk> {
    var s1 :- PushWord(stk, back);
    var s2 :- PushWord(s1, stk.bp);
    Done(s2.(bp := s2.sp))
  }

  /** `ret`: the popped return address and the stack of the caller. */
  function PopFrame(stk: Stk): Outcome<(word, Stk)> {
    var (bp, s1) :- PopWord(stk.(sp := stk.bp));
    var (back, s2) :- PopWord(s1.(bp := bp));
    Done((back, s2))
  }

  function CallAddress(th: Thread, address: word): Outcome<Thread> {
    var stk :- PushFrame(th.stk, th.ip);
    Done(Thread(address, th.ops, stk))
  }

  /** One instruction; `th.ip` is already past it. */
  function Execute(env: Env, i: Instr, th: Thread, input: Input): Outcome<(Thread, Event)>
    requires i.Valid()
  {
    if i.op.Jump? then
      Done((th.(ip := i.Word()), Silent))
    else if i.op.PopJumpIfFalse? then
      var (flag, ops1) :- Pop(th.ops, 1);
      Done((Thread(if flag[0] == 0 then i.Word() else th.ip, ops1, th.stk), Silent))
    else if i.op.Call? then
      var t :- CallAddress(th, i.Word());
      Done((t, Silent))
    else if i.op.Return? then
      var (back, stk) :- PopFrame(th.stk);
      Done((Thread(back, th.ops, stk), Silent))
    else
      var e :- DataOp(env, i, th.ops, th.stk, input);
      Done((Thread(th.ip, e.ops, e.stk), e.event))
  }

  // ----- fetch -----

  /** The program image: code followed by data. */
  datatype Image = Image(program: seq<byte>, dataAddress: nat, platform: Platform) {
    predicate Valid() { dataAddress <= |program| < 65536 }

    function Context(): Env
      requires Valid()
    {
      Env(program[dataAddress..], platform)
    }
  }

  /** The handler of `op`, with `ip` past the opcode: fetch the operand, then execute. A fetch that
      leaves the program reads memory that is not the program, or nothing at all; `allocate_local`
      pops before it fetches. */
  function Handle(img: Image, op: Op, th: Thread, input: Input): Outcome<(Thread, Event)>
    requires img.Valid()
  {
    var next := th.ip + Size(op) - 1;
    if Size(op) > 1 && next > |img.program| then
      if op.AllocLocal? && th.ops.sp < 2 then Exited(FAILURE) else Undefined
    else
      Execute(img.Context(), Instr(op, if Size(op) == 1 then [] else img.program[th.ip..next]), th.(ip := Wrap(next)), input)
  }

  /** `cpu_fetch_data` of an opcode and `cpu_execute`: an unknown opcode is skipped. */
  function Step(img: Image, th: Thread, input: Input): Outcome<(Thread, Event)>
    requires img.Valid()
  {
    if th.ip >= |img.program| then Undefined
    else
      var past := th.(ip := th.ip + 1);
      match Decode(img.program[th.ip])
      case None => Done((past, Silent))
      case Some(op) => Handle(img, op, past, input)
  }

  /** An instruction lying at `ip` is the one executed, with `ip` past it. */
  lemma StepFetches(img: Image, th: Thread, i: Instr, input: Input)
    requires img.Valid() && i.Valid()
    requires th.ip + Size(i.op) <= |img.program|
    requires img.program[th.ip] == Code(i.op)
    requires img.program[th.ip + 1..th.ip + Size(i.op)] == i.arg
    ensures Step(img, th, input) == Execute(img.Context(), i, th.(ip := th.ip + Size(i.op)), input)
  {
    hide Execute, Code, Decode, Size;
    DecodeCode(i.op);
  }

  /** A handler that does not assign `ip` itself consumes exactly the operand bytes of the compiler's size table. */
  lemma StepAdvances(img: Image, th: Thread, input: Input)
    requires img.Valid() && Step(img, th, input).Done? && Decode(img.program[th.ip]).Some?
    requires !IsControl(Decode(img.program[th.ip]).value)
    ensures var size := Size(Decode(img.program[th.ip]).value);
            th.ip + size <= |img.program| && Step(img, th, input).value.0.ip == th.ip + size
  {
    hide DataOp, Decode, Size;
  }

  /** The events of a run and how it ended. */
  datatype Trace<T> = Trace(events: seq<Event>, end: Outcome<T>) {
    function After(e: Event): Trace<T> { Trace([e] + events, end) }
  }

  /** One instruction per input, until the inputs run out or the machine stops. */
  function Run(img: Image, th: Thread, ins: seq<Input>): Trace<Thread>
    requires img.Valid()
    decreases |ins|
  {
    if ins == [] then Trace([], Done(th))
    else
      var s := Step(img, th, ins[0]);
      if s.Done? then Run(img, s.value.0, ins[1..]).After(s.value.1)
      else Trace([], s.PropagateFailure())
  }
}
