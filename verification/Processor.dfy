/** The processor in the form of the source: `ip` and two stack objects updated by the instruction
    handlers of src/instructions.c and src/builtin.c, each proved to do what the machine model says. */
module Processor {
  import opened Bytes
  import opened ByteStack
  import opened Isa
  import opened Machine

  class Processor {
    const image: Image
    var ip: word
    var opstack: Stack
    var stack: Stack

    ghost predicate Valid()
      reads this, opstack, stack
    {
      image.Valid() && opstack != stack && opstack.data != stack.data && opstack.Valid() && stack.Valid()
    }

    ghost function Abs(): Thread
      reads this, opstack, opstack.data, stack, stack.data
    {
      Thread(ip, opstack.Abs(), stack.Abs())
    }

    /** A handler did what the model says. */
    ghost predicate Did(r: Outcome<Event>, spec: Outcome<(Thread, Event)>)
      reads this, opstack, opstack.data, stack, stack.data
    {
      match spec
      case Done(p) => r == Done(p.1) && Abs() == p.0
      case Exited(c) => r == Exited(c)
      case Undefined => r == Undefined
    }

    /** The same for the part of a handler after the operand fetch. */
    ghost predicate DidEffect(r: Outcome<Event>, spec: Outcome<Effect>)
      reads this, opstack, opstack.data, stack, stack.data
    {
      match spec
      case Done(e) => r == Done(e.event) && opstack.Abs() == e.ops && stack.Abs() == e.stk
      case Exited(c) => r == Exited(c)
      case Undefined => r == Undefined
    }

    /** The word at `ip`. */
    ghost function Literal(): word
      reads this
      requires ip + 2 <= |image.program|
    {
      ToWord(image.program[ip], image.program[ip + 1])
    }

    constructor (image: Image, opstack: Stack, stack: Stack)
      requires image.Valid() && opstack != stack && opstack.data != stack.data && opstack.Valid() && stack.Valid()
      ensures Valid() && this.image == image && this.opstack == opstack && this.stack == stack && ip == 0
    {
      this.image, this.ip, this.opstack, this.stack := image, 0, opstack, stack;
    }

    /** `cpu_fetch_data`: past the end it reads outside the program or leaves the value unset. */
    method FetchData(size: nat) returns (r: Outcome<seq<byte>>)
      requires Valid() && size > 0
      modifies this`ip
      ensures if old(ip) + size <= |image.program|
              then ip == old(ip) + size && r == Done(image.program[old(ip)..old(ip) + size])
              else r == Undefined && ip == old(ip)
    {
      if ip < |image.program| {
        if ip + size > |image.program| { return Undefined; }
        r := Done(image.program[ip..ip + size]);
        ip := ip + size;
      } else {
        r := Undefined;
      }
    }

    method FetchWord() returns (r: Outcome<word>)
      requires Valid()
      modifies this`ip
      ensures if old(ip) + 2 <= |image.program|
              then ip == old(ip) + 2 && r == Done(ToWord(image.program[old(ip)], image.program[old(ip) + 1]))
              else r == Undefined && ip == old(ip)
    {
      var value := FetchData(2);
      if !value.Done? { return value.PropagateFailure(); }
      r := Done(ToWord(value.value[0], value.value[1]));
    }

    method PopOpWord() returns (r: Outcome<word>)
      requires Valid()
      modifies opstack`sp
      ensures match PopWord(old(opstack.Abs()))
              case Done(p) => r == Done(p.0) && opstack.Abs() == p.1
              case Exited(c) => r == Exited(c)
              case Undefined => r == Undefined
    {
      var value := opstack.PopData(2);
      if !value.Done? { return value.PropagateFailure(); }
      r := Done(ToWord(value.value[0], value.value[1]));
    }

    /** Both operands of an instruction: the second one is on top. */
    method PopOpPair() returns (r: Outcome<(word, word)>)
      requires Valid()
      modifies opstack`sp
      ensures match PopPair(old(opstack.Abs()))
              case Done(p) => r == Done((p.0, p.1)) && opstack.Abs() == p.2
              case Exited(c) => r == Exited(c)
              case Undefined => r == Undefined
    {
      hide PopWord;
      var b := PopOpWord();
      if !b.Done? { return b.PropagateFailure(); }
      var a := PopOpWord();
      if !a.Done? { return a.PropagateFailure(); }
      r := Done((a.value, b.value));
    }

    method PushOpWord(w: word) returns (r: Outcome<()>)
      requires Valid()
      modifies opstack`sp, opstack.data
      ensures Agrees(r, PushWord(old(opstack.Abs()), w), opstack.Abs())
    {
      r := opstack.PushData(LowHigh(w));
    }

    // ----- control -----

    method Delay(input: Input) returns (r: Outcome<Event>)
      requires Valid()
      modifies this`ip
      ensures Did(r, Handle(image, Op.Delay, old(Abs()), input))
    {
      Operand(image, Op.Delay, Abs(), input);
      hide Handle;
      var milliseconds := FetchWord();
      if !milliseconds.Done? { return milliseconds.PropagateFailure(); }
      return Done(Silent);
    }

    method Jump(input: Input) returns (r: Outcome<Event>)
      requires Valid()
      modifies this`ip
      ensures Did(r, Handle(image, Op.Jump, old(Abs()), input))
    {
      var address := FetchWord();
      if !address.Done? { return address.PropagateFailure(); }
      ip := address.value;
      return Done(Silent);
    }

    method PopJumpIfFalse(input: Input) returns (r: Outcome<Event>)
      requires Valid()
      modifies this`ip, opstack`sp
      ensures Did(r, Handle(image, Op.PopJumpIfFalse, old(Abs()), input))
    {
      hide Pop;
      BranchIs(image, Abs(), input);
      hide Handle;
      var address := FetchWord();
      if !address.Done? { return address.PropagateFailure(); }
      var result := opstack.PopData(1);
      if !result.Done? { return result.PropagateFailure(); }
      if result.value[0] == 0 { ip := address.value; }
      return Done(Silent);
    }

    /** `call_address`: `bp` is pushed after `ip` was redirected. */
    method CallAddress(address: word) returns (r: Outcome<()>)
      requires Valid()
      modifies this`ip, stack`sp, stack`bp, stack.data
      ensures match Machine.CallAddress(old(Abs()), address)
              case Done(t) => r.Done? && Abs() == t
              case Exited(c) => r == Exited(c)
              case Undefined => r == Undefined
    {
      r := stack.PushData(LowHigh(ip));
      if !r.Done? { return; }
      ip := address;
      r := stack.PushData(LowHigh(stack.bp));
      if !r.Done? { return; }
      stack.bp := stack.sp;
    }

    method Call(input: Input) returns (r: Outcome<Event>)
      requires Valid()
      modifies this`ip, stack`sp, stack`bp, stack.data
      ensures Did(r, Handle(image, Op.Call, old(Abs()), input))
    {
      hide Machine.CallAddress;
      CallIs(image, Abs(), input);
      hide Handle;
      var address := FetchWord();
      if !address.Done? { return address.PropagateFailure(); }
      var done := CallAddress(address.value);
      if !done.Done? { return done.PropagateFailure(); }
      return Done(Silent);
    }

    method PopStackWord() returns (r: Outcome<word>)
      requires Valid()
      modifies stack`sp
      ensures match PopWord(old(stack.Abs()))
              case Done(p) => r == Done(p.0) && stack.Abs() == p.1
              case Exited(c) => r == Exited(c)
              case Undefined => r == Undefined
    {
      var value := stack.PopData(2);
      if !value.Done? { return value.PropagateFailure(); }
      r := Done(ToWord(value.value[0], value.value[1]));
    }

    method Ret(input: Input) returns (r: Outcome<Event>)
      requires Valid()
      modifies this`ip, stack`sp, stack`bp
      ensures Did(r, Handle(image, Op.Return, old(Abs()), input))
    {
      hide PopWord;
      ReturnIs(image, Abs(), input);
      hide Handle;
      stack.sp := stack.bp;
      var bp := PopStackWord();
      if !bp.Done? { return bp.PropagateFailure(); }
      stack.bp := bp.value;
      var address := PopStackWord();
      if !address.Done? { return address.PropagateFailure(); }
      ip := address.value;
      return Done(Silent);
    }

    // ----- operand stack -----

    method Compare(cmp: Cmp, input: Input) returns (r: Outcome<Event>)
      requires Valid()
      modifies opstack`sp, opstack.data
      ensures Did(r, Handle(image, Op.Compare(cmp), old(Abs()), input))
    {
      NoOperand(image, Op.Compare(cmp), Abs(), input);
      assert DataOp(image.Context(), Instr(Op.Compare(cmp), []), opstack.Abs(), stack.Abs(), input)
          == CompareOp(cmp, opstack.Abs(), stack.Abs());
      hide Handle, DataOp;
      hide PopPair;
      var both := PopOpPair();
      if !both.Done? { return both.PropagateFailure(); }
      var (a, b) := both.value;
      var result: byte := if CmpHolds(cmp, Signed(a), Signed(b)) then 1 else 0;
      var done := opstack.PushData([result]);
      if !done.Done? { return done.PropagateFailure(); }
      return Done(Silent);
    }

    method ArithmeticU16(alu: Alu, input: Input) returns (r: Outcome<Event>)
      requires Valid()
      modifies opstack`sp, opstack.data
      ensures Did(r, Handle(image, Op.U16(alu), old(Abs()), input))
    {
      NoOperand(image, Op.U16(alu), Abs(), input);
      assert DataOp(image.Context(), Instr(Op.U16(alu), []), opstack.Abs(), stack.Abs(), input)
          == U16Op(alu, opstack.Abs(), stack.Abs());
      hide Handle, DataOp;
      hide PopPair, PushWord, U16Result;
      var both := PopOpPair();
      if !both.Done? { return both.PropagateFailure(); }
      var (a, b) := both.value;
      var result := U16Result(alu, a, b);
      if !result.Done? { return result.PropagateFailure(); }
      var done := PushOpWord(result.value);
      if !done.Done? { return done.PropagateFailure(); }
      return Done(Silent);
    }

    method ArithmeticI16(alu: Alu, input: Input) returns (r: Outcome<Event>)
      requires Valid()
      modifies opstack`sp, opstack.data
      ensures Did(r, Handle(image, Op.I16(alu), old(Abs()), input))
    {
      NoOperand(image, Op.I16(alu), Abs(), input);
      assert DataOp(image.Context(), Instr(Op.I16(alu), []), opstack.Abs(), stack.Abs(), input)
          == I16Op(alu, opstack.Abs(), stack.Abs());
      hide Handle, DataOp;
      hide PopPair, PushWord, I16Result;
      var both := PopOpPair();
      if !both.Done? { return both.PropagateFailure(); }
      var (a, b) := both.value;
      var result := I16Result(alu, a, b);
      if !result.Done? { return result.PropagateFailure(); }
      var done := PushOpWord(result.value);
      if !done.Done? { return done.PropagateFailure(); }
      return Done(Silent);
    }

    method BitwiseU16(bit: BitOp, input: Input) returns (r: Outcome<Event>)
      requires Valid()
      modifies opstack`sp, opstack.data
      ensures Did(r, Handle(image, Op.Bits(bit), old(Abs()), input))
    {
      NoOperand(image, Op.Bits(bit), Abs(), input);
      assert DataOp(image.Context(), Instr(Op.Bits(bit), []), opstack.Abs(), stack.Abs(), input)
          == BitsOp(bit, opstack.Abs(), stack.Abs());
      hide Handle, DataOp;
      hide PopPair, PushWord, BitResult;
      var both := PopOpPair();
      if !both.Done? { return both.PropagateFailure(); }
      var (a, b) := both.value;
      var result := BitResult(bit, a, b);
      if !result.Done? { return result.PropagateFailure(); }
      var done := PushOpWord(result.value);
      if !done.Done? { return done.PropagateFailure(); }
      return Done(Silent);
    }

    method BitwiseNot(input: Input) returns (r: Outcome<Event>)
      requires Valid()
      modifies opstack`sp, opstack.data
      ensures Did(r, Handle(image, Op.NotU16, old(Abs()), input))
    {
      NoOperand(image, Op.NotU16, Abs(), input);
      assert DataOp(image.Context(), Instr(Op.NotU16, []), opstack.Abs(), stack.Abs(), input)
          == NotOp(opstack.Abs(), stack.Abs());
      hide Handle, DataOp;
      hide PopWord, PushWord;
      var a := PopOpWord();
      if !a.Done? { return a.PropagateFailure(); }
      var done := PushOpWord(65535 - a.value);
      if !done.Done? { return done.PropagateFailure(); }
      return Done(Silent);
    }

    method ArithmeticF32(alu: Alu, input: Input) returns (r: Outcome<Event>)
      requires Valid()
      modifies opstack`sp, opstack.data
      ensures Did(r, Handle(image, Op.F32(alu), old(Abs()), input))
    {
      NoOperand(image, Op.F32(alu), Abs(), input);
      assert DataOp(image.Context(), Instr(Op.F32(alu), []), opstack.Abs(), stack.Abs(), input)
          == F32Op(input.float, opstack.Abs(), stack.Abs());
      hide Handle, DataOp;
      hide Pop, Push;
      var b := opstack.PopData(4);
      if !b.Done? { return b.PropagateFailure(); }
      var a := opstack.PopData(4);
      if !a.Done? { return a.PropagateFailure(); }
      var done := opstack.PushData(input.float);
      if !done.Done? { return done.PropagateFailure(); }
      return Done(Silent);
    }

    /** The literal instructions: two operand bytes, or four for a float. */
    method PushLiteral(op: Op, input: Input) returns (r: Outcome<Event>)
      requires Valid() && op in {PushLU16, PushLI16, PushLF32}
      modifies this`ip, opstack`sp, opstack.data
      ensures Did(r, Handle(image, op, old(Abs()), input))
    {
      hide Push, Handle, DataOp;
      LiteralIs(image, op, Abs(), input);
      var value := FetchData(if op.PushLF32? then 4 else 2);
      if !value.Done? { return value.PropagateFailure(); }
      var done := opstack.PushData(value.value);
      if !done.Done? { return done.PropagateFailure(); }
      return Done(Silent);
    }

    method PushMillis(input: Input) returns (r: Outcome<Event>)
      requires Valid()
      modifies opstack`sp, opstack.data
      ensures Did(r, Handle(image, Op.PushMillis, old(Abs()), input))
    {
      NoOperand(image, Op.PushMillis, Abs(), input);
      assert DataOp(image.Context(), Instr(Op.PushMillis, []), opstack.Abs(), stack.Abs(), input)
          == OnOps(PushWord(opstack.Abs(), input.millis), stack.Abs());
      hide Handle, DataOp;
      hide PushWord;
      var done := PushOpWord(input.millis);
      if !done.Done? { return done.PropagateFailure(); }
      return Done(Silent);
    }

    method PopValue(op: Op, input: Input) returns (r: Outcome<Event>)
      requires Valid() && op in {PopU16, PopF32}
      modifies opstack`sp
      ensures Did(r, Handle(image, op, old(Abs()), input))
    {
      NoOperand(image, op, Abs(), input);
      hide Handle;
      hide Pop;
      var value := opstack.PopData(if op.PopU16? then 2 else 4);
      if !value.Done? { return value.PropagateFailure(); }
      return Done(Silent);
    }

    /** `pop_I16` moves `sp` without a check. */
    method PopI16(input: Input) returns (r: Outcome<Event>)
      requires Valid()
      modifies opstack`sp
      ensures Did(r, Handle(image, Op.PopI16, old(Abs()), input))
    {
      NoOperand(image, Op.PopI16, Abs(), input);
      hide Handle;
      opstack.sp := Wrap(opstack.sp - 2);
      return Done(Silent);
    }

    method Top(op: Op, input: Input) returns (r: Outcome<Event>)
      requires Valid() && op in {TopU16, TopI16, TopF32}
      ensures Did(r, Handle(image, op, old(Abs()), input))
    {
      NoOperand(image, op, Abs(), input);
      hide Handle;
      hide ReadAt, Wrap;
      var size: nat := if op.TopF32? then 4 else 2;
      var top := opstack.ReadDataAt(size, Wrap(opstack.sp - size));
      if !top.Done? { return top.PropagateFailure(); }
      return Done(Printed([top.value]));
    }

    // ----- ports and constants -----

    method PushU16(input: Input) returns (r: Outcome<Event>)
      requires Valid()
      modifies this`ip, opstack`sp, opstack.data
      ensures Did(r, Handle(image, Op.PushU16, old(Abs()), input))
    {
      Operand(image, Op.PushU16, Abs(), input);
      assert ip + 2 <= |image.program| ==>
          Handle(image, Op.PushU16, Abs(), input) == After(ip + 2, PushU16Op(image.Context(), Literal(), opstack.Abs(), stack.Abs(), input));
      hide Handle, DataOp;
      hide PushWord;
      var address := FetchWord();
      if !address.Done? { return address.PropagateFailure(); }
      var value: word;
      if address.value < image.platform.ports {
        value := input.port;
      } else {
        var at := image.dataAddress + address.value - image.platform.ports;
        if at >= |image.program| { return Undefined; }
        value := image.program[at];
      }
      var done := PushOpWord(value);
      if !done.Done? { return done.PropagateFailure(); }
      return Done(Silent);
    }

    method PopAddressU16(input: Input) returns (r: Outcome<Event>)
      requires Valid()
      modifies this`ip, opstack`sp
      ensures Did(r, Handle(image, Op.PopAU16, old(Abs()), input))
    {
      Operand(image, Op.PopAU16, Abs(), input);
      assert ip + 2 <= |image.program| ==>
          Handle(image, Op.PopAU16, Abs(), input) == After(ip + 2, PopAddressOp(image.Context(), Literal(), opstack.Abs(), stack.Abs()));
      hide Handle, DataOp;
      hide PopWord;
      var address := FetchWord();
      if !address.Done? { return address.PropagateFailure(); }
      var value := PopOpWord();
      if !value.Done? { return value.PropagateFailure(); }
      if address.value < image.platform.ports {
        return Done(PortWrite(address.value, value.value % 256));
      }
      return Exited(FAILURE);
    }

    // ----- call stack -----

    /** `allocate_local` pops the size before it fetches its operand, and checks nothing. */
    method AllocateLocal(input: Input) returns (r: Outcome<Event>)
      requires Valid()
      modifies this`ip, opstack`sp, stack`sp
      ensures Did(r, Handle(image, Op.AllocLocal, old(Abs()), input))
    {
      hide PopWord, DataOp;
      PopWordExits(opstack.Abs());
      AllocIs(image.Context(), opstack.Abs(), stack.Abs(), input);
      var size := PopOpWord();
      if !size.Done? { return size.PropagateFailure(); }
      var address := FetchWord();
      if !address.Done? { return address.PropagateFailure(); }
      stack.sp := Wrap(stack.sp + size.value);
      return Done(Silent);
    }

    /** `push_local`. */
    method ReadLocal() returns (r: Outcome<Event>)
      requires Valid()
      modifies opstack`sp, opstack.data
      ensures DidEffect(r, PushLocalOp(image.Context(), old(opstack.Abs()), old(stack.Abs())))
    {
      hide PopPair, Push, ReadAt, Wrap;
      var both := PopOpPair();
      if !both.Done? { return both.PropagateFailure(); }
      var (size, address) := both.value;
      var value := stack.ReadDataAt(size, Wrap(stack.bp + address));
      if !value.Done? { return value.PropagateFailure(); }
      if size > image.platform.pointer { return Undefined; }
      var done := opstack.PushData(value.value);
      if !done.Done? { return done.PropagateFailure(); }
      return Done(Silent);
    }

    method PushLocal(input: Input) returns (r: Outcome<Event>)
      requires Valid()
      modifies opstack`sp, opstack.data
      ensures Did(r, Handle(image, Op.PushLocal, old(Abs()), input))
    {
      hide PushLocalOp;
      LocalsAre(image, Abs(), input);
      hide Handle;
      r := ReadLocal();
    }

    /** `pop_local`. */
    method WriteLocal() returns (r: Outcome<Event>)
      requires Valid()
      modifies opstack`sp, stack`sp, stack.data
      ensures DidEffect(r, PopLocalOp(image.Context(), old(opstack.Abs()), old(stack.Abs())))
    {
      hide PopPair, Pop, WriteAt, Wrap;
      var both := PopOpPair();
      if !both.Done? { return both.PropagateFailure(); }
      var (size, address) := both.value;
      var value := opstack.PopData(size);
      if !value.Done? { return value.PropagateFailure(); }
      if size > image.platform.pointer { return Undefined; }
      var done := stack.WriteDataAt(value.value, Wrap(stack.bp + address));
      if !done.Done? { return done.PropagateFailure(); }
      return Done(Silent);
    }

    method PopLocal(input: Input) returns (r: Outcome<Event>)
      requires Valid()
      modifies opstack`sp, stack`sp, stack.data
      ensures Did(r, Handle(image, Op.PopLocal, old(Abs()), input))
    {
      hide PopLocalOp;
      LocalsAre(image, Abs(), input);
      hide Handle;
      r := WriteLocal();
    }

    method LoadI16(input: Input) returns (r: Outcome<Event>)
      requires Valid()
      modifies this`ip, opstack`sp, opstack.data
      ensures Did(r, Handle(image, Op.ReadI16, old(Abs()), input))
    {
      Operand(image, Op.ReadI16, Abs(), input);
      assert ip + 2 <= |image.program| ==>
          Handle(image, Op.ReadI16, Abs(), input) == After(ip + 2, ReadI16Op(Literal(), opstack.Abs(), stack.Abs()));
      hide Handle, DataOp;
      hide Push, ReadAt;
      var address := FetchWord();
      if !address.Done? { return address.PropagateFailure(); }
      var value := stack.ReadDataAt(2, address.value);
      if !value.Done? { return value.PropagateFailure(); }
      var done := opstack.PushData(value.value);
      if !done.Done? { return done.PropagateFailure(); }
      return Done(Silent);
    }

    method StoreI16(input: Input) returns (r: Outcome<Event>)
      requires Valid()
      modifies this`ip, opstack`sp, stack`sp, stack.data
      ensures Did(r, Handle(image, Op.WriteI16, old(Abs()), input))
    {
      Operand(image, Op.WriteI16, Abs(), input);
      assert ip + 2 <= |image.program| ==>
          Handle(image, Op.WriteI16, Abs(), input) == After(ip + 2, WriteI16Op(Literal(), opstack.Abs(), stack.Abs()));
      hide Handle, DataOp;
      hide Pop, WriteAt;
      var address := FetchWord();
      if !address.Done? { return address.PropagateFailure(); }
      var value := opstack.PopData(2);
      if !value.Done? { return value.PropagateFailure(); }
      var done := stack.WriteDataAt(value.value, address.value);
      if !done.Done? { return done.PropagateFailure(); }
      return Done(Silent);
    }

    /** `var_I16` and `del_I16` fetch an operand they do not use and move `sp` without a check. */
    method MoveI16(op: Op, input: Input) returns (r: Outcome<Event>)
      requires Valid() && op in {AllocI16, FreeI16}
      modifies this`ip, stack`sp
      ensures Did(r, Handle(image, op, old(Abs()), input))
    {
      Operand(image, op, Abs(), input);
      assert ip + 2 <= |image.program| ==>
          Handle(image, op, Abs(), input)
          == Done((Thread(ip + 2, opstack.Abs(), stack.Abs().(sp := Wrap(if op.AllocI16? then stack.sp + 2 else stack.sp - 2))), Silent));
      hide DataOp, Handle, Wrap;
      var address := FetchWord();
      if !address.Done? { return address.PropagateFailure(); }
      stack.sp := Wrap(if op.AllocI16? then stack.sp + 2 else stack.sp - 2);
      return Done(Silent);
    }

    // ----- tasks and builtins -----

    /** `async_call` up to the creation of the task, which the event asks for. At the task limit
        nothing is popped. */
    method AsyncCall(input: Input) returns (r: Outcome<Event>)
      requires Valid()
      modifies this`ip, opstack`sp
      ensures Did(r, Handle(image, Op.AsyncCall, old(Abs()), input))
    {
      Operand(image, Op.AsyncCall, Abs(), input);
      assert ip + 2 <= |image.program| ==>
          Handle(image, Op.AsyncCall, Abs(), input) == After(ip + 2, AsyncCallOp(Literal(), opstack.Abs(), stack.Abs(), input));
      hide Handle, DataOp;
      hide PopWord;
      var address := FetchWord();
      if !address.Done? { return address.PropagateFailure(); }
      if !input.maySpawn { return Done(Silent); }
      var handler := PopOpWord();
      if !handler.Done? { return handler.PropagateFailure(); }
      return Done(Spawn(address.value, handler.value));
    }

    // ----- builtins -----

    /** `builtin_print`: the text itself is not modelled, only the values it takes from the stack. */
    method Print() returns (r: Outcome<Event>)
      requires Valid()
      modifies opstack`sp
      ensures DidEffect(r, Builtin(image.Context(), 0, old(opstack.Abs()), stack.Abs(), NoInput()))
    {
      hide Pop, PopWord;
      var address := PopOpWord();
      if !address.Done? { return address.PropagateFailure(); }
      if address.value < image.platform.ports { return Undefined; }
      ghost var env := image.Context();
      ghost var start := opstack.Abs();
      var at: int := image.dataAddress + address.value - image.platform.ports;
      ghost var first := at - image.dataAddress;
      var values: seq<seq<byte>> := [];
      PrintedStart(Machine.Print(env, first, start));
      while at < |image.program| && image.program[at] != 0
        invariant at >= image.dataAddress
        invariant opstack.Abs().data == start.data
        invariant PrintedSoFar(Machine.Print(env, first, start), values, Machine.Print(env, at - image.dataAddress, opstack.Abs()))
        decreases |image.program| - at
      {
        PrintStep(env, at - image.dataAddress, opstack.Abs());
        var c := image.program[at];
        if c != '%' as int {
          at := at + 1;
        } else {
          if at + 1 >= |image.program| { return Undefined; }
          var n := PrintSize(image.platform, image.program[at + 1]);
          if n > 0 {
            var value := opstack.PopData(n);
            if !value.Done? { return value.PropagateFailure(); }
            PrintedMore(Machine.Print(env, first, start), values, value.value,
                        Machine.Print(env, at + 2 - image.dataAddress, opstack.Abs()));
            values := values + [value.value];
          }
          at := at + 2;
        }
      }
      if at >= |image.program| { return Undefined; }
      PrintEnd(env, at - image.dataAddress, opstack.Abs(), values);
      return Done(Printed(values));
    }

    /** `builtin_send_message` up to the delivery, which the event asks for. */
    method SendMessage() returns (r: Outcome<Event>)
      requires Valid()
      modifies opstack`sp
      ensures DidEffect(r, Builtin(image.Context(), 3, old(opstack.Abs()), stack.Abs(), NoInput()))
    {
      hide PopWord;
      var payloadSize := PopOpWord();
      if !payloadSize.Done? { return payloadSize.PropagateFailure(); }
      var payloadAddress := PopOpWord();
      if !payloadAddress.Done? { return payloadAddress.PropagateFailure(); }
      var taskDst := PopOpWord();
      if !taskDst.Done? { return taskDst.PropagateFailure(); }
      var at := image.dataAddress + payloadAddress.value - image.platform.ports;
      if at < image.dataAddress || at + payloadSize.value > |image.program| { return Undefined; }
      var payload := image.program[at..at + payloadSize.value];
      SliceOfSlice(image.program, image.dataAddress, |image.program|, at - image.dataAddress, at - image.dataAddress + payloadSize.value);
      assert image.program[image.dataAddress..] == image.program[image.dataAddress..|image.program|];
      return Done(Send(taskDst.value, payload));
    }

    method SysCall(input: Input) returns (r: Outcome<Event>)
      requires Valid()
      modifies this`ip, opstack`sp, opstack.data
      ensures Did(r, Handle(image, Op.SysCall, old(Abs()), input))
    {
      hide Builtin, PushWord;
      Operand(image, Op.SysCall, Abs(), input);
      assert ip + 2 <= |image.program| ==>
          Handle(image, Op.SysCall, Abs(), input)
          == After(ip + 2, Builtin(image.Context(), Literal(), opstack.Abs(), stack.Abs(), input));
      hide Handle, DataOp;
      var id := FetchWord();
      if !id.Done? { return id.PropagateFailure(); }
      BuiltinIs(image.Context(), id.value, opstack.Abs(), stack.Abs(), input);
      if id.value == 0 {
        r := Print();
      } else if id.value == 3 {
        r := SendMessage();
      } else if id.value == 4 {
        var done := PushOpWord(input.memory);
        if !done.Done? { return done.PropagateFailure(); }
        return Done(Silent);
      } else {
        return Done(Silent);
      }
    }

    // ----- dispatch -----

    /** `cpu_execute` on a known opcode. The new task of ASYNC_CALL, the message of SYSCALL 3 and the
        removal of ASYNC_RETURN are left to the caller as events. */
    method Execute(op: Op, input: Input) returns (r: Outcome<Event>)
      requires Valid()
      modifies this`ip, opstack`sp, opstack.data, stack`sp, stack`bp, stack.data
      ensures Did(r, Handle(image, op, old(Abs()), input))
    {
      hide Handle;
      match op
      case Halt => HaltIs(image, Abs(), input); r := Exited(0);
      case Delay => r := Delay(input);
      case Jump => r := Jump(input);
      case PopJumpIfFalse => r := PopJumpIfFalse(input);
      case Compare(cmp) => r := Compare(cmp, input);
      case Call => r := Call(input);
      case Return => r := Ret(input);
      case SysCall => r := SysCall(input);
      case AsyncCall => r := AsyncCall(input);
      case AsyncReturn => AsyncReturnIs(image, Abs(), input); r := Done(Ended);
      case PushLU16 | PushLI16 | PushLF32 => r := PushLiteral(op, input);
      case PopU16 | PopF32 => r := PopValue(op, input);
      case PopI16 => r := PopI16(input);
      case TopU16 | TopI16 | TopF32 => r := Top(op, input);
      case U16(alu) => r := ArithmeticU16(alu, input);
      case I16(alu) => r := ArithmeticI16(alu, input);
      case F32(alu) => r := ArithmeticF32(alu, input);
      case Bits(bit) => r := BitwiseU16(bit, input);
      case NotU16 => r := BitwiseNot(input);
      case PushMillis => r := PushMillis(input);
      case PushU16 => r := PushU16(input);
      case PopAU16 => r := PopAddressU16(input);
      case AllocLocal => r := AllocateLocal(input);
      case PushLocal => r := PushLocal(input);
      case PopLocal => r := PopLocal(input);
      case ReadI16 => r := LoadI16(input);
      case WriteI16 => r := StoreI16(input);
      case AllocI16 | FreeI16 => r := MoveI16(op, input);
    }

    /** One turn of the instruction loop of `cpu_run_cycle`: the processor refines the machine. */
    method Step(input: Input) returns (r: Outcome<Event>)
      requires Valid()
      modifies this`ip, opstack`sp, opstack.data, stack`sp, stack`bp, stack.data
      ensures Did(r, Machine.Step(image, old(Abs()), input))
    {
      hide Handle;
      var opcode := FetchData(1);
      if !opcode.Done? { return opcode.PropagateFailure(); }
      var op := Decode(opcode.value[0]);
      if op.None? { return Done(Silent); }
      r := Execute(op.value, input);
    }
  }

  // ----- what the model says of single instructions -----

  /** The outcome of a handler from the effect of its instruction. */
  function After(ip: word, r: Outcome<Effect>): Outcome<(Thread, Event)> {
    var e :- r;
    Done((Thread(ip, e.ops, e.stk), e.event))
  }

  lemma NoOperand(img: Image, op: Op, th: Thread, input: Input)
    requires img.Valid() && Size(op) == 1 && !IsControl(op)
    ensures Instr(op, []).Valid()
    ensures Handle(img, op, th, input) == After(th.ip, DataOp(img.Context(), Instr(op, []), th.ops, th.stk, input))
  {
    hide DataOp;
  }

  /** The fetched operand is the one the model executes; without one the outcome is undefined. */
  lemma Operand(img: Image, op: Op, th: Thread, input: Input)
    requires img.Valid() && Size(op) > 1 && !IsControl(op) && !op.AllocLocal?
    ensures var next := th.ip + Size(op) - 1;
            && (next > |img.program| ==> Handle(img, op, th, input) == Undefined)
            && (next <= |img.program| ==>
                  && Instr(op, img.program[th.ip..next]).Valid()
                  && (Size(op) == 3 ==> Instr(op, img.program[th.ip..next]).Word() == ToWord(img.program[th.ip], img.program[th.ip + 1]))
                  && Handle(img, op, th, input)
                     == After(next, DataOp(img.Context(), Instr(op, img.program[th.ip..next]), th.ops, th.stk, input)))
  {
    hide DataOp;
  }

  lemma LiteralIs(img: Image, op: Op, th: Thread, input: Input)
    requires img.Valid() && op in {PushLU16, PushLI16, PushLF32}
    ensures var next := th.ip + if op.PushLF32? then 4 else 2;
            && (next > |img.program| ==> Handle(img, op, th, input) == Undefined)
            && (next <= |img.program| ==>
                  var pushed := Push(th.ops, img.program[th.ip..next]);
                  Handle(img, op, th, input)
                  == if pushed.Done? then Done((Thread(next, pushed.value, th.stk), Silent)) else pushed.PropagateFailure())
  {
    Operand(img, op, th, input);
    hide Handle, Push;
  }

  function NoInput(): Input { Input(0, 0, 0, [0, 0, 0, 0], false) }

  lemma PopWordExits(s: Stk)
    ensures PopWord(s).Exited? <==> s.sp < 2
    ensures PopWord(s).Exited? ==> PopWord(s) == Exited(FAILURE)
  {
  }

  lemma AllocIs(env: Env, ops: Stk, stk: Stk, input: Input)
    ensures forall arg: seq<byte> :: |arg| == 2 ==>
              DataOp(env, Instr(AllocLocal, arg), ops, stk, input)
              == match PopWord(ops)
                 case Done(p) => Done(Effect(p.1, stk.(sp := Wrap(stk.sp + p.0)), Silent))
                 case Exited(c) => Exited(c)
                 case Undefined => Undefined
  {
    hide PopWord;
  }

  function Quietly(r: Outcome<Thread>): Outcome<(Thread, Event)> {
    var t :- r;
    Done((t, Silent))
  }

  lemma CallIs(img: Image, th: Thread, input: Input)
    requires img.Valid()
    ensures Handle(img, Op.Call, th, input)
            == if th.ip + 2 > |img.program| then Undefined
               else Quietly(CallAddress(th.(ip := th.ip + 2), ToWord(img.program[th.ip], img.program[th.ip + 1])))
  {
    hide CallAddress;
  }

  lemma ReturnIs(img: Image, th: Thread, input: Input)
    requires img.Valid()
    ensures Handle(img, Op.Return, th, input)
            == match PopFrame(th.stk)
               case Done(p) => Done((Thread(p.0, th.ops, p.1), Silent))
               case Exited(c) => Exited(c)
               case Undefined => Undefined
  {
    hide PopFrame;
  }

  lemma BranchIs(img: Image, th: Thread, input: Input)
    requires img.Valid()
    ensures Handle(img, Op.PopJumpIfFalse, th, input)
            == if th.ip + 2 > |img.program| then Undefined
               else match Pop(th.ops, 1)
                    case Done(p) =>
                      var target := ToWord(img.program[th.ip], img.program[th.ip + 1]);
                      Done((Thread(if |p.0| == 1 && p.0[0] == 0 then target else th.ip + 2, p.1, th.stk), Silent))
                    case Exited(c) => Exited(c)
                    case Undefined => Undefined
  {
    hide Pop, DataOp, Decode;
    PopOne(th.ops);
  }

  lemma PopOne(s: Stk)
    ensures Pop(s, 1).Done? ==> |Pop(s, 1).value.0| == 1
  {
  }

  lemma LocalsAre(img: Image, th: Thread, input: Input)
    requires img.Valid()
    ensures Handle(img, Op.PushLocal, th, input) == After(th.ip, PushLocalOp(img.Context(), th.ops, th.stk))
    ensures Handle(img, Op.PopLocal, th, input) == After(th.ip, PopLocalOp(img.Context(), th.ops, th.stk))
  {
    hide PushLocalOp, PopLocalOp;
    NoOperand(img, Op.PushLocal, th, input);
    NoOperand(img, Op.PopLocal, th, input);
  }

  lemma HaltIs(img: Image, th: Thread, input: Input)
    requires img.Valid()
    ensures Handle(img, Op.Halt, th, input) == Exited(0)
  {
  }

  lemma AsyncReturnIs(img: Image, th: Thread, input: Input)
    requires img.Valid()
    ensures Handle(img, Op.AsyncReturn, th, input) == Done((th, Ended))
  {
  }

  lemma BuiltinIs(env: Env, id: word, ops: Stk, stk: Stk, input: Input)
    ensures id in {0, 3} ==> Builtin(env, id, ops, stk, input) == Builtin(env, id, ops, stk, NoInput())
    ensures id == 4 ==> Builtin(env, id, ops, stk, input) == OnOps(PushWord(ops, input.memory), stk)
    ensures id !in {0, 3, 4} ==> Builtin(env, id, ops, stk, input) == Done(Effect(ops, stk, Silent))
  {
    hide PopWord, PushWord, Machine.Print;
  }

  /** The whole print is what was taken so far followed by what is left. */
  ghost predicate PrintedSoFar(whole: Outcome<(Stk, seq<seq<byte>>)>, values: seq<seq<byte>>,
                               left: Outcome<(Stk, seq<seq<byte>>)>)
  {
    match left
    case Done(p) => whole == Done((p.0, values + p.1))
    case Exited(c) => whole == Exited(c)
    case Undefined => whole == Undefined
  }

  lemma PrintedStart(whole: Outcome<(Stk, seq<seq<byte>>)>)
    ensures PrintedSoFar(whole, [], whole)
  {
    if whole.Done? { assert [] + whole.value.1 == whole.value.1; }
  }

  lemma PrintedMore(whole: Outcome<(Stk, seq<seq<byte>>)>, values: seq<seq<byte>>, v: seq<byte>,
                    left: Outcome<(Stk, seq<seq<byte>>)>)
    requires match left
             case Done(p) => whole == Done((p.0, values + ([v] + p.1)))
             case Exited(c) => whole == Exited(c)
             case Undefined => whole == Undefined
    ensures PrintedSoFar(whole, values + [v], left)
  {
    if left.Done? { assert values + ([v] + left.value.1) == values + [v] + left.value.1; }
  }

  lemma PrintStep(env: Env, i: nat, ops: Stk)
    requires i < |env.data| && env.data[i] != 0
    ensures env.data[i] != '%' as int ==> Machine.Print(env, i, ops) == Machine.Print(env, i + 1, ops)
    ensures env.data[i] == '%' as int && i + 1 >= |env.data| ==> Machine.Print(env, i, ops) == Undefined
    ensures env.data[i] == '%' as int && i + 1 < |env.data| ==>
              var n := PrintSize(env.platform, env.data[i + 1]);
              && (n == 0 ==> Machine.Print(env, i, ops) == Machine.Print(env, i + 2, ops))
              && (n > 0 ==> match Pop(ops, n)
                            case Done(p) =>
                              (match Machine.Print(env, i + 2, p.1)
                               case Done(q) => Machine.Print(env, i, ops) == Done((q.0, [p.0] + q.1))
                               case Exited(c) => Machine.Print(env, i, ops) == Exited(c)
                               case Undefined => Machine.Print(env, i, ops) == Undefined)
                            case Exited(c) => Machine.Print(env, i, ops) == Exited(c)
                            case Undefined => Machine.Print(env, i, ops) == Undefined)
  {
    hide Pop;
  }

  lemma PrintEnd(env: Env, i: nat, ops: Stk, values: seq<seq<byte>>)
    requires i < |env.data| && env.data[i] == 0
    ensures Machine.Print(env, i, ops) == Done((ops, [])) && values + [] == values
  {
  }
}
