/** The instruction set: opcode numbers, sizes and encodings of compiler.py, opcode numbers of
    src/instructions.h. */
module Isa {
  import opened Bytes

  datatype Cmp = Eq | Lt | Gt | Le | Ge
  datatype Alu = Add | Sub | Mul | Div
  datatype BitOp = Shl | Shr | Or | Xor | And

  datatype Op =
    | Halt | Delay | Jump | PopJumpIfFalse
    | Compare(cmp: Cmp)
    | Call | Return | SysCall | AsyncCall | AsyncReturn
    | PushLU16 | PopU16 | TopU16 | U16(alu: Alu) | PopAU16 | PushU16
    | AllocLocal | PushLocal | PopLocal
    | PushLI16 | PopI16 | TopI16 | I16(alu: Alu) | ReadI16 | WriteI16 | AllocI16 | FreeI16
    | PushLF32 | PopF32 | TopF32 | F32(alu: Alu)
    | PushMillis | Bits(bit: BitOp) | NotU16

  function CmpCode(c: Cmp): byte {
    match c case Eq => 0 case Lt => 1 case Gt => 2 case Le => 3 case Ge => 4
  }

  function AluCode(a: Alu): byte {
    match a case Add => 0 case Sub => 1 case Mul => 2 case Div => 3
  }

  function BitCode(b: BitOp): byte {
    match b case Shl => 0 case Shr => 1 case Or => 2 case Xor => 3 case And => 4
  }

  function Code(op: Op): byte {
    match op
    case Halt => 0 case Delay => 1 case Jump => 2 case PopJumpIfFalse => 3
    case Compare(c) => 4 + CmpCode(c)
    case Call => 9 case Return => 10 case SysCall => 11 case AsyncCall => 12 case AsyncReturn => 13
    case PushLU16 => 14 case PopU16 => 15 case TopU16 => 16
    case U16(a) => 17 + AluCode(a)
    case PopAU16 => 21 case PushU16 => 22
    case AllocLocal => 23 case PushLocal => 24 case PopLocal => 25
    case PushLI16 => 26 case PopI16 => 27 case TopI16 => 28
    case I16(a) => 29 + AluCode(a)
    case ReadI16 => 33 case WriteI16 => 34 case AllocI16 => 35 case FreeI16 => 36
    case PushLF32 => 37 case PopF32 => 38 case TopF32 => 39
    case F32(a) => 40 + AluCode(a)
    case PushMillis => 44
    case Bits(b) => 45 + BitCode(b)
    case NotU16 => 50
  }

  datatype Option<+T> = None | Some(value: T)

  /** The `switch` of `cpu_execute`, and `get_instruction` of the compiler. */
  function Decode(b: byte): Option<Op> {
    if b < 26 then DecodeLow(b) else DecodeHigh(b)
  }

  function AluOf(b: int): Alu {
    if b == 0 then Add else if b == 1 then Sub else if b == 2 then Mul else Div
  }

  function DecodeLow(b: byte): Option<Op> {
    match b
    case 0 => Some(Halt) case 1 => Some(Delay) case 2 => Some(Jump) case 3 => Some(PopJumpIfFalse)
    case 4 => Some(Compare(Eq)) case 5 => Some(Compare(Lt)) case 6 => Some(Compare(Gt))
    case 7 => Some(Compare(Le)) case 8 => Some(Compare(Ge))
    case 9 => Some(Call) case 10 => Some(Return) case 11 => Some(SysCall) case 12 => Some(AsyncCall)
    case 13 => Some(AsyncReturn)
    case 14 => Some(PushLU16) case 15 => Some(PopU16) case 16 => Some(TopU16)
    case 21 => Some(PopAU16) case 22 => Some(PushU16)
    case 23 => Some(AllocLocal) case 24 => Some(PushLocal) case 25 => Some(PopLocal)
    case _ => if 17 <= b <= 20 then Some(U16(AluOf(b - 17))) else None
  }

  function DecodeHigh(b: byte): Option<Op> {
    match b
    case 26 => Some(PushLI16) case 27 => Some(PopI16) case 28 => Some(TopI16)
    case 33 => Some(ReadI16) case 34 => Some(WriteI16) case 35 => Some(AllocI16) case 36 => Some(FreeI16)
    case 37 => Some(PushLF32) case 38 => Some(PopF32) case 39 => Some(TopF32)
    case 44 => Some(PushMillis)
    case 45 => Some(Bits(Shl)) case 46 => Some(Bits(Shr)) case 47 => Some(Bits(Or))
    case 48 => Some(Bits(Xor)) case 49 => Some(Bits(And)) case 50 => Some(NotU16)
    case _ =>
      if 29 <= b <= 32 then Some(I16(AluOf(b - 29)))
      else if 40 <= b <= 43 then Some(F32(AluOf(b - 40)))
      else None
  }

  lemma DecodeCode(op: Op)
    ensures Decode(Code(op)) == Some(op)
  {
    if op.U16? {
      match op.alu case Add => case Sub => case Mul => case Div =>
    }
  }

  /** The `size` attribute of the instruction classes: opcode plus operand bytes. */
  function Size(op: Op): (n: nat)
    ensures n in {1, 3, 5}
  {
    match op
    case Delay => 3 case Jump => 3 case PopJumpIfFalse => 3 case Call => 3 case SysCall => 3
    case AsyncCall => 3 case PushLU16 => 3 case PopAU16 => 3 case PushU16 => 3
    case AllocLocal => 3 case PushLI16 => 3
    case ReadI16 => 3 case WriteI16 => 3 case AllocI16 => 3 case FreeI16 => 3
    case PushLF32 => 5
    case _ => 1
  }

  /** The compiler's classes of instructions with a 16-bit operand. */
  predicate TakesWord(op: Op) {
    || op.Delay? || op.Jump? || op.PopJumpIfFalse? || op.Call? || op.SysCall? || op.AsyncCall? || op.PushLU16?
    || op.PopAU16? || op.PushU16? || op.AllocLocal? || op.PushLI16? || op.ReadI16? || op.WriteI16? || op.AllocI16? || op.FreeI16?
  }

  /** An instruction has the size of its opcode and its operand. */
  lemma SizeIs(op: Op)
    ensures Size(op) == if TakesWord(op) then 3 else if op.PushLF32? then 5 else 1
  {
  }

  /** The VM's enumeration of the instructions, from opcode 0 on. */
  const ENUMERATION: seq<Op> := CONTROL + WORDS + INTEGERS + OTHERS

  const CONTROL: seq<Op> := [
    Halt, Delay, Jump, PopJumpIfFalse, Compare(Eq), Compare(Lt), Compare(Gt), Compare(Le), Compare(Ge), Call,
    Return, SysCall, AsyncCall, AsyncReturn
  ]
  const WORDS: seq<Op> := [
    PushLU16, PopU16, TopU16, U16(Add), U16(Sub), U16(Mul), U16(Div), PopAU16, PushU16, AllocLocal, PushLocal,
    PopLocal
  ]
  const INTEGERS: seq<Op> := [
    PushLI16, PopI16, TopI16, I16(Add), I16(Sub), I16(Mul), I16(Div), ReadI16, WriteI16, AllocI16, FreeI16
  ]
  const OTHERS: seq<Op> := [
    PushLF32, PopF32, TopF32, F32(Add), F32(Sub), F32(Mul), F32(Div), PushMillis, Bits(Shl), Bits(Shr), Bits(Or),
    Bits(Xor), Bits(And), NotU16
  ]

  lemma ControlDecode(i: nat)
    requires i < 14
    ensures |CONTROL| == 14 && Decode(i) == Some(CONTROL[i])
  {
  }

  lemma WordsDecode(i: nat)
    requires i < 12
    ensures |WORDS| == 12 && Decode(14 + i) == Some(WORDS[i])
  {
  }

  lemma IntegersDecode(i: nat)
    requires i < 11
    ensures |INTEGERS| == 11 && Decode(26 + i) == Some(INTEGERS[i])
  {
  }

  lemma OthersDecode(i: nat)
    requires i < 14
    ensures |OTHERS| == 14 && Decode(37 + i) == Some(OTHERS[i])
  {
  }

  lemma EnumerationDecodes(b: byte)
    requires b <= 50
    ensures b < |ENUMERATION| && Decode(b) == Some(ENUMERATION[b])
  {
    hide Decode, CONTROL, WORDS, INTEGERS, OTHERS;
    ControlDecode(if b < 14 then b else 0);
    WordsDecode(if 14 <= b < 26 then b - 14 else 0);
    IntegersDecode(if 26 <= b < 37 then b - 26 else 0);
    OthersDecode(if 37 <= b then b - 37 else 0);
  }

  /** The opcodes of the compiler and of the VM's dispatch are those of the enumeration. */
  lemma OpcodesAgree(op: Op)
    ensures Code(op) < |ENUMERATION| && ENUMERATION[Code(op)] == op
    ensures Decode(Code(op)) == Some(op)
  {
    hide Code, Decode, ENUMERATION;
    DecodeCode(op);
    OpcodesEnd(Code(op));
    EnumerationDecodes(Code(op));
  }

  /** No opcode is above that of the last instruction of the enumeration, and below it none is missing. */
  lemma OpcodesEnd(b: byte)
    ensures Decode(b).Some? <==> b <= 50
  {
  }

  /** An instruction with its operand bytes, as they lie in the image. */
  datatype Instr = Instr(op: Op, arg: seq<byte>) {
    predicate Valid() { |arg| == Size(op) - 1 }

    /** The 16-bit operand. */
    function Word(): word
      requires |arg| == 2
    {
      ToWord(arg[0], arg[1])
    }
  }
}
