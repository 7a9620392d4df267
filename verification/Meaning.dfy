/** What the instructions outside plain arithmetic do, said on typed values and on the bytes of the data. */
module Meaning {
  import opened Bytes
  import opened ByteStack
  import opened Isa
  import opened Machine
  import opened Values
  import opened Arithmetic

  /** The 16-bit operand has its low byte first. */
  lemma OperandIs(i: Instr)
    requires |i.arg| == 2
    ensures var low: int, high: int := i.arg[0], i.arg[1]; i.Word() == low + 256 * high
  {
  }

  /** A value as the host has it in memory. */
  function HostBytes(v: Value): seq<byte> {
    match v case Flag(b) => [b] case Num(w) => [w % 256, w / 256] case Real(q) => q
  }

  lemma HostOrder(v: Value)
    ensures Rev(BytesOf(v)) == HostBytes(v) && Rev(HostBytes(v)) == BytesOf(v)
  {
  }

  /** The effect takes the values above `vs` off the operand stack, and nothing else. */
  ghost predicate Takes(r: Outcome<Effect>, s: Stk, vs: seq<Value>, stk: Stk, event: Event) {
    && r.Done? && r.value.stk == stk && r.value.event == event
    && Holds(r.value.ops, vs) && |r.value.ops.data| == |s.data| && r.value.ops.bp == s.bp
  }

  lemma BeneathTakes(s: Stk, vs: seq<Value>, stk: Stk, event: Event)
    requires |Flat(vs)| < 65536 && Holds(Beneath(s, vs), vs)
    ensures Takes(Done(Effect(Beneath(s, vs), stk, event)), s, vs, stk, event)
  {
    hide Holds, Flat;
  }

  // ----- tasks and messages -----

  /** ASYNC_CALL with room for a task takes the handler and spawns its operand with that handler; without room it does
      nothing at all. */
  lemma AsyncCallInstr(env: Env, i: Instr, s: Stk, vs: seq<Value>, h: word, stk: Stk, input: Input)
    requires i.Valid() && i.op.AsyncCall? && Holds(s, vs + [Num(h)])
    ensures var r := DataOp(env, i, s, stk, input);
            if input.maySpawn then Takes(r, s, vs, stk, Spawn(i.Word(), h))
            else r == Done(Effect(s, stk, Silent))
  {
    hide PopWord, Holds, Takes, Flat;
    PopNumRefines(s, vs, h);
    BeneathTakes(s, vs, stk, Spawn(i.Word(), h));
  }

  /** SYSCALL 3 takes size, address and destination, in this order from the top, and sends that part of the data. */
  lemma SendInstr(env: Env, i: Instr, s: Stk, vs: seq<Value>, dst: word, address: word, size: word, stk: Stk, input: Input)
    requires i.Valid() && i.op.SysCall? && i.arg == [3, 0]
    requires Holds(s, vs + [Num(dst)] + [Num(address)] + [Num(size)])
    ensures var r, start := DataOp(env, i, s, stk, input), address - env.platform.ports;
            if 0 <= start && start + size <= |env.data| then
              && r.Done? && r.value.event.Send? && r.value.event.dst == dst
              && Takes(r, s, vs, stk, r.value.event)
              && |r.value.event.payload| == size
              && forall j :: 0 <= j < size ==> r.value.event.payload[j] == env.data[start + j]
            else r == Undefined
  {
    hide PopWord, Holds, Takes, Flat;
    WordOf(i, 3);
    PopNumRefines(s, vs + [Num(dst)] + [Num(address)], size);
    PopNumRefines(Beneath(s, vs + [Num(dst)] + [Num(address)]), vs + [Num(dst)], address);
    PopNumRefines(Beneath(s, vs + [Num(dst)]), vs, dst);
    var start := address - env.platform.ports;
    if 0 <= start && start + size <= |env.data| {
      BeneathTakes(s, vs, stk, Send(dst, env.data[start..start + size]));
    }
  }

  /** SYSCALL 4 pushes the memory in use; the numbers without a meaning, and those that only print or blink, change nothing. */
  lemma OtherSysCalls(env: Env, i: Instr, s: Stk, vs: seq<Value>, stk: Stk, input: Input)
    requires i.Valid() && i.op.SysCall? && Holds(s, vs)
    ensures i.arg == [4, 0] ==> Pushes(DataOp(env, i, s, stk, input), s, vs, Num(input.memory), stk)
    ensures i.arg !in {[0, 0], [3, 0], [4, 0]} ==> DataOp(env, i, s, stk, input) == Done(Effect(s, stk, Silent))
  {
    hide PushWord, Holds, Pushes, Flat, Print, PopWord;
    PushNumRefines(s, vs, input.memory, stk);
    assert i.arg == [i.arg[0], i.arg[1]];
  }

  // ----- printing -----

  /** A piece of a format: a character, a conversion with the value it shows, or `%` before another character. */
  datatype Part = Text(c: byte) | Shown(c: byte, v: Value) | Escaped(c: byte)

  predicate PartOk(platform: Platform, part: Part) {
    match part
    case Text(c) => c != 0 && c != '%' as int
    case Shown(c, v) =>
      || ((c == 'u' as int || c == 'i' as int) && v.Num?)
      || (c == 's' as int && v.Flag?)
      || (c == 'f' as int && v.Real? && platform.printsFloats)
    case Escaped(c) =>
      c != 'u' as int && c != 'i' as int && c != 's' as int && !(c == 'f' as int && platform.printsFloats)
  }

  function PartBytes(part: Part): seq<byte> {
    match part case Text(c) => [c] case Shown(c, _) => ['%' as int, c] case Escaped(c) => ['%' as int, c]
  }

  function Format(parts: seq<Part>): seq<byte> {
    if parts == [] then [] else PartBytes(parts[0]) + Format(parts[1..])
  }

  /** The values on the stack for the format: the first conversion takes the top. */
  function Arguments(parts: seq<Part>): seq<Value> {
    if parts == [] then []
    else Arguments(parts[1..]) + if parts[0].Shown? then [parts[0].v] else []
  }

  /** The values in the order in which they are shown. */
  function InOrder(parts: seq<Part>): seq<seq<byte>> {
    if parts == [] then []
    else (if parts[0].Shown? then [HostBytes(parts[0].v)] else []) + InOrder(parts[1..])
  }

  /** The text of the format lies at `i`, with a terminator. */
  predicate FormatAt(data: seq<byte>, i: nat, parts: seq<Part>) {
    && i + |Format(parts)| < |data|
    && data[i..i + |Format(parts)|] == Format(parts)
    && data[i + |Format(parts)|] == 0
  }

  lemma FormatRest(data: seq<byte>, i: nat, parts: seq<Part>)
    requires parts != [] && FormatAt(data, i, parts)
    ensures var n := |PartBytes(parts[0])|;
            && i + n < |data| && 1 <= n <= 2 && data[i] == PartBytes(parts[0])[0] && (n == 2 ==> data[i + 1] == PartBytes(parts[0])[1])
            && FormatAt(data, i + n, parts[1..])
  {
    var n, all := |PartBytes(parts[0])|, Format(parts);
    var text := data[i..i + |all|];
    assert text[0] == data[i];
    if n == 2 { assert text[1] == data[i + 1]; }
    assert Format(parts[1..]) == all[n..] == text[n..];
    assert text[n..] == data[i + n..i + |all|];
  }

  lemma {:induction false} PrintTakes(env: Env, i: nat, s: Stk, vs: seq<Value>, parts: seq<Part>)
    requires FormatAt(env.data, i, parts) && Holds(s, vs + Arguments(parts))
    requires forall k :: 0 <= k < |parts| ==> PartOk(env.platform, parts[k])
    ensures |Flat(vs)| < 65536 && Holds(Beneath(s, vs), vs)
    ensures Print(env, i, s) == Done((Beneath(s, vs), InOrder(parts)))
    decreases |parts|
  {
    hide Pop, Holds, Flat, FormatAt, HostBytes, BytesOf;
    if parts == [] {
      assert vs + [] == vs;
      EmptyFormat(env.data, i);
      HoldsAll(s, vs);
    } else {
      FormatRest(env.data, i, parts);
      var part, rest := parts[0], parts[1..];
      if part.Shown? {
        var below := vs + Arguments(rest);
        assert vs + Arguments(parts) == below + [part.v];
        PopRefines(s, below, part.v);
        HostOrder(part.v);
        ShownSize(env.platform, part);
        PrintTakes(env, i + 2, Beneath(s, below), vs, rest);
      } else {
        assert vs + Arguments(parts) == vs + Arguments(rest);
        PrintTakes(env, i + |PartBytes(part)|, s, vs, rest);
        assert [] + InOrder(rest) == InOrder(rest);
      }
    }
  }

  lemma ShownSize(platform: Platform, part: Part)
    requires part.Shown? && PartOk(platform, part)
    ensures PrintSize(platform, part.c) == |BytesOf(part.v)| > 0
  {
  }

  lemma EmptyFormat(data: seq<byte>, i: nat)
    requires FormatAt(data, i, [])
    ensures i < |data| && data[i] == 0
  {
  }

  lemma HoldsAll(s: Stk, vs: seq<Value>)
    requires Holds(s, vs)
    ensures |Flat(vs)| < 65536 && Beneath(s, vs) == s
  {
  }

  lemma SysCallIs(env: Env, i: Instr, s: Stk, stk: Stk, input: Input)
    requires i.Valid() && i.op.SysCall?
    ensures DataOp(env, i, s, stk, input) == Builtin(env, i.Word(), s, stk, input)
  {
    hide Builtin;
  }

  /** SYSCALL 0 takes the address of a format and then one value for each conversion, the first from the top, and shows
      them in the order of the format. */
  lemma PrintInstr(env: Env, i: Instr, s: Stk, vs: seq<Value>, parts: seq<Part>, address: word, stk: Stk, input: Input)
    requires i.Valid() && i.op.SysCall? && i.arg == [0, 0]
    requires address >= env.platform.ports && FormatAt(env.data, address - env.platform.ports, parts)
    requires forall k :: 0 <= k < |parts| ==> PartOk(env.platform, parts[k])
    requires Holds(s, vs + Arguments(parts) + [Num(address)])
    ensures Takes(DataOp(env, i, s, stk, input), s, vs, stk, Printed(InOrder(parts)))
  {
    hide *;
    WordOf(i, 0);
    SysCallIs(env, i, s, stk, input);
    PopNumRefines(s, vs + Arguments(parts), address);
    PrintTakes(env, address - env.platform.ports, Beneath(s, vs + Arguments(parts)), vs, parts);
    BeneathTwice(s, vs + Arguments(parts), vs);
    PrintBuiltin(env, address, s, Beneath(s, vs + Arguments(parts)), Beneath(s, vs), InOrder(parts), stk, input);
    BeneathTakes(s, vs, stk, Printed(InOrder(parts)));
  }

  lemma BeneathTwice(s: Stk, ws: seq<Value>, vs: seq<Value>)
    requires |Flat(ws)| < 65536 && |Flat(vs)| < 65536
    ensures Beneath(Beneath(s, ws), vs) == Beneath(s, vs)
  {
    hide Flat;
  }

  lemma WordOf(i: Instr, low: byte)
    requires i.arg == [low, 0]
    ensures i.Word() == low
  {
  }

  lemma PrintBuiltin(env: Env, address: word, s: Stk, s1: Stk, s2: Stk, values: seq<seq<byte>>, stk: Stk, input: Input)
    requires PopWord(s) == Done((address, s1)) && address >= env.platform.ports
    requires Print(env, address - env.platform.ports, s1) == Done((s2, values))
    ensures Builtin(env, 0, s, stk, input) == Done(Effect(s2, stk, Printed(values)))
  {
    hide PopWord, Print;
  }

  /** TOP shows the value on top and leaves it there. */
  lemma TopInstr(env: Env, i: Instr, s: Stk, vs: seq<Value>, v: Value, stk: Stk, input: Input)
    requires i.Valid() && Holds(s, vs + [v])
    requires if v.Num? then i.op.TopU16? || i.op.TopI16? else v.Real? && i.op.TopF32?
    ensures DataOp(env, i, s, stk, input) == Done(Effect(s, stk, Printed([HostBytes(v)])))
  {
    hide ReadAt, Holds, Flat, BytesOf, HostBytes;
    HoldsBeneath(s, vs, v);
    ValueSize(v);
    TopRead(s, vs, v);
  }

  lemma TopRead(s: Stk, vs: seq<Value>, v: Value)
    requires Holds(s, vs + [v])
    ensures |BytesOf(v)| <= s.sp && ReadAt(s, |BytesOf(v)|, Wrap(s.sp - |BytesOf(v)|)) == Done(HostBytes(v))
  {
    hide Holds, Flat, BytesOf, HostBytes;
    HoldsBeneath(s, vs, v);
    HostOrder(v);
    var a, b := Flat(vs), BytesOf(v);
    assert s.data[s.sp - |b|..s.sp] == s.data[..s.sp][|a|..] == b;
  }

  // ----- ports and constants -----

  /** PUSH_U16 reads a port below the port count, and above it one byte of the data. */
  lemma PushAddressInstr(env: Env, i: Instr, s: Stk, vs: seq<Value>, stk: Stk, input: Input)
    requires i.Valid() && i.op.PushU16? && Holds(s, vs)
    ensures var r, address := DataOp(env, i, s, stk, input), i.Word();
            if address < env.platform.ports then Pushes(r, s, vs, Num(input.port), stk)
            else if address - env.platform.ports < |env.data| then
              Pushes(r, s, vs, Num(env.data[address - env.platform.ports]), stk)
            else r == Undefined
  {
    hide PushWord, Holds, Pushes, Flat;
    var at := i.Word() - env.platform.ports;
    PushNumRefines(s, vs, if 0 <= at < |env.data| then env.data[at] else input.port, stk);
  }

  /** POPA_U16 takes a number and writes its low byte to the port; at any other address the VM exits. */
  lemma PopAddressInstr(env: Env, i: Instr, s: Stk, vs: seq<Value>, w: word, stk: Stk, input: Input)
    requires i.Valid() && i.op.PopAU16? && Holds(s, vs + [Num(w)])
    ensures var r, address := DataOp(env, i, s, stk, input), i.Word();
            if address < env.platform.ports then
              exists b: byte :: (exists high: nat :: w == 256 * high + b) && Takes(r, s, vs, stk, PortWrite(address, b))
            else r == Exited(FAILURE)
  {
    hide PopWord, Holds, Takes, Flat;
    PopNumRefines(s, vs, w);
    var b: byte := w % 256;
    assert w == 256 * (w / 256) + b;
    BeneathTakes(s, vs, stk, PortWrite(i.Word(), b));
  }

  // ----- words and locals on the call stack -----

  /** READ_I16 pushes the word that lies at its address on the call stack. */
  lemma ReadInstr(env: Env, i: Instr, s: Stk, vs: seq<Value>, w: word, stk: Stk, input: Input)
    requires i.Valid() && i.op.ReadI16? && Holds(s, vs)
    requires var a := i.Word(); 2 <= stk.sp && a + 2 <= |stk.data| && stk.data[a..a + 2] == HighLow(w)
    ensures Pushes(DataOp(env, i, s, stk, input), s, vs, Num(w), stk)
  {
    hide Push, Holds, Pushes, Flat, HighLow, LowHigh;
    HighLowReversed(w);
    PushRefines(s, vs, LowHigh(w), Num(w), stk);
  }

  /** The bytes `v` at `a` and no other change; `sp` only rises, to the end of what is written. */
  predicate Written(stk: Stk, t: Stk, a: nat, v: seq<byte>) {
    && |t.data| == |stk.data| && a + |v| <= |t.data| && t.data[a..a + |v|] == v
    && t.data[..a] == stk.data[..a] && t.data[a + |v|..] == stk.data[a + |v|..]
    && t.bp == stk.bp && t.sp == if a + |v| > stk.sp then a + |v| else stk.sp
  }

  lemma WriteIsWritten(stk: Stk, v: seq<byte>, a: word)
    requires a + |v| <= |stk.data| < 65536
    ensures WriteAt(stk, Rev(v), a).Done? && Written(stk, WriteAt(stk, Rev(v), a).value, a, v)
  {
    RevRev(v);
    WriteShape(stk, Rev(v), a);
    Middle(stk.data[..a], v, stk.data[a + |v|..]);
  }

  /** WRITE_I16 takes a number and puts it at its address on the call stack. */
  lemma WriteInstr(env: Env, i: Instr, s: Stk, vs: seq<Value>, w: word, stk: Stk, input: Input)
    requires i.Valid() && i.op.WriteI16? && Holds(s, vs + [Num(w)])
    requires i.Word() + 2 <= |stk.data| < 65536
    ensures var r := DataOp(env, i, s, stk, input);
            && r.Done? && Written(stk, r.value.stk, i.Word(), HighLow(w))
            && Takes(r, s, vs, r.value.stk, Silent)
  {
    hide Pop, Holds, Takes, Flat, HighLow, WriteAt;
    PopRefines(s, vs, Num(w));
    WriteIsWritten(stk, HighLow(w), i.Word());
    BeneathTakes(s, vs, WriteAt(stk, Rev(HighLow(w)), i.Word()).value, Silent);
  }

  /** POP_LOCAL takes offset, size and a value of that size, and puts the value at the offset from `bp`. */
  lemma PopLocalInstr(env: Env, i: Instr, s: Stk, vs: seq<Value>, v: Value, size: word, offset: word, stk: Stk, input: Input)
    requires i.Valid() && i.op.PopLocal? && Holds(s, vs + [v] + [Num(size)] + [Num(offset)])
    requires size == |BytesOf(v)| <= env.platform.pointer && stk.bp + offset + size <= |stk.data| < 65536
    ensures var r := DataOp(env, i, s, stk, input);
            && r.Done? && Written(stk, r.value.stk, stk.bp + offset, BytesOf(v))
            && Takes(r, s, vs, r.value.stk, Silent)
  {
    hide PopPair, Pop, Holds, Takes, Flat, BytesOf, WriteAt;
    PopPairRefines(s, vs + [v], size, offset);
    PopRefines(Beneath(s, vs + [v]), vs, v);
    WriteIsWritten(stk, BytesOf(v), stk.bp + offset);
    BeneathTakes(s, vs, WriteAt(stk, Rev(BytesOf(v)), stk.bp + offset).value, Silent);
  }

  /** PUSH_LOCAL takes offset and size, and pushes the value that lies at the offset from `bp`. */
  lemma PushLocalInstr(env: Env, i: Instr, s: Stk, vs: seq<Value>, v: Value, size: word, offset: word, stk: Stk, input: Input)
    requires i.Valid() && i.op.PushLocal? && Holds(s, vs + [Num(size)] + [Num(offset)])
    requires size == |BytesOf(v)| <= env.platform.pointer && size <= stk.sp
    requires stk.bp + offset + size <= |stk.data| < 65536 && stk.data[stk.bp + offset..stk.bp + offset + size] == BytesOf(v)
    ensures Pushes(DataOp(env, i, s, stk, input), s, vs, v, stk)
  {
    hide PopPair, Push, Holds, Pushes, OnOps, Flat, BytesOf, Rev;
    PopPairRefines(s, vs, size, offset);
    RevRev(BytesOf(v));
    PushRefines(Beneath(s, vs), vs, Rev(BytesOf(v)), v, stk);
    PushesSame(OnOps(Push(Beneath(s, vs), Rev(BytesOf(v))), stk), s, Beneath(s, vs), vs, v, stk);
  }

  /** ALLOC_LOCAL takes a size and moves `sp` up by it; ALLOC_I16 moves it up by two, which FREE_I16 undoes. */
  lemma MoveInstrs(env: Env, i: Instr, s: Stk, vs: seq<Value>, size: word, stk: Stk, input: Input)
    requires i.Valid() && Holds(s, vs + [Num(size)]) && stk.sp + size < 65536
    ensures i.op.AllocLocal? ==> Takes(DataOp(env, i, s, stk, input), s, vs, stk.(sp := stk.sp + size), Silent)
    ensures i.op.AllocI16? && stk.sp < 65534 ==> DataOp(env, i, s, stk, input) == Done(Effect(s, stk.(sp := stk.sp + 2), Silent))
    ensures i.op.FreeI16? && stk.sp >= 2 ==> DataOp(env, i, s, stk, input) == Done(Effect(s, stk.(sp := stk.sp - 2), Silent))
  {
    hide PopWord, Holds, Takes, Flat;
    PopNumRefines(s, vs, size);
    BeneathTakes(s, vs, stk.(sp := stk.sp + size), Silent);
  }

  /** The instructions that only pass time or end something. */
  lemma EndInstrs(env: Env, i: Instr, s: Stk, stk: Stk, input: Input)
    requires i.Valid()
    ensures i.op.Halt? ==> DataOp(env, i, s, stk, input) == Exited(0)
    ensures i.op.Delay? ==> DataOp(env, i, s, stk, input) == Done(Effect(s, stk, Silent))
    ensures i.op.AsyncReturn? ==> DataOp(env, i, s, stk, input) == Done(Effect(s, stk, Ended))
  {
  }

  /** A byte that is no opcode is skipped. */
  lemma UnknownSkips(img: Image, th: Thread, input: Input)
    requires img.Valid() && th.ip < |img.program| && img.program[th.ip] > 50
    ensures Step(img, th, input) == Done((th.(ip := th.ip + 1), Silent))
  {
    hide Decode, Handle;
    OpcodesEnd(img.program[th.ip]);
  }

  // ----- comparisons -----

  /** The number that a word stands for as an `int16_t`. */
  lemma SignedIs(w: word)
    ensures -32768 <= Signed(w) <= 32767 && (Signed(w) == w || Signed(w) == w - 65536)
  {
  }

  /** Each comparison takes two numbers, the second from the top, and pushes 1 or 0. */
  lemma CompareInstrs(env: Env, s: Stk, vs: seq<Value>, a: word, b: word, stk: Stk, input: Input)
    requires Holds(s, vs + [Num(a)] + [Num(b)])
    ensures Pushes(DataOp(env, Instr(Compare(Eq), []), s, stk, input), s, vs, Flag(if Signed(a) == Signed(b) then 1 else 0), stk)
    ensures Pushes(DataOp(env, Instr(Compare(Lt), []), s, stk, input), s, vs, Flag(if Signed(a) < Signed(b) then 1 else 0), stk)
    ensures Pushes(DataOp(env, Instr(Compare(Gt), []), s, stk, input), s, vs, Flag(if Signed(a) > Signed(b) then 1 else 0), stk)
    ensures Pushes(DataOp(env, Instr(Compare(Le), []), s, stk, input), s, vs, Flag(if Signed(a) <= Signed(b) then 1 else 0), stk)
    ensures Pushes(DataOp(env, Instr(Compare(Ge), []), s, stk, input), s, vs, Flag(if Signed(a) >= Signed(b) then 1 else 0), stk)
  {
    hide DataOp, Holds, Pushes, Flat, Signed;
    CompareInstr(env, Instr(Compare(Eq), []), s, vs, a, b, stk, input);
    CompareInstr(env, Instr(Compare(Lt), []), s, vs, a, b, stk, input);
    CompareInstr(env, Instr(Compare(Gt), []), s, vs, a, b, stk, input);
    CompareInstr(env, Instr(Compare(Le), []), s, vs, a, b, stk, input);
    CompareInstr(env, Instr(Compare(Ge), []), s, vs, a, b, stk, input);
  }

  // ----- arithmetic -----

  /** Unsigned: the number below is the minuend, the dividend. */
  lemma UnsignedInstrs(env: Env, s: Stk, vs: seq<Value>, a: word, b: word, stk: Stk, input: Input)
    requires Holds(s, vs + [Num(a)] + [Num(b)])
    ensures Pushes(DataOp(env, Instr(U16(Add), []), s, stk, input), s, vs, Num(if a + b < 65536 then a + b else a + b - 65536), stk)
    ensures Pushes(DataOp(env, Instr(U16(Sub), []), s, stk, input), s, vs, Num(if a >= b then a - b else a - b + 65536), stk)
    ensures b != 0 ==> exists q: word ::
              IsQuotient(a, b, q) && Pushes(DataOp(env, Instr(U16(Div), []), s, stk, input), s, vs, Num(q), stk)
  {
    hide DataOp, Holds, Pushes, Flat, U16Result, IsQuotient;
    U16Meaning(a, b);
    NumberInstr(env, Instr(U16(Add), []), s, vs, a, b, stk, input);
    NumberInstr(env, Instr(U16(Sub), []), s, vs, a, b, stk, input);
    if b != 0 {
      NumberInstr(env, Instr(U16(Div), []), s, vs, a, b, stk, input);
    }
  }

  /** `w` is `a` with its bits moved down, or up, by `k` places, and zeros in their place. */
  predicate Moved(down: bool, w: word, a: word, k: nat) {
    if down then forall j: nat :: j < 16 ==> Bit(w, j) == if j + k < 16 then Bit(a, j + k) else 0
    else forall j: nat :: j < 16 ==> Bit(w, j) == if j < k then 0 else Bit(a, j - k)
  }

  lemma ShiftsMove(a: word, b: word)
    requires b < 16
    ensures BitResult(Shr, a, b).Done? && Moved(true, BitResult(Shr, a, b).value, a, b)
    ensures BitResult(Shl, a, b).Done? && Moved(false, BitResult(Shl, a, b).value, a, b)
  {
    hide BitResult, Bit;
    BitMeaning(a, b, 0);
    forall j: nat | j < 16
      ensures Bit(BitResult(Shr, a, b).value, j) == if j + b < 16 then Bit(a, j + b) else 0
      ensures Bit(BitResult(Shl, a, b).value, j) == if j < b then 0 else Bit(a, j - b)
    {
      BitMeaning(a, b, j);
    }
  }

  /** Shifts: the number below is shifted, by the number on top. */
  lemma ShiftInstr(env: Env, i: Instr, s: Stk, vs: seq<Value>, a: word, b: word, stk: Stk, input: Input)
    requires i.Valid() && i.op in {Bits(Shl), Bits(Shr)} && Holds(s, vs + [Num(a)] + [Num(b)]) && b < 16
    ensures exists w: word ::
              Moved(i.op == Bits(Shr), w, a, b) && Pushes(DataOp(env, i, s, stk, input), s, vs, Num(w), stk)
  {
    hide DataOp, Holds, Pushes, Flat, BitResult, Moved;
    ShiftsMove(a, b);
    NumberInstr(env, i, s, vs, a, b, stk, input);
  }

  /** Signed: likewise, on the numbers that the words stand for. */
  lemma SignedInstrs(env: Env, s: Stk, vs: seq<Value>, a: word, b: word, stk: Stk, input: Input)
    requires Holds(s, vs + [Num(a)] + [Num(b)])
    ensures InRange(Signed(a) - Signed(b)) ==> exists d: word ::
              Signed(d) == Signed(a) - Signed(b) && Pushes(DataOp(env, Instr(I16(Sub), []), s, stk, input), s, vs, Num(d), stk)
    ensures b != 0 && !(Signed(a) == -32768 && Signed(b) == -1) ==> exists q: word ::
              IsQuotient(Signed(a), Signed(b), Signed(q))
              && Pushes(DataOp(env, Instr(I16(Div), []), s, stk, input), s, vs, Num(q), stk)
  {
    hide DataOp, Holds, Pushes, Flat, I16Result, IsQuotient, Signed;
    I16Meaning(Sub, a, b);
    NumberInstr(env, Instr(I16(Sub), []), s, vs, a, b, stk, input);
    if b != 0 {
      I16Meaning(Div, a, b);
      NumberInstr(env, Instr(I16(Div), []), s, vs, a, b, stk, input);
    }
  }
}
