/** programs/recursion.rfl, `.incr`: it terminates, what it returns, and exactly how much call stack
    it needs. */
module Recursion {
  import opened Bytes
  import opened ByteStack
  import opened Isa
  import opened Machine
  import opened Assembler
  import opened Labelled
  import Frames
  import Handlers

  // ----- what is observed of a run -----

  function Max(a: int, b: int): int { if a > b then a else b }

  /** The events that are seen from outside, how the run ends, and the highest `sp` of the call stack. */
  datatype Summary = Summary(loud: seq<Event>, end: Outcome<LThread>, peak: int)

  function Observe(p: LProgram, th: LThread, ins: seq<Input>): Summary
    requires p.Valid()
    decreases |ins|
  {
    if ins == [] || !p.OnLine(th.pc) then Summary([], Done(th), th.stk.sp)
    else
      var s := p.Step(th, ins[0]);
      if s.Done? then
        var rest := Observe(p, s.value.0, ins[1..]);
        Summary((if s.value.1.Silent? then [] else [s.value.1]) + rest.loud, rest.end, Max(th.stk.sp, rest.peak))
      else Summary([], s.PropagateFailure(), th.stk.sp)
  }

  lemma PeakAbove(p: LProgram, th: LThread, ins: seq<Input>)
    requires p.Valid()
    ensures Observe(p, th, ins).peak >= th.stk.sp
  {
    hide LProgram.Step;
  }

  /** A silent step that does not lower `sp` is not observed. */
  lemma Unseen(p: LProgram, th: LThread, t: LThread, ins: seq<Input>)
    requires p.Valid() && p.OnLine(th.pc) && ins != []
    requires p.Step(th, ins[0]) == Done((t, Silent)) && t.stk.sp >= th.stk.sp
    ensures Observe(p, th, ins) == Observe(p, t, ins[1..])
  {
    hide LProgram.Step;
    PeakAbove(p, t, ins[1..]);
  }

  // ----- single lines -----

  predicate LineAt(p: LProgram, k: nat, line: Line) {
    k < |p.Code()| && p.Code()[k] == line
  }

  /** The operand stack holds `live` and has `room` bytes left. */
  predicate OpsAre(ops: Stk, live: seq<byte>, room: nat) {
    ops.Within() && |ops.data| < 65534 && ops.Live() == live && ops.sp + room <= |ops.data|
  }

  /** What a non-control line at `k` makes of the effect of its instruction. */
  function Advance(k: nat, r: Outcome<Effect>): Outcome<(LThread, Event)> {
    var e :- r;
    Done((LThread(At(k + 1), e.ops, e.stk), e.event))
  }

  lemma StepIsDataOp(p: LProgram, th: LThread, k: nat, line: Line, input: Input)
    requires p.Valid() && th.pc == At(k) && LineAt(p, k, line)
    requires line.Ins? && !IsControl(line.op) && (Size(line.op) == 1 || (Size(line.op) == 3 && line.arg.Num?))
    ensures var i := Instr(line.op, if Size(line.op) == 1 then [] else LowHigh(Wrap(line.arg.v)));
            p.Step(th, input) == Advance(k, DataOp(p.env, i, th.ops, th.stk, input))
  {
    hide DataOp, LowHigh;
    assert LineOk(p.lines, line);
    p.OperandValid(line);
  }

  lemma PushStep(p: LProgram, th: LThread, k: nat, v: word, live: seq<byte>, room: nat, ins: seq<Input>)
    returns (t: LThread)
    requires p.Valid() && th.pc == At(k) && LineAt(p, k, Ins(PushLU16, Num(v)))
    requires OpsAre(th.ops, live, room) && room >= 2 && ins != []
    ensures t == LThread(At(k + 1), t.ops, th.stk) && OpsAre(t.ops, live + HighLow(v), room - 2)
    ensures Observe(p, th, ins) == Observe(p, t, ins[1..])
  {
    hide LowHigh, HighLow, Push, Observe;
    PushWordLive(th.ops, v);
    t := LThread(At(k + 1), PushWord(th.ops, v).value, th.stk);
    StepIsDataOp(p, th, k, Ins(PushLU16, Num(v)), ins[0]);
    Unseen(p, th, t, ins);
  }

  /** A non-control line without operand, given what its instruction does. */
  lemma OpStep(p: LProgram, th: LThread, k: nat, op: Op, ops: Stk, stk: Stk, ins: seq<Input>)
    returns (t: LThread)
    requires p.Valid() && th.pc == At(k) && LineAt(p, k, Ins(op, NoArg))
    requires !IsControl(op) && Size(op) == 1 && ins != [] && stk.sp >= th.stk.sp
    requires DataOp(p.env, Instr(op, []), th.ops, th.stk, ins[0]) == Done(Effect(ops, stk, Silent))
    ensures t == LThread(At(k + 1), ops, stk)
    ensures Observe(p, th, ins) == Observe(p, t, ins[1..])
  {
    hide DataOp, Observe;
    t := LThread(At(k + 1), ops, stk);
    StepIsDataOp(p, th, k, Ins(op, NoArg), ins[0]);
    Unseen(p, th, t, ins);
  }

  lemma PopTopWord(ops: Stk, live: seq<byte>, w: word, room: nat)
    requires OpsAre(ops, live + HighLow(w), room)
    ensures PopWord(ops) == Done((w, ops.(sp := |live|)))
    ensures OpsAre(ops.(sp := |live|), live, room + 2)
  {
    hide HighLow;
    PopWordLive(ops, live, w);
  }

  // ----- idioms of the source language -----

  /** `PUSHL_U16 2`, `PUSHL_U16 off`, `PUSH_LOCAL`. */
  predicate LoadAt(p: LProgram, k: nat, off: word) {
    LineAt(p, k, Ins(PushLU16, Num(2))) && LineAt(p, k + 1, Ins(PushLU16, Num(off)))
    && LineAt(p, k + 2, Ins(PushLocal, NoArg))
  }

  /** A word local at `off`. */
  predicate LocalIs(stk: Stk, off: nat, w: word) {
    stk.bp + off + 2 <= stk.sp <= |stk.data| < 65534
    && stk.data[stk.bp + off..stk.bp + off + 2] == HighLow(w)
  }

  lemma Load(p: LProgram, th: LThread, k: nat, off: word, w: word, live: seq<byte>, room: nat, ins: seq<Input>)
    returns (t: LThread)
    requires p.Valid() && p.env.platform.pointer >= 2 && th.pc == At(k) && LoadAt(p, k, off)
    requires OpsAre(th.ops, live, room) && room >= 4 && LocalIs(th.stk, off, w) && |ins| >= 3
    ensures t == LThread(At(k + 3), t.ops, th.stk) && OpsAre(t.ops, live + HighLow(w), room - 2)
    ensures Observe(p, th, ins) == Observe(p, t, ins[3..])
  {
    hide LowHigh, HighLow, Observe, LineAt, DataOp, LProgram.Step;
    var t1 := PushStep(p, th, k, 2, live, room, ins);
    var t2 := PushStep(p, t1, k + 1, off, live + HighLow(2), room - 2, ins[1..]);
    var ops := LoadEffect(p.env, t2.ops, th.stk, off, w, live, room, ins[2]);
    t := OpStep(p, t2, k + 2, PushLocal, ops, th.stk, ins[2..]);
  }

  lemma LoadEffect(env: Env, ops: Stk, stk: Stk, off: word, w: word, live: seq<byte>, room: nat, input: Input)
    returns (r: Stk)
    requires room >= 4 && OpsAre(ops, live + HighLow(2) + HighLow(off), room - 4)
    requires LocalIs(stk, off, w) && env.platform.pointer >= 2
    ensures OpsAre(r, live + HighLow(w), room - 2)
    ensures DataOp(env, Instr(PushLocal, []), ops, stk, input) == Done(Effect(r, stk, Silent))
  {
    hide HighLow, PopWord, PushWord, Push;
    PopTopWord(ops, live + HighLow(2), off, room - 4);
    var ops1 := ops.(sp := |live + HighLow(2)|);
    PopTopWord(ops1, live, 2, room - 2);
    var ops2 := ops1.(sp := |live|);
    HighLowReversed(w);
    assert ReadAt(stk, 2, stk.bp + off) == Done(LowHigh(w));
    PushWordLive(ops2, w);
    assert PushWord(ops2, w) == Push(ops2, LowHigh(w)) by { PushWordIsPush(ops2, w); }
    r := PushWord(ops2, w).value;
  }

  lemma PushWordIsPush(s: Stk, w: word)
    ensures PushWord(s, w) == Push(s, LowHigh(w))
  {
  }

  /** `PUSHL_U16 2`, `ALLOC_LOCAL off`, `PUSHL_U16 2`, `PUSHL_U16 off`, `POP_LOCAL`. */
  predicate StoreNewAt(p: LProgram, k: nat, off: word) {
    LineAt(p, k, Ins(PushLU16, Num(2))) && LineAt(p, k + 1, Ins(AllocLocal, Num(off)))
    && LineAt(p, k + 2, Ins(PushLU16, Num(2))) && LineAt(p, k + 3, Ins(PushLU16, Num(off)))
    && LineAt(p, k + 4, Ins(PopLocal, NoArg))
  }

  function Appended(stk: Stk, w: word): Stk
    requires stk.sp + 2 <= |stk.data| < 65534
  {
    Stk(stk.data[..stk.sp] + HighLow(w) + stk.data[stk.sp + 2..], stk.sp + 2, stk.bp)
  }

  /** Allocating the next local and storing the top of the operand stack in it: done when two bytes
      are left, otherwise the VM exits. */
  lemma StoreNew(p: LProgram, th: LThread, k: nat, off: word, w: word, live: seq<byte>, room: nat, ins: seq<Input>)
    returns (t: LThread)
    requires p.Valid() && p.env.platform.pointer >= 2 && th.pc == At(k) && StoreNewAt(p, k, off)
    requires OpsAre(th.ops, live + HighLow(w), room) && room >= 4 && |ins| >= 5
    requires th.stk.bp + off == th.stk.sp <= |th.stk.data| < 65534
    ensures th.stk.sp + 2 <= |th.stk.data| ==>
              && t.pc == At(k + 5) && t.stk == Appended(th.stk, w) && OpsAre(t.ops, live, room + 2)
              && Observe(p, th, ins) == Observe(p, t, ins[5..])
    ensures th.stk.sp + 2 > |th.stk.data| ==>
              Observe(p, th, ins).loud == [] && Observe(p, th, ins).end == Exited(FAILURE)
  {
    hide LowHigh, HighLow, Observe, LineAt, DataOp, LProgram.Step;
    var x := live + HighLow(w);
    var t1 := PushStep(p, th, k, 2, x, room, ins);
    var t2 := AllocStep(p, t1, k + 1, off, x, room, ins[1..]);
    var t3 := PushStep(p, t2, k + 2, 2, x, room, ins[2..]);
    var t4 := PushStep(p, t3, k + 3, off, x + HighLow(2), room - 2, ins[3..]);
    StoreEffect(p.env, t4.ops, th.stk, t4.stk, off, w, live, room - 4, ins[4]);
    if th.stk.sp + 2 <= |th.stk.data| {
      t := OpStep(p, t4, k + 4, PopLocal, t4.ops.(sp := |live|), Appended(th.stk, w), ins[4..]);
    } else {
      t := t4;
      StepIsDataOp(p, t4, k + 4, Ins(PopLocal, NoArg), ins[4]);
      assert p.OnLine(t4.pc) by { LineIsThere(p, k + 4, Ins(PopLocal, NoArg)); }
      Stops(p, t4, ins[4..]);
    }
  }

  lemma LineIsThere(p: LProgram, k: nat, line: Line)
    requires LineAt(p, k, line)
    ensures p.OnLine(At(k))
  {
  }

  lemma Stops(p: LProgram, th: LThread, ins: seq<Input>)
    requires p.Valid() && p.OnLine(th.pc) && ins != []
    requires p.Step(th, ins[0]) == Exited(FAILURE)
    ensures Observe(p, th, ins) == Summary([], Exited(FAILURE), th.stk.sp)
  {
    hide LProgram.Step;
  }

  lemma AllocStep(p: LProgram, th: LThread, k: nat, off: word, live: seq<byte>, room: nat, ins: seq<Input>)
    returns (t: LThread)
    requires p.Valid() && th.pc == At(k) && LineAt(p, k, Ins(AllocLocal, Num(off)))
    requires room >= 2 && OpsAre(th.ops, live + HighLow(2), room - 2) && ins != []
    requires th.stk.sp < 65534
    ensures t.pc == At(k + 1) && t.stk == th.stk.(sp := th.stk.sp + 2) && OpsAre(t.ops, live, room)
    ensures Observe(p, th, ins) == Observe(p, t, ins[1..])
  {
    hide LowHigh, HighLow, PopWord, Observe;
    PopTopWord(th.ops, live, 2, room - 2);
    t := LThread(At(k + 1), th.ops.(sp := |live|), th.stk.(sp := th.stk.sp + 2));
    StepIsDataOp(p, th, k, Ins(AllocLocal, Num(off)), ins[0]);
    Unseen(p, th, t, ins);
  }

  lemma StoreEffect(env: Env, ops: Stk, before: Stk, stk: Stk, off: word, w: word, live: seq<byte>, room: nat, input: Input)
    requires OpsAre(ops, live + HighLow(w) + HighLow(2) + HighLow(off), room)
    requires env.platform.pointer >= 2
    requires before.bp + off == before.sp <= |before.data| < 65534 && stk == before.(sp := before.sp + 2)
    ensures var r := DataOp(env, Instr(PopLocal, []), ops, stk, input);
            && (before.sp + 2 <= |before.data| ==>
                  r == Done(Effect(ops.(sp := |live|), Appended(before, w), Silent)))
            && (before.sp + 2 > |before.data| ==> r == Exited(FAILURE))
    ensures OpsAre(ops.(sp := |live|), live, room + 6)
  {
    hide HighLow, LowHigh, PopWord, Pop;
    PopTopWord(ops, live + HighLow(w) + HighLow(2), off, room);
    var ops1 := ops.(sp := |live + HighLow(w) + HighLow(2)|);
    PopTopWord(ops1, live + HighLow(w), 2, room + 2);
    var ops2 := ops1.(sp := |live + HighLow(w)|);
    PopTwo(ops2, live, w, room + 4);
    HighLowReversed(w);
  }

  lemma PopTwo(ops: Stk, live: seq<byte>, w: word, room: nat)
    requires OpsAre(ops, live + HighLow(w), room)
    ensures Pop(ops, 2) == Done((LowHigh(w), ops.(sp := |live|)))
    ensures OpsAre(ops.(sp := |live|), live, room + 2)
  {
    hide HighLow, LowHigh;
    HighLowReversed(w);
    assert ops.data[ops.sp - 2..ops.sp] == ops.Live()[|live|..] == HighLow(w);
  }

  // ----- the function -----

  /** The instruction lines of `.incr`, label definitions aside; `i` and `n` are the operands that
      name the two locals. */
  function IncrWith(k: nat, i: Arg, n: Arg): Line
    requires k < 32
  {
    if k < 5 then StoreNewLine(k, i)
    else if k < 10 then StoreNewLine(k - 5, n)
    else if k < 13 then LoadLine(k - 10, n)
    else if k < 16 then LoadLine(k - 13, i)
    else if k == 16 then Ins(Compare(Eq), NoArg)
    else if k == 17 then Ins(PopJumpIfFalse, LabelRef("call_incr"))
    else if k < 21 then LoadLine(k - 18, i)
    else if k == 21 then Ins(Return, NoArg)
    else if k < 25 then LoadLine(k - 22, n)
    else if k < 28 then LoadLine(k - 25, i)
    else if k == 28 then Ins(PushLU16, Num(1))
    else if k == 29 then Ins(U16(Add), NoArg)
    else if k == 30 then Ins(Call, LabelRef("incr"))
    else Ins(Return, NoArg)
  }

  function LoadLine(k: nat, local: Arg): Line
    requires k < 3
  {
    if k == 0 then Ins(PushLU16, Num(2)) else if k == 1 then Ins(PushLU16, local) else Ins(PushLocal, NoArg)
  }

  function StoreNewLine(k: nat, local: Arg): Line
    requires k < 5
  {
    if k == 1 then Ins(AllocLocal, local)
    else if k == 4 then Ins(PopLocal, NoArg)
    else if k == 3 then Ins(PushLU16, local)
    else Ins(PushLU16, Num(2))
  }

  /** With the offsets that the compiler gives to `$i` and `$n`. */
  function IncrLine(k: nat): Line
    requires k < 32
  {
    IncrWith(k, Num(0), Num(2))
  }

  /** `.incr` lies at line `b` of `p`. */
  predicate HasIncr(p: LProgram, b: nat) {
    && p.env.platform.pointer >= 2
    && LineOf(p.lines, "incr") == Some(b) && LineOf(p.lines, "call_incr") == Some(b + 22)
    && forall k :: 0 <= k < 32 ==> LineAt(p, b + k, IncrLine(k))
  }

  lemma IncrIdioms(p: LProgram, b: nat)
    requires HasIncr(p, b)
    ensures StoreNewAt(p, b, 0) && StoreNewAt(p, b + 5, 2)
    ensures LoadAt(p, b + 10, 2) && LoadAt(p, b + 13, 0) && LoadAt(p, b + 18, 0)
    ensures LoadAt(p, b + 22, 2) && LoadAt(p, b + 25, 0)
  {
    hide LineAt, IncrLine;
    StoreNewIs(p, b, 0, 0);
    StoreNewIs(p, b, 5, 2);
    LoadIs(p, b, 10, 2);
    LoadIs(p, b, 13, 0);
    LoadIs(p, b, 18, 0);
    LoadIs(p, b, 22, 2);
    LoadIs(p, b, 25, 0);
  }

  lemma StoreNewIs(p: LProgram, b: nat, at: nat, off: word)
    requires HasIncr(p, b) && (at, off) in {(0, 0), (5, 2)}
    ensures StoreNewAt(p, b + at, off)
  {
    hide LineAt;
    assert LineAt(p, b + (at + 0), IncrLine(at + 0)) && LineAt(p, b + (at + 1), IncrLine(at + 1));
    assert LineAt(p, b + (at + 2), IncrLine(at + 2)) && LineAt(p, b + (at + 3), IncrLine(at + 3));
    assert LineAt(p, b + (at + 4), IncrLine(at + 4));
  }

  lemma LoadIs(p: LProgram, b: nat, at: nat, off: word)
    requires HasIncr(p, b) && (at, off) in {(10, 2), (13, 0), (18, 0), (22, 2), (25, 0)}
    ensures LoadAt(p, b + at, off)
  {
    hide LineAt;
    assert LineAt(p, b + (at + 0), IncrLine(at + 0)) && LineAt(p, b + (at + 1), IncrLine(at + 1));
    assert LineAt(p, b + (at + 2), IncrLine(at + 2));
  }

  /** Lines run by a call of `.incr` that recurses `m` times. */
  function Steps(m: nat): nat { 23 + 28 * m }

  /** Both locals of `.incr` in place. */
  predicate LocalsAre(stk: Stk, i: word, n: word) {
    stk.sp == stk.bp + 4 && LocalIs(stk, 0, i) && LocalIs(stk, 2, n)
  }

  /** The arguments are moved to the locals `$i` and `$n`, or the VM exits. */
  lemma Prologue(p: LProgram, b: nat, th: LThread, i: word, n: word, live: seq<byte>, ins: seq<Input>)
    returns (t: LThread)
    requires p.Valid() && HasIncr(p, b) && th.pc == At(b)
    requires OpsAre(th.ops, live + HighLow(n) + HighLow(i), 4) && |ins| >= 10
    requires th.stk.bp == th.stk.sp <= |th.stk.data| < 65534
    ensures th.stk.sp + 4 <= |th.stk.data| ==>
              && t.pc == At(b + 10) && OpsAre(t.ops, live, 8)
              && LocalsAre(t.stk, i, n) && t.stk.bp == th.stk.bp
              && |t.stk.data| == |th.stk.data| && AgreeBelow(t.stk.data, th.stk.data, th.stk.bp)
              && Observe(p, th, ins) == Observe(p, t, ins[10..])
    ensures th.stk.sp + 4 > |th.stk.data| ==>
              Observe(p, th, ins).loud == [] && Observe(p, th, ins).end == Exited(FAILURE)
  {
    hide LowHigh, HighLow, Observe, LineAt, LProgram.Step, HasIncr, LoadAt, StoreNewAt, Appended;
    IncrIdioms(p, b);
    assert p.env.platform.pointer >= 2 by { PointerFits(p, b); }
    t := StoreNew(p, th, b, 0, i, live + HighLow(n), 4, ins);
    if th.stk.sp + 2 <= |th.stk.data| {
      AppendedIs(th.stk, i);
      var t1 := t;
      t := StoreNew(p, t1, b + 5, 2, n, live, 6, ins[5..]);
      if th.stk.sp + 4 <= |th.stk.data| {
        AppendedIs(t1.stk, n);
        AgreeShorter(t.stk.data, t1.stk.data, th.stk.bp + 2, th.stk.bp);
        SliceOfSlice(t.stk.data, 0, th.stk.bp + 2, th.stk.bp, th.stk.bp + 2);
        SliceOfSlice(t1.stk.data, 0, th.stk.bp + 2, th.stk.bp, th.stk.bp + 2);
      }
    }
  }

  lemma PointerFits(p: LProgram, b: nat)
    requires HasIncr(p, b)
    ensures p.env.platform.pointer >= 2
  {
  }

  lemma AppendedIs(stk: Stk, w: word)
    requires stk.sp + 2 <= |stk.data| < 65534
    ensures var t := Appended(stk, w);
            && t.sp == stk.sp + 2 && t.bp == stk.bp && |t.data| == |stk.data|
            && AgreeBelow(t.data, stk.data, stk.sp)
            && t.data[stk.sp..stk.sp + 2] == HighLow(w)
            && t.data[stk.sp + 2..] == stk.data[stk.sp + 2..]
  {
    hide HighLow;
    Middle(stk.data[..stk.sp], HighLow(w), stk.data[stk.sp + 2..]);
  }

  /** The test `i == n`: on to the base case, or to `.call_incr`. */
  lemma Test(p: LProgram, b: nat, th: LThread, i: word, n: word, live: seq<byte>, ins: seq<Input>)
    returns (t: LThread)
    requires p.Valid() && HasIncr(p, b) && th.pc == At(b + 10) && |ins| >= 8
    requires OpsAre(th.ops, live, 8) && LocalsAre(th.stk, i, n)
    ensures t == LThread(At(if i == n then b + 18 else b + 22), t.ops, th.stk) && OpsAre(t.ops, live, 8)
    ensures Observe(p, th, ins) == Observe(p, t, ins[8..])
  {
    hide LowHigh, HighLow, Observe, LineAt, LProgram.Step, DataOp, LocalIs, LoadAt, StoreNewAt;
    IncrIdioms(p, b);
    var t1 := Load(p, th, b + 10, 2, n, live, 8, ins);
    var t2 := Load(p, t1, b + 13, 0, i, live + HighLow(n), 6, ins[3..]);
    assert IncrLine(16) == Ins(Compare(Eq), NoArg) && IncrLine(17) == Ins(PopJumpIfFalse, LabelRef("call_incr"));
    assert LineAt(p, b + 16, IncrLine(16)) && LineAt(p, b + 17, IncrLine(17));
    var ops := CompareEffect(p.env, t2.ops, t2.stk, n, i, live, ins[6]);
    var t3 := OpStep(p, t2, b + 16, Compare(Eq), ops, th.stk, ins[6..]);
    t := BranchStep(p, t3, b + 17, "call_incr", b + 22, live, i == n, ins[7..]);
  }

  lemma CompareEffect(env: Env, ops: Stk, stk: Stk, a: word, b: word, live: seq<byte>, input: Input)
    returns (r: Stk)
    requires OpsAre(ops, live + HighLow(a) + HighLow(b), 4)
    ensures OpsAre(r, live + [if a == b then 1 else 0], 7)
    ensures DataOp(env, Instr(Compare(Eq), []), ops, stk, input) == Done(Effect(r, stk, Silent))
  {
    hide LowHigh, HighLow, PopWord;
    PopTopWord(ops, live + HighLow(a), b, 4);
    var ops1 := ops.(sp := |live + HighLow(a)|);
    PopTopWord(ops1, live, a, 6);
    var ops2 := ops1.(sp := |live|);
    var flag: seq<byte> := [if a == b then 1 else 0];
    PushLive(ops2, flag);
    assert Rev(flag) == flag;
    r := Push(ops2, flag).value;
  }

  lemma BranchStep(p: LProgram, th: LThread, k: nat, name: string, target: nat, live: seq<byte>, taken: bool, ins: seq<Input>)
    returns (t: LThread)
    requires p.Valid() && th.pc == At(k) && LineAt(p, k, Ins(PopJumpIfFalse, LabelRef(name)))
    requires LineOf(p.lines, name) == Some(target) && ins != []
    requires OpsAre(th.ops, live + [if taken then 1 else 0], 7)
    ensures t == LThread(At(if taken then k + 1 else target), t.ops, th.stk) && OpsAre(t.ops, live, 8)
    ensures Observe(p, th, ins) == Observe(p, t, ins[1..])
  {
    hide Observe, DataOp;
    var s := th.ops;
    assert s.data[s.sp - 1] == s.Live()[|live|];
    var ops := s.(sp := |live|);
    assert ops.Live() == s.Live()[..|live|] == live;
    t := LThread(At(if taken then k + 1 else target), ops, th.stk);
    Unseen(p, th, t, ins);
  }

  /** RETURN from a frame at `sp`. */
  lemma ReturnStep(p: LProgram, th: LThread, k: nat, c: nat, sp: word, bp: word, ins: seq<Input>)
    returns (t: LThread)
    requires p.Valid() && th.pc == At(k) && LineAt(p, k, Ins(Return, NoArg)) && ins != []
    requires c < |p.Code()| && sp + 4 == th.stk.bp <= |th.stk.data|
    requires th.stk.data[sp..sp + 4] == HighLow(p.tokens[c]) + HighLow(bp)
    ensures t == LThread(At(c), th.ops, Stk(th.stk.data, sp, bp))
    ensures Observe(p, th, ins).loud == Observe(p, t, ins[1..]).loud
    ensures Observe(p, th, ins).end == Observe(p, t, ins[1..]).end
    ensures Observe(p, th, ins).peak == Max(th.stk.sp, Observe(p, t, ins[1..]).peak)
  {
    hide DataOp, PopFrame, HighLow;
    Frames.PopFrameAt(th.stk, p.tokens[c], bp);
    assert p.Decode(p.tokens[c]) == At(c);
    t := LThread(At(c), th.ops, Stk(th.stk.data, sp, bp));
  }

  lemma CallStep(p: LProgram, th: LThread, c: nat, name: string, target: nat, ins: seq<Input>)
    returns (t: LThread)
    requires p.Valid() && th.pc == At(c) && LineAt(p, c, Ins(Call, LabelRef(name)))
    requires LineOf(p.lines, name) == Some(target) && ins != []
    requires Frames.Framed(th.stk) && th.stk.sp <= |th.stk.data| < 65534
    ensures th.stk.sp + 4 <= |th.stk.data| ==>
              && t.pc == At(target) && t.ops == th.ops && t.stk.sp == t.stk.bp == th.stk.sp + 4
              && |t.stk.data| == |th.stk.data| && AgreeBelow(t.stk.data, th.stk.data, th.stk.sp)
              && t.stk.data[th.stk.sp..th.stk.sp + 4] == HighLow(p.tokens[c + 1]) + HighLow(th.stk.bp)
              && Observe(p, th, ins) == Observe(p, t, ins[1..])
    ensures th.stk.sp + 4 > |th.stk.data| ==>
              Observe(p, th, ins).loud == [] && Observe(p, th, ins).end == Exited(FAILURE)
  {
    hide DataOp, PushFrame, HighLow, Observe;
    t := th;
    Handlers.CallFits(Thread(p.tokens[c + 1], th.ops, th.stk), 0);
    if th.stk.sp + 4 <= |th.stk.data| {
      Frames.PushFrameShape(th.stk, p.tokens[c + 1]);
      t := LThread(At(target), th.ops, PushFrame(th.stk, p.tokens[c + 1]).value);
      Unseen(p, th, t, ins);
    } else {
      Stops(p, th, ins);
    }
  }

  /** How often `.incr` recurses: until `i`, counted modulo 2^16, reaches `n`. */
  function Depth(i: word, n: word): nat { Wrap(n - i) }

  /** The result of a call: control is back at line `c` with `n` in place of the arguments, and the
      caller's `bp`, `sp` and live call stack. */
  predicate Returned(p: LProgram, th: LThread, t: LThread, c: nat, n: word, live: seq<byte>) {
    && t.pc == At(c) && OpsAre(t.ops, live + HighLow(n), 6)
    && t.stk.bp == th.stk.bp && t.stk.sp == th.stk.sp
    && |t.stk.data| == |th.stk.data| && AgreeBelow(t.stk.data, th.stk.data, th.stk.sp)
  }

  predicate SameButPeak(a: Summary, b: Summary, peak: int) {
    a.loud == b.loud && a.end == b.end && a.peak == Max(peak, b.peak)
  }

  /** The base case from `.incr` at `i == n`: push `$i` and return. */
  lemma BaseCase(p: LProgram, b: nat, th: LThread, c: nat, sp: word, bp: word, i: word, n: word, live: seq<byte>, ins: seq<Input>)
    returns (t: LThread)
    requires p.Valid() && HasIncr(p, b) && th.pc == At(b + 18) && |ins| >= 4
    requires OpsAre(th.ops, live, 8) && LocalsAre(th.stk, i, n)
    requires c < |p.Code()| && sp + 4 == th.stk.bp <= |th.stk.data|
    requires th.stk.data[sp..sp + 4] == HighLow(p.tokens[c]) + HighLow(bp)
    ensures t == LThread(At(c), t.ops, Stk(th.stk.data, sp, bp)) && OpsAre(t.ops, live + HighLow(i), 6)
    ensures SameButPeak(Observe(p, th, ins), Observe(p, t, ins[4..]), sp + 8)
  {
    hide LowHigh, HighLow, Observe, LineAt, LProgram.Step, DataOp, LoadAt, StoreNewAt;
    IncrIdioms(p, b);
    var t1 := Load(p, th, b + 18, 0, i, live, 8, ins);
    assert IncrLine(21) == Ins(Return, NoArg) && LineAt(p, b + 21, IncrLine(21));
    t := ReturnStep(p, t1, b + 21, c, sp, bp, ins[3..]);
  }

  /** From `.call_incr` to the inner call: `n` and `i + 1` are pushed. */
  lemma Arguments(p: LProgram, b: nat, th: LThread, i: word, n: word, live: seq<byte>, ins: seq<Input>)
    returns (t: LThread)
    requires p.Valid() && HasIncr(p, b) && th.pc == At(b + 22) && |ins| >= 8
    requires OpsAre(th.ops, live, 8) && LocalsAre(th.stk, i, n)
    ensures t == LThread(At(b + 30), t.ops, th.stk) && OpsAre(t.ops, live + HighLow(n) + HighLow(Wrap(i + 1)), 4)
    ensures Observe(p, th, ins) == Observe(p, t, ins[8..])
  {
    hide LowHigh, HighLow, Observe, LineAt, LProgram.Step, DataOp, LoadAt, StoreNewAt, LocalIs;
    IncrIdioms(p, b);
    var t1 := Load(p, th, b + 22, 2, n, live, 8, ins);
    var t2 := Load(p, t1, b + 25, 0, i, live + HighLow(n), 6, ins[3..]);
    assert IncrLine(28) == Ins(PushLU16, Num(1)) && IncrLine(29) == Ins(U16(Add), NoArg);
    assert LineAt(p, b + 28, IncrLine(28)) && LineAt(p, b + 29, IncrLine(29));
    var x := live + HighLow(n);
    var t3 := PushStep(p, t2, b + 28, 1, x + HighLow(i), 4, ins[6..]);
    var ops := AddEffect(p.env, t3.ops, t3.stk, i, 1, x, 2, ins[7]);
    t := OpStep(p, t3, b + 29, U16(Add), ops, th.stk, ins[7..]);
  }

  lemma AddEffect(env: Env, ops: Stk, stk: Stk, a: word, b: word, live: seq<byte>, room: nat, input: Input)
    returns (r: Stk)
    requires OpsAre(ops, live + HighLow(a) + HighLow(b), room)
    ensures OpsAre(r, live + HighLow(Wrap(a + b)), room + 2)
    ensures DataOp(env, Instr(U16(Add), []), ops, stk, input) == Done(Effect(r, stk, Silent))
  {
    hide LowHigh, HighLow, PopWord, PushWord;
    PopTopWord(ops, live + HighLow(a), b, room);
    var ops1 := ops.(sp := |live + HighLow(a)|);
    PopTopWord(ops1, live, a, room + 2);
    var ops2 := ops1.(sp := |live|);
    PushWordLive(ops2, Wrap(a + b));
    r := PushWord(ops2, Wrap(a + b)).value;
  }

  /** One level of `.incr`, as seen from inside: the locals and the frame that leads back to line `c`. */
  predicate Entered(p: LProgram, th: LThread, t: LThread, c: nat, i: word, n: word, live: seq<byte>)
    requires c < |p.tokens|
  {
    && OpsAre(t.ops, live, 8) && LocalsAre(t.stk, i, n)
    && t.stk.bp == th.stk.sp + 4 && |t.stk.data| == |th.stk.data|
    && AgreeBelow(t.stk.data, th.stk.data, th.stk.sp)
    && t.stk.data[th.stk.sp..th.stk.sp + 4] == HighLow(p.tokens[c]) + HighLow(th.stk.bp)
  }

  /** Call, prologue and test: eight bytes of call stack for the level, or the VM exits. */
  lemma Enter(p: LProgram, b: nat, th: LThread, c: nat, i: word, n: word, live: seq<byte>, ins: seq<Input>)
    returns (t: LThread)
    requires p.Valid() && HasIncr(p, b)
    requires th.pc == At(c) && LineAt(p, c, Ins(Call, LabelRef("incr"))) && c + 1 < |p.Code()|
    requires OpsAre(th.ops, live + HighLow(n) + HighLow(i), 4) && |ins| >= 19
    requires Frames.Framed(th.stk) && th.stk.sp <= |th.stk.data| < 65534
    ensures th.stk.sp + 8 <= |th.stk.data| ==>
              && t.pc == At(if i == n then b + 18 else b + 22) && Entered(p, th, t, c + 1, i, n, live)
              && Observe(p, th, ins) == Observe(p, t, ins[19..])
    ensures th.stk.sp + 8 > |th.stk.data| ==>
              Observe(p, th, ins).loud == [] && Observe(p, th, ins).end == Exited(FAILURE)
  {
    hide LowHigh, HighLow, Observe, LineAt, LProgram.Step, DataOp, HasIncr, LoadAt, StoreNewAt, LocalIs, IncrLine;
    assert LineOf(p.lines, "incr") == Some(b) by { IncrIsAt(p, b); }
    t := CallStep(p, th, c, "incr", b, ins);
    if th.stk.sp + 4 <= |th.stk.data| {
      var t0 := t;
      t := Prologue(p, b, t0, i, n, live, ins[1..]);
      if th.stk.sp + 8 <= |th.stk.data| {
        var t1 := t;
        FrameKept(th, t0, t1, p.tokens[c + 1]);
        t := Test(p, b, t1, i, n, live, ins[11..]);
      }
    }
  }

  /** The recursion theorem, for every `i` and `n`. With `m = (n - i) mod 2^16`, a call of `.incr`
      returns `n` after `23 + 28 * m` lines, its call-stack peak being exactly `8 * (m + 1)` bytes
      above entry, if and only if that much room is left; otherwise the VM exits with a failure. */
  lemma {:induction false} IncrCall(p: LProgram, b: nat, th: LThread, c: nat, i: word, n: word, live: seq<byte>, ins: seq<Input>)
    returns (t: LThread)
    requires p.Valid() && HasIncr(p, b)
    requires th.pc == At(c) && LineAt(p, c, Ins(Call, LabelRef("incr"))) && c + 1 < |p.Code()|
    requires OpsAre(th.ops, live + HighLow(n) + HighLow(i), 4)
    requires Frames.Framed(th.stk) && th.stk.sp <= |th.stk.data| < 65534
    requires |ins| >= Steps(Depth(i, n))
    ensures var m := Depth(i, n);
            && (th.stk.sp + 8 * (m + 1) <= |th.stk.data| ==>
                  && Returned(p, th, t, c + 1, n, live)
                  && SameButPeak(Observe(p, th, ins), Observe(p, t, ins[Steps(m)..]), th.stk.sp + 8 * (m + 1)))
            && (th.stk.sp + 8 * (m + 1) > |th.stk.data| ==>
                  Observe(p, th, ins).loud == [] && Observe(p, th, ins).end == Exited(FAILURE))
    decreases Depth(i, n)
  {
    hide LowHigh, HighLow, Observe, LineAt, LProgram.Step, DataOp, HasIncr, LoadAt, StoreNewAt, LocalIs, IncrLine;
    var sp: nat, size: nat := th.stk.sp, |th.stk.data|;
    t := Enter(p, b, th, c, i, n, live, ins);
    if sp + 8 <= size {
      var t2 := t;
      if i == n {
        t := BaseCase(p, b, t2, c + 1, sp, th.stk.bp, i, n, live, ins[19..]);
      } else {
        t := Recurse(p, b, th, t2, c, i, n, live, ins[19..]);
      }
    }
  }

  lemma {:induction false} Recurse(p: LProgram, b: nat, th: LThread, t2: LThread, c: nat, i: word, n: word, live: seq<byte>, ins: seq<Input>)
    returns (t: LThread)
    requires p.Valid() && HasIncr(p, b) && i != n && c + 1 < |p.Code()|
    requires t2.pc == At(b + 22) && Entered(p, th, t2, c + 1, i, n, live)
    requires th.stk.sp + 8 <= |th.stk.data| < 65534
    requires |ins| >= Steps(Depth(i, n)) - 19
    ensures var m := Depth(i, n);
            && (th.stk.sp + 8 * (m + 1) <= |th.stk.data| ==>
                  && Returned(p, th, t, c + 1, n, live)
                  && SameButPeak(Observe(p, t2, ins), Observe(p, t, ins[Steps(m) - 19..]), th.stk.sp + 8 * (m + 1)))
            && (th.stk.sp + 8 * (m + 1) > |th.stk.data| ==>
                  Observe(p, t2, ins).loud == [] && Observe(p, t2, ins).end == Exited(FAILURE))
    decreases Depth(i, n), 0
  {
    hide LowHigh, HighLow, Observe, LineAt, LProgram.Step, DataOp, HasIncr, LocalIs, IncrLine, LineOf;
    var m := Depth(i, n);
    var sp: nat := th.stk.sp;
    DepthStep(i, n);
    IncrIsAt(p, b);
    var t3 := Arguments(p, b, t2, i, n, live, ins);
    var t4 := IncrCall(p, b, t3, b + 30, Wrap(i + 1), n, live, ins[8..]);
    t := t4;
    if sp + 8 * (m + 1) <= |th.stk.data| {
      InnerKept(th, t3, t4, p.tokens[c + 1]);
      Drops(ins, 8, Steps(m - 1));
      Drops(ins, 8 + Steps(m - 1), 1);
      t := ReturnStep(p, t4, b + 31, c + 1, sp, th.stk.bp, ins[8 + Steps(m - 1)..]);
    }
  }

  lemma Drops(ins: seq<Input>, a: nat, b: nat)
    requires a + b <= |ins|
    ensures ins[a..][b..] == ins[a + b..]
  {
  }

  lemma IncrIsAt(p: LProgram, b: nat)
    requires HasIncr(p, b)
    ensures LineOf(p.lines, "incr") == Some(b) && b + 31 < |p.Code()|
    ensures LineAt(p, b + 30, Ins(Call, LabelRef("incr"))) && LineAt(p, b + 31, Ins(Return, NoArg))
  {
    assert LineAt(p, b + 30, IncrLine(30)) && LineAt(p, b + 31, IncrLine(31));
  }

  lemma DepthStep(i: word, n: word)
    requires i != n
    ensures Depth(i, n) > 0 && Depth(Wrap(i + 1), n) == Depth(i, n) - 1
  {
  }

  /** Storing the locals leaves the frame as it is. */
  lemma FrameKept(th: LThread, t0: LThread, t1: LThread, back: word)
    requires t0.stk.bp == th.stk.sp + 4 <= |t0.stk.data| == |th.stk.data|
    requires AgreeBelow(t0.stk.data, th.stk.data, th.stk.sp)
    requires t0.stk.data[th.stk.sp..th.stk.sp + 4] == HighLow(back) + HighLow(th.stk.bp)
    requires |t1.stk.data| == |t0.stk.data| && AgreeBelow(t1.stk.data, t0.stk.data, th.stk.sp + 4)
    ensures AgreeBelow(t1.stk.data, th.stk.data, th.stk.sp)
    ensures t1.stk.data[th.stk.sp..th.stk.sp + 4] == HighLow(back) + HighLow(th.stk.bp)
  {
    hide HighLow;
    var sp: nat := th.stk.sp;
    AgreeShorter(t1.stk.data, t0.stk.data, sp + 4, sp);
    SliceOfSlice(t1.stk.data, 0, sp + 4, sp, sp + 4);
    SliceOfSlice(t0.stk.data, 0, sp + 4, sp, sp + 4);
  }

  /** And so does the inner call. */
  lemma InnerKept(th: LThread, t3: LThread, t4: LThread, back: word)
    requires th.stk.sp + 8 <= |t3.stk.data| == |th.stk.data| && |t4.stk.data| == |t3.stk.data|
    requires AgreeBelow(t3.stk.data, th.stk.data, th.stk.sp)
    requires t3.stk.data[th.stk.sp..th.stk.sp + 4] == HighLow(back) + HighLow(th.stk.bp)
    requires AgreeBelow(t4.stk.data, t3.stk.data, th.stk.sp + 8)
    ensures AgreeBelow(t4.stk.data, th.stk.data, th.stk.sp)
    ensures t4.stk.data[th.stk.sp..th.stk.sp + 4] == HighLow(back) + HighLow(th.stk.bp)
  {
    hide HighLow;
    var sp: nat := th.stk.sp;
    AgreeShorter(t4.stk.data, t3.stk.data, sp + 8, sp);
    SliceOfSlice(t4.stk.data, 0, sp + 8, sp, sp + 4);
    SliceOfSlice(t3.stk.data, 0, sp + 8, sp, sp + 4);
  }
}
