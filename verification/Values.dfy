/** The operand stack as a stack of typed values: the byte operations refine it. */
module Values {
  import opened Bytes
  import opened ByteStack
  import opened Isa
  import opened Machine

  /** A comparison result, a 16-bit number, a float. */
  datatype Value = Flag(b: byte) | Num(w: word) | Real(bits: Quad)

  /** The bytes of a value on the stack. */
  function BytesOf(v: Value): (s: seq<byte>)
    ensures 1 <= |s| <= 4
  {
    match v case Flag(b) => [b] case Num(w) => HighLow(w) case Real(q) => Rev(q)
  }

  function Flat(vs: seq<Value>): seq<byte> {
    if vs == [] then [] else Flat(vs[..|vs| - 1]) + BytesOf(vs[|vs| - 1])
  }

  lemma FlatPush(vs: seq<Value>, v: Value)
    ensures Flat(vs + [v]) == Flat(vs) + BytesOf(v)
  {
    assert (vs + [v])[..|vs|] == vs;
  }

  /** The stack holds exactly the values `vs`. */
  predicate Holds(s: Stk, vs: seq<Value>) {
    s.Within() && |s.data| < 65532 && s.Live() == Flat(vs)
  }

  function NumResult(r: Outcome<word>): Option<Value> {
    if r.Done? then Some(Num(r.value)) else None
  }

  /** The result of a two-operand instruction. */
  function Binary(op: Op, a: Value, b: Value, input: Input): Option<Value> {
    if a.Num? && b.Num? then
      match op
      case Compare(c) => Some(Flag(if CmpHolds(c, Signed(a.w), Signed(b.w)) then 1 else 0))
      case U16(alu) => NumResult(U16Result(alu, a.w, b.w))
      case I16(alu) => NumResult(I16Result(alu, a.w, b.w))
      case Bits(bit) => NumResult(BitResult(bit, a.w, b.w))
      case _ => None
    else if a.Real? && b.Real? && op.F32? then Some(Real(input.float))
    else None
  }

  predicate IsBinary(op: Op) { op.Compare? || op.U16? || op.I16? || op.Bits? || op.F32? }

  predicate IsPush(op: Op) { op in {PushLU16, PushLI16, PushLF32, PushMillis} }

  predicate IsPop(op: Op) { op in {PopU16, PopI16, PopF32} }

  function Pushed(i: Instr, input: Input): Value
    requires i.Valid() && IsPush(i.op)
  {
    if i.op.PushMillis? then Num(input.millis)
    else if i.op.PushLF32? then Real(i.arg)
    else Num(i.Word())
  }

  /** One instruction on typed values; `None` where the types do not match or C leaves the result open. */
  function ValueStep(i: Instr, vs: seq<Value>, input: Input): Option<seq<Value>>
    requires i.Valid()
  {
    if IsPush(i.op) then Some(vs + [Pushed(i, input)])
    else if IsPop(i.op) then
      if vs != [] && (if i.op.PopF32? then vs[|vs| - 1].Real? else vs[|vs| - 1].Num?) then Some(vs[..|vs| - 1]) else None
    else if i.op.NotU16? then
      if vs != [] && vs[|vs| - 1].Num? then Some(vs[..|vs| - 1] + [Num(65535 - vs[|vs| - 1].w)]) else None
    else if IsBinary(i.op) && |vs| >= 2 then
      var r := Binary(i.op, vs[|vs| - 2], vs[|vs| - 1], input);
      if r.Some? then Some(vs[..|vs| - 2] + [r.value]) else None
    else None
  }

  /** `r` is the push of `v` on a stack that holds `vs`: the new stack, or the overflow exit. */
  ghost predicate Pushes(r: Outcome<Effect>, s: Stk, vs: seq<Value>, v: Value, stk: Stk) {
    if |Flat(vs)| + |BytesOf(v)| <= |s.data| then
      r.Done? && r.value.stk == stk && r.value.event == Silent
      && Holds(r.value.ops, vs + [v]) && |r.value.ops.data| == |s.data| && r.value.ops.bp == s.bp
    else r == Exited(FAILURE)
  }

  lemma PushRefines(s: Stk, vs: seq<Value>, value: seq<byte>, v: Value, stk: Stk)
    requires Holds(s, vs) && Rev(value) == BytesOf(v)
    ensures Pushes(OnOps(Push(s, value), stk), s, vs, v, stk)
  {
    PushLive(s, value);
    FlatPush(vs, v);
  }

  lemma PushNumRefines(s: Stk, vs: seq<Value>, w: word, stk: Stk)
    requires Holds(s, vs)
    ensures Pushes(OnOps(PushWord(s, w), stk), s, vs, Num(w), stk)
  {
    assert Rev(LowHigh(w)) == HighLow(w);
    PushRefines(s, vs, LowHigh(w), Num(w), stk);
  }

  /** `s` with only the values `vs` left. */
  function Beneath(s: Stk, vs: seq<Value>): Stk
    requires |Flat(vs)| < 65536
  {
    s.(sp := |Flat(vs)|)
  }

  lemma HoldsBeneath(s: Stk, vs: seq<Value>, v: Value)
    requires Holds(s, vs + [v])
    ensures |Flat(vs)| + |BytesOf(v)| == s.sp <= |s.data| < 65532
    ensures s.data[..s.sp] == Flat(vs) + BytesOf(v)
    ensures Holds(Beneath(s, vs), vs)
  {
    hide Flat, BytesOf;
    FlatPush(vs, v);
    assert s.data[..|Flat(vs)|] == s.Live()[..|Flat(vs)|] == Flat(vs);
  }

  /** Popping the bytes of the top value leaves the values below it. */
  lemma PopRefines(s: Stk, vs: seq<Value>, v: Value)
    requires Holds(s, vs + [v])
    ensures |Flat(vs)| < 65536 && Holds(Beneath(s, vs), vs)
    ensures Pop(s, |BytesOf(v)|) == Done((Rev(BytesOf(v)), Beneath(s, vs)))
  {
    hide Flat, BytesOf, Rev, Holds;
    HoldsBeneath(s, vs, v);
    SliceOfSlice(s.data, 0, s.sp, |Flat(vs)|, s.sp);
  }

  lemma PopNumRefines(s: Stk, vs: seq<Value>, w: word)
    requires Holds(s, vs + [Num(w)])
    ensures |Flat(vs)| < 65536 && Holds(Beneath(s, vs), vs)
    ensures PopWord(s) == Done((w, Beneath(s, vs)))
  {
    hide Flat, Holds, Pop, HighLow, LowHigh, Rev;
    PopRefines(s, vs, Num(w));
    HighLowReversed(w);
    LowHighInjective(ToWord(LowHigh(w)[0], LowHigh(w)[1]), w);
  }

  lemma PopPairRefines(s: Stk, vs: seq<Value>, a: word, b: word)
    requires Holds(s, vs + [Num(a)] + [Num(b)])
    ensures |Flat(vs)| < 65536 && Holds(Beneath(s, vs), vs)
    ensures PopPair(s) == Done((a, b, Beneath(s, vs)))
  {
    hide PopWord, Holds, Flat;
    PopNumRefines(s, vs + [Num(a)], b);
    PopNumRefines(Beneath(s, vs + [Num(a)]), vs, a);
  }

  lemma BinaryRefines(env: Env, i: Instr, s: Stk, vs: seq<Value>, a: Value, b: Value, stk: Stk, input: Input)
    requires i.Valid() && IsBinary(i.op) && Binary(i.op, a, b, input).Some?
    requires Holds(s, vs + [a] + [b])
    ensures Pushes(DataOp(env, i, s, stk, input), s, vs, Binary(i.op, a, b, input).value, stk)
  {
    hide DataOp, Holds, Pushes, Flat, U16Result, I16Result, BitResult, CmpHolds, HighLow, LowHigh, Rev;
    if i.op.F32? {
      RealInstr(env, i, s, vs, a.bits, b.bits, stk, input);
    } else if i.op.Compare? {
      CompareInstr(env, i, s, vs, a.w, b.w, stk, input);
    } else {
      NumberInstr(env, i, s, vs, a.w, b.w, stk, input);
    }
  }

  lemma RealInstr(env: Env, i: Instr, s: Stk, vs: seq<Value>, a: Quad, b: Quad, stk: Stk, input: Input)
    requires i.Valid() && i.op.F32? && Holds(s, vs + [Real(a)] + [Real(b)])
    ensures Pushes(DataOp(env, i, s, stk, input), s, vs, Real(input.float), stk)
  {
    hide Push, Pop, Holds, Pushes, OnOps, Rev, Flat;
    RealBytes(b);
    RealBytes(a);
    PopRefines(s, vs + [Real(a)], Real(b));
    PopRefines(Beneath(s, vs + [Real(a)]), vs, Real(a));
    RealBytes(input.float);
    PushRefines(Beneath(s, vs), vs, input.float, Real(input.float), stk);
    PushesSame(OnOps(Push(Beneath(s, vs), input.float), stk), s, Beneath(s, vs), vs, Real(input.float), stk);
  }

  lemma CompareInstr(env: Env, i: Instr, s: Stk, vs: seq<Value>, a: word, b: word, stk: Stk, input: Input)
    requires i.Valid() && i.op.Compare? && Holds(s, vs + [Num(a)] + [Num(b)])
    ensures var v := Flag(if CmpHolds(i.op.cmp, Signed(a), Signed(b)) then 1 else 0);
            Pushes(DataOp(env, i, s, stk, input), s, vs, v, stk)
  {
    hide PopPair, Push, Holds, Pushes, OnOps, Rev, Flat, CmpHolds;
    PopPairRefines(s, vs, a, b);
    var flag: byte := if CmpHolds(i.op.cmp, Signed(a), Signed(b)) then 1 else 0;
    FlagBytes(flag);
    PushRefines(Beneath(s, vs), vs, [flag], Flag(flag), stk);
    PushesSame(OnOps(Push(Beneath(s, vs), [flag]), stk), s, Beneath(s, vs), vs, Flag(flag), stk);
  }

  lemma NumberInstr(env: Env, i: Instr, s: Stk, vs: seq<Value>, a: word, b: word, stk: Stk, input: Input)
    requires i.Valid() && IsBinary(i.op) && !i.op.Compare? && !i.op.F32?
    requires Holds(s, vs + [Num(a)] + [Num(b)]) && Binary(i.op, Num(a), Num(b), input).Some?
    ensures Pushes(DataOp(env, i, s, stk, input), s, vs, Binary(i.op, Num(a), Num(b), input).value, stk)
  {
    hide PopPair, PushWord, Holds, Pushes, OnOps, Flat, U16Result, I16Result, BitResult, HighLow;
    PopPairRefines(s, vs, a, b);
    var v := Binary(i.op, Num(a), Num(b), input).value;
    PushNumRefines(Beneath(s, vs), vs, v.w, stk);
    PushesSame(OnOps(PushWord(Beneath(s, vs), v.w), stk), s, Beneath(s, vs), vs, v, stk);
  }

  lemma RealBytes(q: Quad)
    ensures Rev(q) == BytesOf(Real(q)) && |BytesOf(Real(q))| == 4
  {
  }

  lemma FlagBytes(b: byte)
    ensures Rev([b]) == BytesOf(Flag(b))
  {
  }

  lemma PushesSame(r: Outcome<Effect>, s: Stk, t: Stk, vs: seq<Value>, v: Value, stk: Stk)
    requires Pushes(r, t, vs, v, stk) && |t.data| == |s.data| && t.bp == s.bp
    ensures Pushes(r, s, vs, v, stk)
  {
  }

  /** The byte stack refines the stack of typed values: an instruction that makes sense on the values
      does the same on the bytes, or exits exactly when the new values do not fit. */
  lemma StackRefines(env: Env, i: Instr, s: Stk, vs: seq<Value>, stk: Stk, input: Input)
    requires i.Valid() && Holds(s, vs) && ValueStep(i, vs, input).Some?
    ensures !IsControl(i.op)
    ensures var r := DataOp(env, i, s, stk, input);
            var vs' := ValueStep(i, vs, input).value;
            if |Flat(vs')| <= |s.data| then
              r.Done? && r.value.stk == stk && r.value.event == Silent
              && Holds(r.value.ops, vs') && |r.value.ops.data| == |s.data| && r.value.ops.bp == s.bp
            else r == Exited(FAILURE)
  {
    hide DataOp, Holds, Binary, Flat, BytesOf;
    if IsPush(i.op) {
      PushInstr(env, i, s, vs, stk, input);
      FlatPush(vs, Pushed(i, input));
    } else if IsPop(i.op) {
      PopInstr(env, i, s, vs, stk, input);
    } else if i.op.NotU16? {
      var below, w := vs[..|vs| - 1], vs[|vs| - 1].w;
      assert vs == below + [Num(w)];
      NotInstr(env, i, s, below, w, stk, input);
      FlatPush(below, Num(65535 - w));
    } else {
      var below, a, b := vs[..|vs| - 2], vs[|vs| - 2], vs[|vs| - 1];
      assert vs == below + [a] + [b];
      BinaryRefines(env, i, s, below, a, b, stk, input);
      FlatPush(below, Binary(i.op, a, b, input).value);
    }
  }

  lemma PushInstr(env: Env, i: Instr, s: Stk, vs: seq<Value>, stk: Stk, input: Input)
    requires i.Valid() && IsPush(i.op) && Holds(s, vs)
    ensures Pushes(DataOp(env, i, s, stk, input), s, vs, Pushed(i, input), stk)
  {
    hide Push, PushWord, Holds, Pushes, OnOps;
    if i.op.PushMillis? {
      PushNumRefines(s, vs, input.millis, stk);
    } else if i.op.PushLF32? {
      RealBytes(i.arg);
      PushRefines(s, vs, i.arg, Real(i.arg), stk);
    } else {
      assert Rev(i.arg) == HighLow(i.Word());
      PushRefines(s, vs, i.arg, Num(i.Word()), stk);
    }
  }

  lemma PopInstr(env: Env, i: Instr, s: Stk, vs: seq<Value>, stk: Stk, input: Input)
    requires i.Valid() && IsPop(i.op) && Holds(s, vs) && ValueStep(i, vs, input).Some?
    ensures var vs' := vs[..|vs| - 1];
            && |Flat(vs')| <= |s.data| && |Flat(vs')| < 65536 && Holds(Beneath(s, vs'), vs')
            && DataOp(env, i, s, stk, input) == Done(Effect(Beneath(s, vs'), stk, Silent))
  {
    hide Pop, Holds, Flat, Rev, BytesOf;
    var vs', v := vs[..|vs| - 1], vs[|vs| - 1];
    assert vs == vs' + [v];
    HoldsBeneath(s, vs', v);
    PopRefines(s, vs', v);
    ValueSize(v);
  }

  lemma ValueSize(v: Value)
    ensures |BytesOf(v)| == (match v case Flag(_) => 1 case Num(_) => 2 case Real(_) => 4)
  {
  }

  lemma NotInstr(env: Env, i: Instr, s: Stk, vs: seq<Value>, w: word, stk: Stk, input: Input)
    requires i.Valid() && i.op.NotU16? && Holds(s, vs + [Num(w)])
    ensures Pushes(DataOp(env, i, s, stk, input), s, vs, Num(65535 - w), stk)
  {
    hide PopWord, PushWord, Holds, Pushes, OnOps, Flat;
    PopNumRefines(s, vs, w);
    PushNumRefines(Beneath(s, vs), vs, 65535 - w, stk);
    PushesSame(OnOps(PushWord(Beneath(s, vs), 65535 - w), stk), s, Beneath(s, vs), vs, Num(65535 - w), stk);
  }

  /** POP_JUMP_IF_FALSE takes a comparison result and jumps exactly when it is 0. */
  lemma BranchRefines(env: Env, i: Instr, th: Thread, vs: seq<Value>, b: byte, input: Input)
    requires i.Valid() && i.op.PopJumpIfFalse? && Holds(th.ops, vs + [Flag(b)])
    ensures |Flat(vs)| < 65536 && Holds(Beneath(th.ops, vs), vs)
    ensures Execute(env, i, th, input)
            == Done((Thread(if b == 0 then i.Word() else th.ip, Beneath(th.ops, vs), th.stk), Silent))
  {
    hide DataOp;
    PopRefines(th.ops, vs, Flag(b));
  }
}
