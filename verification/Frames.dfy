/** Call frames: return addresses are ordinary bytes of the call stack, and survive. */
module Frames {
  import opened Bytes
  import opened ByteStack
  import opened Isa
  import opened Machine

  /** What CALL saves: the return address and the caller's `bp`. */
  datatype Frame = Frame(back: word, bp: word)

  /** The frames `fs` (innermost last) lie in `data`: the innermost ends at `bp`, each saved `bp`
      is where the next one ends, and the outermost starts at `base`. */
  ghost predicate Holds(data: seq<byte>, bp: nat, fs: seq<Frame>, base: nat)
    requires fs != []
    decreases |fs|
  {
    && base + 4 <= bp <= |data|
    && data[bp - 4..bp] == HighLow(Last(fs).back) + HighLow(Last(fs).bp)
    && if |fs| == 1 then bp == base + 4
       else Last(fs).bp <= bp - 4 && Holds(data, Last(fs).bp, Init(fs), base)
  }

  /** `bp` is a position of the stack and `sp` is not below it. */
  predicate Framed(stk: Stk) { stk.bp <= stk.sp && stk.bp <= |stk.data| < 65536 }

  predicate IsLocal(op: Op) {
    op in {AllocLocal, PushLocal, PopLocal, ReadI16, WriteI16, AllocI16, FreeI16}
  }

  /** The condition under which an instruction stays in its own frame, readable before the step: where the
      16-bit sum puts `sp` or the write is not below `bp`, or nothing is written. */
  predicate Safe(i: Instr, ops: Stk, stk: Stk)
    requires i.Valid()
  {
    match i.op
    case AllocLocal => PopWord(ops).Done? ==> Wrap(stk.sp + PopWord(ops).value.0) >= stk.bp
    case PopLocal => PopPair(ops).Done? ==> PopPair(ops).value.0 == 0 || Wrap(stk.bp + PopPair(ops).value.1) >= stk.bp
    case WriteI16 => i.Word() >= stk.bp
    case AllocI16 => Wrap(stk.sp + 2) >= stk.bp
    case FreeI16 => Wrap(stk.sp - 2) >= stk.bp
    case _ => true
  }

  /** `t` is `s` as far as the frames are concerned. */
  predicate SameFrames(s: Stk, t: Stk) {
    && Framed(s) && Framed(t)
    && t.bp == s.bp && |t.data| == |s.data| && t.data[..s.bp] == s.data[..s.bp]
  }

  lemma OnlyLocalsTouchCallStack(env: Env, i: Instr, ops: Stk, stk: Stk, input: Input)
    requires i.Valid() && !IsControl(i.op) && !IsLocal(i.op)
    requires DataOp(env, i, ops, stk, input).Done?
    ensures DataOp(env, i, ops, stk, input).value.stk == stk
  {
    hide PopPair, PopWord, Pop, PushWord, Push, Print, ReadAt, U16Result, I16Result, BitResult, CmpHolds;
  }

  lemma LocalOpKeepsFrames(env: Env, i: Instr, ops: Stk, stk: Stk)
    requires i.Valid() && IsLocal(i.op) && Safe(i, ops, stk) && Framed(stk)
    requires LocalOp(env, i, ops, stk).Done?
    ensures SameFrames(stk, LocalOp(env, i, ops, stk).value.stk)
  {
    hide PopWord, PopPair, Pop, PushWord, Push, ReadAt, WriteAt;
    if i.op.PopLocal? {
      var (size, address, ops2) := PopPair(ops).value;
      var v := Pop(ops2, size).value.0;
      PopSize(ops2, size);
      WriteAbove(stk, v, Wrap(stk.bp + address));
    } else if i.op.WriteI16? {
      PopSize(ops, 2);
      WriteAbove(stk, Pop(ops, 2).value.0, i.Word());
    }
  }

  lemma PopSize(s: Stk, n: nat)
    ensures Pop(s, n).Done? ==> |Pop(s, n).value.0| == n
  {
  }

  lemma WriteAbove(stk: Stk, v: seq<byte>, at: word)
    requires Framed(stk) && (at >= stk.bp || v == []) && WriteAt(stk, v, at).Done?
    ensures SameFrames(stk, WriteAt(stk, v, at).value)
  {
    if v == [] {
      assert stk.data[..at] + Rev(v) + stk.data[at..] == stk.data;
    }
  }

  // ----- the condition is exact -----

  /** `ops'` offers the instruction the same operands, with any value to store. */
  predicate SameOperands(i: Instr, ops: Stk, ops': Stk) {
    match i.op
    case AllocLocal => PopWord(ops).Done? && PopWord(ops').Done? && PopWord(ops').value.0 == PopWord(ops).value.0
    case PopLocal =>
      && PopPair(ops).Done? && PopPair(ops').Done?
      && PopPair(ops').value.0 == PopPair(ops).value.0 && PopPair(ops').value.1 == PopPair(ops).value.1
    case _ => true
  }

  /** Whatever value is stored, the instruction changes neither `bp` nor a byte below it, nor puts `sp` below it. */
  ghost predicate KeepsFrames(env: Env, i: Instr, ops: Stk, stk: Stk)
    requires i.Valid() && IsLocal(i.op)
  {
    forall ops' :: SameOperands(i, ops, ops') && LocalOp(env, i, ops', stk).Done? ==>
      SameFrames(stk, LocalOp(env, i, ops', stk).value.stk)
  }

  /** An instruction that succeeds keeps the frames for every stored value if and only if it is safe. */
  lemma SafeIsExact(env: Env, i: Instr, ops: Stk, stk: Stk)
    requires i.Valid() && IsLocal(i.op) && Framed(stk) && LocalOp(env, i, ops, stk).Done?
    ensures Safe(i, ops, stk) <==> KeepsFrames(env, i, ops, stk)
  {
    hide LocalOp, Safe;
    if Safe(i, ops, stk) {
      forall ops' | SameOperands(i, ops, ops') && LocalOp(env, i, ops', stk).Done?
        ensures SameFrames(stk, LocalOp(env, i, ops', stk).value.stk)
      {
        SafeSame(i, ops, ops', stk);
        LocalOpKeepsFrames(env, i, ops', stk);
      }
    } else {
      var ops' := UnsafeBreaks(env, i, ops, stk);
    }
  }

  lemma SafeSame(i: Instr, ops: Stk, ops': Stk, stk: Stk)
    requires i.Valid() && SameOperands(i, ops, ops') && Safe(i, ops, stk)
    ensures Safe(i, ops', stk)
  {
    hide PopWord, PopPair;
  }

  lemma UnsafeBreaks(env: Env, i: Instr, ops: Stk, stk: Stk) returns (ops': Stk)
    requires i.Valid() && IsLocal(i.op) && Framed(stk) && LocalOp(env, i, ops, stk).Done? && !Safe(i, ops, stk)
    ensures SameOperands(i, ops, ops') && LocalOp(env, i, ops', stk).Done?
    ensures !SameFrames(stk, LocalOp(env, i, ops', stk).value.stk)
  {
    hide PopWord, PopPair, Pop, WriteAt, HighLow, LowHigh, SameFrames;
    ops' := ops;
    if i.op.PopLocal? {
      var (size, address, ops2) := PopPair(ops).value;
      var at := Wrap(stk.bp + address);
      var v := Other(stk, at, size);
      ops' := Offered(v, size, address);
      OfferedPops(v, size, address);
      PopSize(ops2, size);
      WriteSame(stk, Pop(ops2, size).value.0, v, at);
      WriteBelow(stk, v, at);
    } else if i.op.WriteI16? {
      var v := Other(stk, i.Word(), 2);
      ops' := Stk(Rev(v), 2, 0);
      RevRev(v);
      PopAll(ops', v);
      PopSize(ops, 2);
      WriteSame(stk, Pop(ops, 2).value.0, v, i.Word());
      WriteBelow(stk, v, i.Word());
    } else {
      SpBelow(stk, LocalOp(env, i, ops, stk).value.stk);
    }
  }

  lemma SpBelow(s: Stk, t: Stk)
    requires t.bp == s.bp && t.sp < t.bp
    ensures !SameFrames(s, t)
  {
  }

  /** A value that differs in its last byte, which is written first, from what lies at `at`. */
  function Other(stk: Stk, at: word, size: nat): (v: seq<byte>)
    requires Framed(stk) && at < stk.bp && size > 0
    ensures |v| == size && Rev(v)[0] != stk.data[at]
  {
    seq(size, _ => if stk.data[at] == 0 then 1 else 0)
  }

  /** Success of a write depends on the size only. */
  lemma WriteSame(stk: Stk, v: seq<byte>, w: seq<byte>, at: word)
    requires |v| == |w| && WriteAt(stk, v, at).Done?
    ensures WriteAt(stk, w, at).Done?
  {
  }

  lemma WriteBelow(stk: Stk, v: seq<byte>, at: word)
    requires Framed(stk) && at < stk.bp && v != [] && WriteAt(stk, v, at).Done? && Rev(v)[0] != stk.data[at]
    ensures !SameFrames(stk, WriteAt(stk, v, at).value)
  {
    var t := WriteAt(stk, v, at).value;
    assert t.data[at] == Rev(v)[0];
    assert t.data[..stk.bp][at] != stk.data[..stk.bp][at];
  }

  /** An operand stack with the value, the size and the address of a POP_LOCAL. */
  function Offered(v: seq<byte>, size: word, address: word): Stk
    requires |v| == size && size + 4 < 65536
  {
    Stk(Rev(v) + HighLow(size) + HighLow(address), size + 4, 0)
  }

  lemma OfferedPops(v: seq<byte>, size: word, address: word)
    requires |v| == size && 0 < size && size + 4 < 65536
    ensures var ops := Offered(v, size, address);
            PopPair(ops) == Done((size, address, ops.(sp := size))) && Pop(ops.(sp := size), size) == Done((v, ops.(sp := 0)))
  {
    hide HighLow;
    var ops := Offered(v, size, address);
    assert ops.data[size + 2..size + 4] == HighLow(address);
    assert ops.data[size..size + 2] == HighLow(size);
    assert ops.data[0..size] == Rev(v);
    PopWordAt(ops, address);
    PopWordAt(ops.(sp := size + 2), size);
    RevRev(v);
  }

  lemma PopAll(ops: Stk, v: seq<byte>)
    requires v != [] && ops.sp == |v| == |ops.data| && Rev(ops.data) == v
    ensures Pop(ops, |v|) == Done((v, ops.(sp := 0)))
  {
    assert ops.data[0..|v|] == ops.data;
  }

  lemma DataOpKeepsFrames(env: Env, i: Instr, ops: Stk, stk: Stk, input: Input)
    requires i.Valid() && !IsControl(i.op) && Safe(i, ops, stk) && Framed(stk)
    requires DataOp(env, i, ops, stk, input).Done?
    ensures SameFrames(stk, DataOp(env, i, ops, stk, input).value.stk)
  {
    hide LocalOp;
    if IsLocal(i.op) {
      LocalOpKeepsFrames(env, i, ops, stk);
    } else {
      OnlyLocalsTouchCallStack(env, i, ops, stk, input);
    }
  }

  /** The frames depend only on the bytes below `bp`. */
  lemma {:induction false} HoldsBelow(data: seq<byte>, data': seq<byte>, bp: nat, fs: seq<Frame>, base: nat)
    requires fs != [] && Holds(data, bp, fs, base)
    requires bp <= |data'| && data[..bp] == data'[..bp]
    ensures Holds(data', bp, fs, base)
    decreases |fs|
  {
    assert data[bp - 4..bp] == data[..bp][bp - 4..] == data'[bp - 4..bp];
    if |fs| > 1 {
      var b := Last(fs).bp;
      assert data[..b] == data[..bp][..b] == data'[..bp][..b] == data'[..b];
      HoldsBelow(data, data', b, Init(fs), base);
    }
  }

  /** CALL adds a frame. */
  lemma PushFrameShape(stk: Stk, back: word)
    requires Framed(stk) && PushFrame(stk, back).Done?
    ensures var t := PushFrame(stk, back).value;
            && stk.sp + 4 <= |stk.data| && t.sp == t.bp == stk.sp + 4 && |t.data| == |stk.data|
            && t.data[..stk.sp] == stk.data[..stk.sp]
            && t.data[stk.sp..stk.sp + 4] == HighLow(back) + HighLow(stk.bp)
            && t.data[stk.sp + 4..] == stk.data[stk.sp + 4..]
  {
    hide HighLow, LowHigh;
    assert LowHigh(back) == [back % 256, back / 256] && HighLow(back) == [back / 256, back % 256] by { HighLowDef(back); }
    assert LowHigh(stk.bp) == [stk.bp % 256, stk.bp / 256] && HighLow(stk.bp) == [stk.bp / 256, stk.bp % 256] by { HighLowDef(stk.bp); }
    assert Rev(LowHigh(back)) == HighLow(back);
    assert Rev(LowHigh(stk.bp)) == HighLow(stk.bp);
  }

  lemma HighLowDef(w: word)
    ensures LowHigh(w) == [w % 256, w / 256] && HighLow(w) == [w / 256, w % 256]
  {
  }

  lemma PushFrameHolds(stk: Stk, back: word, fs: seq<Frame>, base: nat)
    requires Framed(stk) && PushFrame(stk, back).Done?
    requires fs != [] ==> Holds(stk.data, stk.bp, fs, base)
    requires fs == [] ==> stk.sp == base
    ensures var t := PushFrame(stk, back).value;
            Framed(t) && Holds(t.data, t.bp, fs + [Frame(back, stk.bp)], base)
  {
    PushFrameShape(stk, back);
    var t := PushFrame(stk, back).value;
    assert Init(fs + [Frame(back, stk.bp)]) == fs;
    if fs != [] {
      assert t.data[..stk.bp] == t.data[..stk.sp][..stk.bp];
      HoldsBelow(stk.data, t.data, stk.bp, fs, base);
    }
  }

  /** RETURN pops the innermost frame, and only moves the two registers. */
  lemma PopFrameHolds(stk: Stk, fs: seq<Frame>, base: nat)
    requires fs != [] && Framed(stk) && Holds(stk.data, stk.bp, fs, base)
    ensures PopFrame(stk) == Done((Last(fs).back, Stk(stk.data, stk.bp - 4, Last(fs).bp)))
  {
    hide PopFrame, HighLow;
    PopFrameAt(stk, Last(fs).back, Last(fs).bp);
  }

  lemma PopFrameAt(stk: Stk, back: word, bp: word)
    requires 4 <= stk.bp <= |stk.data| && stk.data[stk.bp - 4..stk.bp] == HighLow(back) + HighLow(bp)
    ensures PopFrame(stk) == Done((back, Stk(stk.data, stk.bp - 4, bp)))
  {
    hide HighLow, PopWord;
    var top := stk.data[stk.bp - 4..stk.bp];
    SliceOfSlice(stk.data, stk.bp - 4, stk.bp, 2, 4);
    SliceOfSlice(stk.data, stk.bp - 4, stk.bp, 0, 2);
    assert top[2..4] == HighLow(bp) && top[0..2] == HighLow(back);
    PopWordAt(stk.(sp := stk.bp), bp);
    PopWordAt(Stk(stk.data, stk.bp - 2, bp), back);
  }

  lemma PopWordAt(s: Stk, w: word)
    requires 2 <= s.sp <= |s.data| && s.data[s.sp - 2..s.sp] == HighLow(w)
    ensures PopWord(s) == Done((w, s.(sp := s.sp - 2)))
  {
    assert Rev(HighLow(w)) == LowHigh(w);
  }

  // ----- activations -----

  /** Change of the call depth by one instruction. */
  function Deeper(d: nat, op: Option<Op>): int {
    if op == Some(Call) then d + 1 else if op == Some(Return) then d - 1 else d
  }

  /** The instruction at `ip`, if one is fetched. */
  function Fetched(img: Image, ip: word): (r: Option<Instr>)
    ensures r.Some? ==> r.value.Valid()
  {
    if ip >= |img.program| || Decode(img.program[ip]).None? then None
    else
      var op := Decode(img.program[ip]).value;
      if ip + Size(op) > |img.program| then None
      else Some(Instr(op, img.program[ip + 1..ip + Size(op)]))
  }

  function OpOf(i: Option<Instr>): Option<Op> { if i.Some? then Some(i.value.op) else None }

  /** The next instruction stays in its frame and does not stop the machine. */
  predicate SafeStep(img: Image, th: Thread, input: Input)
    requires img.Valid()
  {
    Step(img, th, input).Done?
    && (Fetched(img, th.ip).Some? ==> Safe(Fetched(img, th.ip).value, th.ops, th.stk))
  }

  /** From depth `d` the run `ins` is safe, and its last instruction is the RETURN that closes
      the outermost activation. */
  predicate Returns(img: Image, th: Thread, d: nat, ins: seq<Input>)
    requires img.Valid()
    decreases |ins|
  {
    if d == 0 then ins == []
    else
      && ins != []
      && SafeStep(img, th, ins[0])
      && Returns(img, Step(img, th, ins[0]).value.0, Deeper(d, OpOf(Fetched(img, th.ip))), ins[1..])
  }

  /** What one instruction makes of the frames `fs`: `fs'` are the frames of `t`. */
  ghost predicate FramesStep(th: Thread, fs: seq<Frame>, t: Thread, fs': seq<Frame>, base: nat)
    requires fs != []
  {
    && |t.stk.data| == |th.stk.data| && base <= |th.stk.data| && t.stk.data[..base] == th.stk.data[..base]
    && (fs' == [] ==> t == Thread(fs[0].back, th.ops, Stk(th.stk.data, t.stk.sp, fs[0].bp)) && t.stk.sp == base)
    && (fs' != [] ==> fs'[0] == fs[0] && Framed(t.stk) && Holds(t.stk.data, t.stk.bp, fs', base))
  }

  lemma CallFrames(th: Thread, entry: word, fs: seq<Frame>, base: nat)
    requires fs != [] && Framed(th.stk) && Holds(th.stk.data, th.stk.bp, fs, base)
    requires CallAddress(th, entry).Done?
    ensures FramesStep(th, fs, CallAddress(th, entry).value, fs + [Frame(th.ip, th.stk.bp)], base)
  {
    hide PushFrame, HighLow;
    PushFrameHolds(th.stk, th.ip, fs, base);
    PushFrameShape(th.stk, th.ip);
    var t := CallAddress(th, entry).value;
    assert t.stk.data[..base] == t.stk.data[..th.stk.sp][..base];
  }

  lemma ReturnFrames(th: Thread, fs: seq<Frame>, base: nat)
    requires fs != [] && Framed(th.stk) && Holds(th.stk.data, th.stk.bp, fs, base)
    ensures PopFrame(th.stk).Done?
    ensures var (back, stk) := PopFrame(th.stk).value;
            FramesStep(th, fs, Thread(back, th.ops, stk), Init(fs), base)
  {
    hide PopFrame, HighLow;
    PopFrameHolds(th.stk, fs, base);
  }

  lemma DataFrames(env: Env, i: Instr, th: Thread, fs: seq<Frame>, base: nat, input: Input)
    requires fs != [] && Framed(th.stk) && Holds(th.stk.data, th.stk.bp, fs, base)
    requires i.Valid() && !IsControl(i.op) && Safe(i, th.ops, th.stk)
    requires DataOp(env, i, th.ops, th.stk, input).Done?
    ensures var e := DataOp(env, i, th.ops, th.stk, input).value;
            FramesStep(th, fs, Thread(th.ip, e.ops, e.stk), fs, base)
  {
    hide DataOp, Safe;
    DataOpKeepsFrames(env, i, th.ops, th.stk, input);
    var stk := DataOp(env, i, th.ops, th.stk, input).value.stk;
    HoldsBelow(th.stk.data, stk.data, th.stk.bp, fs, base);
    assert stk.data[..base] == stk.data[..th.stk.bp][..base];
  }

  /** The frames after one instruction. */
  function Frames(i: Option<Instr>, ip: word, bp: word, fs: seq<Frame>): seq<Frame>
    requires fs != []
  {
    if OpOf(i) == Some(Call) then fs + [Frame(Wrap(ip + 3), bp)]
    else if OpOf(i) == Some(Return) then Init(fs)
    else fs
  }

  /** How one safe step changes the frames. */
  lemma StepFrames(img: Image, th: Thread, fs: seq<Frame>, base: nat, input: Input)
    requires img.Valid() && SafeStep(img, th, input)
    requires fs != [] && Framed(th.stk) && Holds(th.stk.data, th.stk.bp, fs, base)
    ensures var fs' := Frames(Fetched(img, th.ip), th.ip, th.stk.bp, fs);
            && |fs'| == Deeper(|fs|, OpOf(Fetched(img, th.ip)))
            && FramesStep(th, fs, Step(img, th, input).value.0, fs', base)
  {
    hide DataOp, Safe, Holds, PopFrame, PushFrame, CallAddress, Pop, Decode;
    var i := Fetched(img, th.ip);
    if i.None? { hide FramesStep; StepUnknown(img, th, fs, base, input); return; }
    var next := th.(ip := th.ip + Size(i.value.op));
    assert Step(img, th, input) == Execute(img.Context(), i.value, next, input);
    if i.value.op.Call? {
      CallFrames(next, i.value.Word(), fs, base);
    } else if i.value.op.Return? {
      ReturnFrames(next, fs, base);
    } else if IsControl(i.value.op) {
      HoldsIsAbove(th.stk, fs, base);
    } else {
      DataFrames(img.Context(), i.value, next, fs, base, input);
    }
  }

  lemma HoldsIsAbove(stk: Stk, fs: seq<Frame>, base: nat)
    requires fs != [] && Framed(stk) && Holds(stk.data, stk.bp, fs, base)
    ensures base <= |stk.data|
  {
  }

  lemma StepUnknown(img: Image, th: Thread, fs: seq<Frame>, base: nat, input: Input)
    requires img.Valid() && Step(img, th, input).Done? && Fetched(img, th.ip).None?
    requires fs != [] && Framed(th.stk) && Holds(th.stk.data, th.stk.bp, fs, base)
    ensures FramesStep(th, fs, Step(img, th, input).value.0, fs, base)
  {
    hide Execute, Decode, Size;
  }

  lemma {:induction false} ReturnsToFrame(img: Image, th: Thread, fs: seq<Frame>, base: nat, ins: seq<Input>)
    requires img.Valid() && Returns(img, th, |fs|, ins)
    requires fs != [] && Framed(th.stk) && Holds(th.stk.data, th.stk.bp, fs, base)
    ensures match Run(img, th, ins).end
            case Done(t) =>
              && t.ip == fs[0].back && t.stk.bp == fs[0].bp && t.stk.sp == base
              && |t.stk.data| == |th.stk.data| && t.stk.data[..base] == th.stk.data[..base]
            case _ => false
    decreases |ins|
  {
    hide Step, Holds;
    StepFrames(img, th, fs, base, ins[0]);
    var fs' := Frames(Fetched(img, th.ip), th.ip, th.stk.bp, fs);
    var t := Step(img, th, ins[0]).value.0;
    assert Returns(img, t, |fs'|, ins[1..]);
    assert Run(img, th, ins).end == Run(img, t, ins[1..]).end;
    if fs' != [] {
      ReturnsToFrame(img, t, fs', base, ins[1..]);
      assert t.stk.data[..base] == th.stk.data[..base];
    } else {
      assert ins[1..] == [];
      assert Run(img, t, []).end == Done(t);
    }
  }

  /** Frame integrity: a call whose activation returns, however deep its calls nest, resumes at
      the return address with the caller's `bp` and `sp`, every byte below `sp` unchanged. */
  lemma CallReturns(img: Image, th: Thread, entry: word, ins: seq<Input>)
    requires img.Valid() && Framed(th.stk) && CallAddress(th, entry).Done?
    requires Returns(img, CallAddress(th, entry).value, 1, ins)
    ensures match Run(img, CallAddress(th, entry).value, ins).end
            case Done(t) =>
              && t.ip == th.ip && t.stk.bp == th.stk.bp && t.stk.sp == th.stk.sp
              && |t.stk.data| == |th.stk.data| && t.stk.data[..th.stk.sp] == th.stk.data[..th.stk.sp]
            case _ => false
  {
    PushFrameHolds(th.stk, th.ip, [], th.stk.sp);
    PushFrameShape(th.stk, th.ip);
    assert [] + [Frame(th.ip, th.stk.bp)] == [Frame(th.ip, th.stk.bp)];
    ReturnsToFrame(img, CallAddress(th, entry).value, [Frame(th.ip, th.stk.bp)], th.stk.sp, ins);
  }

  /** The condition is needed: POP_LOCAL at offset 65532 wraps to the saved return address, and
      RETURN then goes wherever the stored value says. */
  lemma WrappedStoreRedirectsReturn(env: Env, ops: Stk, stk: Stk, back: word, target: word)
    requires Framed(stk) && PushFrame(stk, back).Done? && env.platform.pointer >= 2
    requires ops.Within() && ops.sp >= 6
    requires ops.data[ops.sp - 6..ops.sp] == HighLow(target) + HighLow(2) + HighLow(65532)
    ensures var t := PushFrame(stk, back).value;
            var e := LocalOp(env, Instr(PopLocal, []), ops, t);
            && !Safe(Instr(PopLocal, []), ops, t)
            && e.Done? && PopFrame(e.value.stk).Done? && PopFrame(e.value.stk).value.0 == target
  {
    hide HighLow, LowHigh, PopFrame, PushFrame, WriteAt;
    PopsThree(ops, target, 2, 65532);
    PushFrameShape(stk, back);
    StoreOverReturn(stk, back, target);
  }

  lemma PopsThree(ops: Stk, a: word, b: word, c: word)
    requires ops.Within() && ops.sp >= 6
    requires ops.data[ops.sp - 6..ops.sp] == HighLow(a) + HighLow(b) + HighLow(c)
    ensures PopWord(ops) == Done((c, ops.(sp := ops.sp - 2)))
    ensures PopWord(ops.(sp := ops.sp - 2)) == Done((b, ops.(sp := ops.sp - 4)))
    ensures Pop(ops.(sp := ops.sp - 4), 2) == Done((LowHigh(a), ops.(sp := ops.sp - 6)))
  {
    var top := ops.data[ops.sp - 6..ops.sp];
    Middle(HighLow(a), HighLow(b), HighLow(c));
    assert top[4..] == HighLow(c);
    SliceOfSlice(ops.data, ops.sp - 6, ops.sp, 4, 6);
    SliceOfSlice(ops.data, ops.sp - 6, ops.sp, 2, 4);
    SliceOfSlice(ops.data, ops.sp - 6, ops.sp, 0, 2);
    PopWordAt(ops, c);
    PopWordAt(ops.(sp := ops.sp - 2), b);
    assert Rev(HighLow(a)) == LowHigh(a);
  }

  lemma StoreOverReturn(stk: Stk, back: word, target: word)
    requires Framed(stk) && PushFrame(stk, back).Done?
    ensures var t := PushFrame(stk, back).value;
            && t.bp >= 4
            && var u := WriteAt(t, LowHigh(target), t.bp - 4);
            u.Done? && PopFrame(u.value).Done? && PopFrame(u.value).value.0 == target
  {
    hide HighLow, LowHigh, PushFrame;
    PushFrameShape(stk, back);
    var t := PushFrame(stk, back).value;
    HighLowDef(target);
    assert Rev(LowHigh(target)) == HighLow(target);
    var u := WriteAt(t, LowHigh(target), t.bp - 4).value;
    Middle(t.data[..t.bp - 4], HighLow(target), t.data[t.bp - 2..]);
    HighLowDef(stk.bp);
    assert u.data[u.bp - 2..u.bp] == t.data[t.bp - 4..t.bp][2..] == HighLow(stk.bp);
    PopWordAt(u.(sp := u.bp), stk.bp);
    PopWordAt(Stk(u.data, u.bp - 2, stk.bp), target);
  }
}
