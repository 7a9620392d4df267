/** Locals over a whole activation: from the entry of a function, through any instructions and any nested
    calls, PUSH_LOCAL of a variable reads what the activation last stored in it. */
module Activation {
  import opened Bytes
  import opened ByteStack
  import opened Isa
  import opened Machine
  import opened Assembler
  import opened Frames
  import opened Locals
  import LocalNames

  /** How far an activation is: its call depth (1 in its own code), how many of its ALLOC_LOCALs have run, and the
      value that it last stored in the variable under consideration. */
  datatype Track = Track(depth: nat, allocs: nat, last: Option<seq<byte>>)

  /** The operands of PUSH_LOCAL and POP_LOCAL are the size and the offset of `slot`. */
  predicate Selects(ops: Stk, slot: Slot) {
    PopPair(ops).Done? && PopPair(ops).value.0 == slot.size && PopPair(ops).value.1 == slot.offset
  }

  /** The value that POP_LOCAL takes. */
  function Popped(ops: Stk): seq<byte> {
    if PopPair(ops).Done? && Pop(PopPair(ops).value.2, PopPair(ops).value.0).Done?
    then Pop(PopPair(ops).value.2, PopPair(ops).value.0).value.0 else []
  }

  /** The track after one instruction, for variable `x`. */
  function Next(tr: Track, i: Option<Instr>, th: Thread, slots: seq<Slot>, x: nat): Track
    requires x < |slots|
  {
    if tr.depth == 1 && OpOf(i) == Some(AllocLocal) then tr.(allocs := tr.allocs + 1)
    else if tr.depth == 1 && OpOf(i) == Some(PopLocal) then
      if x < tr.allocs && Selects(th.ops, slots[x]) then tr.(last := Some(Popped(th.ops))) else tr
    else
      var d := Deeper(tr.depth, OpOf(i));
      tr.(depth := if d < 0 then 0 else d)
  }

  /** The first `n` slots end at or below `sp`. */
  predicate EndBy(slots: seq<Slot>, n: nat, bp: nat, sp: int) {
    n <= |slots| && bp <= sp && forall k :: 0 <= k < n ==> bp + slots[k].offset + slots[k].size <= sp
  }

  /** What the activation may do with its own frame, readable before the step: allocate the next variable, store into
      a variable allocated before, and otherwise leave the variables in the frame and unwritten. */
  predicate Orderly(tr: Track, i: Instr, th: Thread, slots: seq<Slot>)
    requires i.Valid()
  {
    match i.op
    case AllocLocal =>
      PopWord(th.ops).Done? ==>
        tr.allocs < |slots| && PopWord(th.ops).value.0 == slots[tr.allocs].size && th.stk.sp + slots[tr.allocs].size < 65536
    case PopLocal => PopPair(th.ops).Done? ==> exists k :: 0 <= k < tr.allocs && k < |slots| && Selects(th.ops, slots[k])
    case WriteI16 => EndBy(slots, tr.allocs, th.stk.bp, i.Word())
    case AllocI16 => EndBy(slots, tr.allocs, th.stk.bp, Wrap(th.stk.sp + 2))
    case FreeI16 => EndBy(slots, tr.allocs, th.stk.bp, Wrap(th.stk.sp - 2))
    case _ => true
  }

  /** One step of the activation: orderly in its own code, safe in the calls it makes. */
  predicate OrderlyStep(img: Image, th: Thread, tr: Track, slots: seq<Slot>, input: Input)
    requires img.Valid()
  {
    && Step(img, th, input).Done?
    && (Fetched(img, th.ip).Some? ==>
          if tr.depth == 1 then Orderly(tr, Fetched(img, th.ip).value, th, slots)
          else Safe(Fetched(img, th.ip).value, th.ops, th.stk))
  }

  /** The run `ins` stays in the activation. */
  predicate Within(img: Image, th: Thread, tr: Track, slots: seq<Slot>, x: nat, ins: seq<Input>)
    requires img.Valid() && x < |slots|
    decreases |ins|
  {
    && tr.depth > 0
    && (ins != [] ==>
          && OrderlyStep(img, th, tr, slots, ins[0])
          && Within(img, Step(img, th, ins[0]).value.0, Next(tr, Fetched(img, th.ip), th, slots, x), slots, x, ins[1..]))
  }

  /** The track at the end of the run. */
  function End(img: Image, th: Thread, tr: Track, slots: seq<Slot>, x: nat, ins: seq<Input>): Track
    requires img.Valid() && x < |slots| && Within(img, th, tr, slots, x, ins)
    decreases |ins|
  {
    if ins == [] then tr
    else End(img, Step(img, th, ins[0]).value.0, Next(tr, Fetched(img, th.ip), th, slots, x), slots, x, ins[1..])
  }

  /** Slots as the compiler lays them out: one after the other from offset 0. */
  predicate LaidOut(slots: seq<Slot>) {
    && (slots != [] ==> slots[0].offset == 0)
    && (forall k :: 0 <= k < |slots| - 1 ==> slots[k + 1].offset == slots[k].offset + slots[k].size)
    && (forall j, k :: 0 <= j < k < |slots| ==> slots[j].offset + slots[j].size <= slots[k].offset)
  }

  // ----- what the run keeps -----

  /** Variable `slot` of the frame at `bp` holds `v`. */
  predicate HasValue(data: seq<byte>, bp: nat, slot: Slot, v: seq<byte>) {
    && |v| == slot.size && bp + slot.offset + slot.size <= |data|
    && data[bp + slot.offset..bp + slot.offset + slot.size] == Rev(v)
  }

  /** The frame at `bp` is the activation's; `fs` are the frames of the calls it is in, from `base` on, above its
      variables; and variable `x` holds what was last stored in it. */
  ghost predicate Kept(stk: Stk, tr: Track, slots: seq<Slot>, x: nat, bp: nat, pointer: nat, fs: seq<Frame>, base: nat)
    requires x < |slots|
  {
    && Framed(stk) && tr.depth == |fs| + 1
    && (if fs == [] then stk.bp == bp && EndBy(slots, tr.allocs, bp, stk.sp)
        else fs[0].bp == bp && Holds(stk.data, stk.bp, fs, base) && EndBy(slots, tr.allocs, bp, base))
    && (tr.last.Some? ==> x < tr.allocs && slots[x].size <= pointer && HasValue(stk.data, bp, slots[x], tr.last.value))
  }

  lemma ValueBelow(data: seq<byte>, data': seq<byte>, n: nat, bp: nat, slot: Slot, v: seq<byte>)
    requires HasValue(data, bp, slot, v) && bp + slot.offset + slot.size <= n <= |data| == |data'|
    requires data'[..n] == data[..n]
    ensures HasValue(data', bp, slot, v)
  {
    var a, b := bp + slot.offset, bp + slot.offset + slot.size;
    assert data[..n][a..b] == data[a..b] && data'[..n][a..b] == data'[a..b];
  }

  lemma NestedKeeps(img: Image, th: Thread, tr: Track, slots: seq<Slot>, x: nat, bp: nat, fs: seq<Frame>, base: nat,
                    input: Input) returns (fs': seq<Frame>)
    requires img.Valid() && x < |slots| && fs != [] && OrderlyStep(img, th, tr, slots, input)
    requires Kept(th.stk, tr, slots, x, bp, img.platform.pointer, fs, base)
    ensures Kept(Step(img, th, input).value.0.stk, Next(tr, Fetched(img, th.ip), th, slots, x), slots, x, bp,
                 img.platform.pointer, fs', base)
  {
    hide Step, Holds, Safe, HasValue, Fetched;
    StepFrames(img, th, fs, base, input);
    fs' := Frames.Frames(Fetched(img, th.ip), th.ip, th.stk.bp, fs);
    HoldsIsAbove(th.stk, fs, base);
    var t := Step(img, th, input).value.0;
    if tr.last.Some? {
      ValueBelow(th.stk.data, t.stk.data, base, bp, slots[x], tr.last.value);
    }
  }

  lemma UnknownKeepsStack(img: Image, th: Thread, input: Input)
    requires img.Valid() && Step(img, th, input).Done? && Fetched(img, th.ip).None?
    ensures Step(img, th, input).value.0.stk == th.stk
  {
    hide Execute, Decode, Size;
  }

  /** A store into one variable does not touch another. */
  lemma StoreKeepsOther(stk: Stk, v: seq<byte>, at: word, bp: nat, slot: Slot, w: seq<byte>)
    requires WriteAt(stk, v, at).Done? && at + |v| < 65536 && HasValue(stk.data, bp, slot, w)
    requires at + |v| <= bp + slot.offset || bp + slot.offset + slot.size <= at
    ensures HasValue(WriteAt(stk, v, at).value.data, bp, slot, w)
  {
    hide Rev;
    SpliceKeeps(stk.data, at, Rev(v), bp + slot.offset, bp + slot.offset + slot.size);
  }

  lemma StoreHasValue(stk: Stk, v: seq<byte>, at: word, bp: nat, slot: Slot)
    requires WriteAt(stk, v, at).Done? && at == bp + slot.offset && |v| == slot.size && at + |v| < 65536
    ensures HasValue(WriteAt(stk, v, at).value.data, bp, slot, v)
  {
    hide Rev;
    Middle(stk.data[..at], Rev(v), stk.data[at + |v|..]);
  }

  lemma WriteKeepsSp(stk: Stk, v: seq<byte>, at: word)
    requires WriteAt(stk, v, at).Done? && at + |v| < 65536
    ensures var t := WriteAt(stk, v, at).value;
            && at + |v| <= |stk.data| == |t.data| && t.bp == stk.bp
            && t.sp == (if at + |v| > stk.sp then at + |v| else stk.sp)
            && t.data[..at] == stk.data[..at]
  {
  }

  lemma StoreKeepsLocals(env: Env, th: Thread, tr: Track, slots: seq<Slot>, x: nat, bp: nat)
    requires x < |slots| && LaidOut(slots) && tr.depth == 1 && Orderly(tr, Instr(PopLocal, []), th, slots)
    requires Kept(th.stk, tr, slots, x, bp, env.platform.pointer, [], 0)
    requires PopLocalOp(env, th.ops, th.stk).Done?
    ensures Kept(PopLocalOp(env, th.ops, th.stk).value.stk, Next(tr, Some(Instr(PopLocal, [])), th, slots, x), slots, x, bp,
                 env.platform.pointer, [], 0)
  {
    hide PopPair, Pop, WriteAt, HasValue, LaidOut;
    var (size, address, ops2) := PopPair(th.ops).value;
    var k :| 0 <= k < tr.allocs && k < |slots| && Selects(th.ops, slots[k]);
    var v := Pop(ops2, size).value.0;
    PopSize(ops2, size);
    var at := th.stk.bp + address;
    WriteKeepsSp(th.stk, v, at);
    if x < tr.allocs && Selects(th.ops, slots[x]) {
      StoreHasValue(th.stk, v, at, bp, slots[x]);
    } else if tr.last.Some? {
      Apart(slots, k, x);
      StoreKeepsOther(th.stk, v, at, bp, slots[x], tr.last.value);
    }
  }

  lemma Apart(slots: seq<Slot>, k: nat, x: nat)
    requires LaidOut(slots) && k < |slots| && x < |slots| && k != x
    ensures Disjoint(slots[k], slots[x])
  {
  }

  lemma AllocEnds(slots: seq<Slot>, n: nat, bp: nat, sp: int)
    requires LaidOut(slots) && n < |slots| && EndBy(slots, n, bp, sp)
    ensures EndBy(slots, n + 1, bp, sp + slots[n].size)
  {
    if n > 0 { assert slots[n - 1 + 1].offset == slots[n - 1].offset + slots[n - 1].size; }
  }

  lemma LocalKeeps(env: Env, i: Instr, th: Thread, tr: Track, slots: seq<Slot>, x: nat, bp: nat)
    requires x < |slots| && LaidOut(slots) && tr.depth == 1 && i.Valid() && IsLocal(i.op) && Orderly(tr, i, th, slots)
    requires Kept(th.stk, tr, slots, x, bp, env.platform.pointer, [], 0)
    requires LocalOp(env, i, th.ops, th.stk).Done?
    ensures Kept(LocalOp(env, i, th.ops, th.stk).value.stk, Next(tr, Some(i), th, slots, x), slots, x, bp,
                 env.platform.pointer, [], 0)
  {
    hide PopPair, PopWord, Pop, Push, ReadAt, WriteAt, HasValue, LaidOut, PopLocalOp, EndBy;
    if i.op.PopLocal? {
      assert i == Instr(PopLocal, []);
      StoreKeepsLocals(env, th, tr, slots, x, bp);
    } else if i.op.AllocLocal? {
      AllocEnds(slots, tr.allocs, bp, th.stk.sp);
      EndsBounds(slots, tr.allocs + 1, bp, th.stk.sp + slots[tr.allocs].size);
    } else if i.op.WriteI16? {
      PopSize(th.ops, 2);
      WriteKeepsLocals(th.stk, Pop(th.ops, 2).value.0, i.Word(), tr, slots, x, bp);
    } else {
      EndsBounds(slots, tr.allocs, bp, LocalOp(env, i, th.ops, th.stk).value.stk.sp);
    }
  }

  lemma EndsBounds(slots: seq<Slot>, n: nat, bp: nat, sp: int)
    requires EndBy(slots, n, bp, sp)
    ensures bp <= sp && n <= |slots|
  {
  }

  lemma WriteKeepsLocals(stk: Stk, v: seq<byte>, at: word, tr: Track, slots: seq<Slot>, x: nat, bp: nat)
    requires x < |slots| && EndBy(slots, tr.allocs, bp, stk.sp) && EndBy(slots, tr.allocs, bp, at) && stk.bp == bp
    requires |v| == 2 && Framed(stk) && WriteAt(stk, v, at).Done?
    ensures var t := WriteAt(stk, v, at).value;
            && Framed(t) && t.bp == bp && EndBy(slots, tr.allocs, bp, t.sp)
            && (tr.last.Some? && x < tr.allocs && HasValue(stk.data, bp, slots[x], tr.last.value) ==>
                  HasValue(t.data, bp, slots[x], tr.last.value))
  {
    assert at + 2 < 65536;
    WriteKeepsSp(stk, v, at);
    if tr.last.Some? && x < tr.allocs && HasValue(stk.data, bp, slots[x], tr.last.value) {
      ValueBelow(stk.data, WriteAt(stk, v, at).value.data, at, bp, slots[x], tr.last.value);
    }
  }

  lemma CallKeeps(th: Thread, address: word, tr: Track, slots: seq<Slot>, x: nat, bp: nat, pointer: nat)
    requires x < |slots| && tr.depth == 1 && Kept(th.stk, tr, slots, x, bp, pointer, [], 0) && CallAddress(th, address).Done?
    ensures Kept(CallAddress(th, address).value.stk, tr.(depth := 2), slots, x, bp, pointer, [Frame(th.ip, bp)], th.stk.sp)
  {
    hide PushFrame, HasValue, HighLow;
    PushFrameHolds(th.stk, th.ip, [], th.stk.sp);
    PushFrameShape(th.stk, th.ip);
    assert [] + [Frame(th.ip, bp)] == [Frame(th.ip, bp)];
    if tr.last.Some? {
      ValueBelow(th.stk.data, PushFrame(th.stk, th.ip).value.data, th.stk.sp, bp, slots[x], tr.last.value);
    }
  }

  lemma OwnKeeps(img: Image, th: Thread, tr: Track, slots: seq<Slot>, x: nat, bp: nat, input: Input)
    returns (fs: seq<Frame>, base: nat)
    requires img.Valid() && x < |slots| && LaidOut(slots) && tr.depth == 1 && OrderlyStep(img, th, tr, slots, input)
    requires Kept(th.stk, tr, slots, x, bp, img.platform.pointer, [], 0)
    requires Next(tr, Fetched(img, th.ip), th, slots, x).depth > 0
    ensures Kept(Step(img, th, input).value.0.stk, Next(tr, Fetched(img, th.ip), th, slots, x), slots, x, bp,
                 img.platform.pointer, fs, base)
  {
    hide Holds, HasValue, LaidOut, EndBy, Orderly, DataOp, CallAddress, PopFrame, Pop, Decode, Selects;
    fs, base := [], 0;
    var i := Fetched(img, th.ip);
    if i.None? { hide Step; UnknownKeepsStack(img, th, input); return; }
    var next := th.(ip := th.ip + Size(i.value.op));
    assert Step(img, th, input) == Execute(img.Context(), i.value, next, input);
    if i.value.op.Call? {
      CallKeeps(next, i.value.Word(), tr, slots, x, bp, img.platform.pointer);
      fs, base := [Frame(next.ip, bp)], th.stk.sp;
    } else if !IsControl(i.value.op) {
      if IsLocal(i.value.op) {
        LocalDataOp(img.Context(), i.value, th, input);
        LocalKeeps(img.Context(), i.value, th, tr, slots, x, bp);
      } else {
        OnlyLocalsTouchCallStack(img.Context(), i.value, th.ops, th.stk, input);
      }
    }
  }

  lemma LocalDataOp(env: Env, i: Instr, th: Thread, input: Input)
    requires i.Valid() && IsLocal(i.op)
    ensures DataOp(env, i, th.ops, th.stk, input) == LocalOp(env, i, th.ops, th.stk)
  {
    hide LocalOp;
  }

  lemma {:induction false} RunKeeps(img: Image, th: Thread, tr: Track, slots: seq<Slot>, x: nat, bp: nat,
                                    fs: seq<Frame>, base: nat, ins: seq<Input>)
    returns (fs': seq<Frame>, base': nat)
    requires img.Valid() && x < |slots| && LaidOut(slots) && Within(img, th, tr, slots, x, ins)
    requires Kept(th.stk, tr, slots, x, bp, img.platform.pointer, fs, base) && (fs == [] ==> base == 0)
    ensures Run(img, th, ins).end.Done?
    ensures Kept(Run(img, th, ins).end.value.stk, End(img, th, tr, slots, x, ins), slots, x, bp,
                 img.platform.pointer, fs', base')
    decreases |ins|
  {
    hide Step, Kept, Next, Fetched, LaidOut, OrderlyStep;
    fs', base' := fs, base;
    if ins != [] {
      KeptDepth(th.stk, tr, slots, x, bp, img.platform.pointer, fs, base);
      var fs1, base1 := fs, base;
      if fs == [] {
        fs1, base1 := OwnKeeps(img, th, tr, slots, x, bp, ins[0]);
      } else {
        fs1 := NestedKeeps(img, th, tr, slots, x, bp, fs, base, ins[0]);
      }
      StepIsDone(img, th, tr, slots, ins[0]);
      var t := Step(img, th, ins[0]).value.0;
      var next := Next(tr, Fetched(img, th.ip), th, slots, x);
      if fs1 == [] { NoBase(t.stk, next, slots, x, bp, img.platform.pointer, base1); base1 := 0; }
      fs', base' := RunKeeps(img, t, next, slots, x, bp, fs1, base1, ins[1..]);
    }
  }

  lemma StepIsDone(img: Image, th: Thread, tr: Track, slots: seq<Slot>, input: Input)
    requires img.Valid() && OrderlyStep(img, th, tr, slots, input)
    ensures Step(img, th, input).Done?
  {
  }

  lemma KeptDepth(stk: Stk, tr: Track, slots: seq<Slot>, x: nat, bp: nat, pointer: nat, fs: seq<Frame>, base: nat)
    requires x < |slots| && Kept(stk, tr, slots, x, bp, pointer, fs, base)
    ensures tr.depth == |fs| + 1
  {
  }

  lemma NoBase(stk: Stk, tr: Track, slots: seq<Slot>, x: nat, bp: nat, pointer: nat, base: nat)
    requires x < |slots| && Kept(stk, tr, slots, x, bp, pointer, [], base)
    ensures Kept(stk, tr, slots, x, bp, pointer, [], 0)
  {
  }

  // ----- PUSH_LOCAL -----

  lemma ReadsValue(env: Env, ops: Stk, stk: Stk, bp: nat, slot: Slot, v: seq<byte>)
    requires stk.bp == bp && bp + slot.offset + slot.size <= stk.sp && HasValue(stk.data, bp, slot, v)
    requires Selects(ops, slot) && slot.size <= env.platform.pointer
    ensures PushLocalOp(env, ops, stk) == OnOps(Push(PopPair(ops).value.2, v), stk)
  {
    hide PopPair, Push;
    RevRev(v);
  }

  /** What happens when PUSH_LOCAL reads `v`: it is pushed if it fits, nothing else changes. */
  function Pushing(t: Thread, v: seq<byte>): Outcome<(Thread, Event)>
    requires PopPair(t.ops).Done?
  {
    var ops :- Push(PopPair(t.ops).value.2, v);
    Done((Thread(Wrap(t.ip + 1), ops, t.stk), Silent))
  }

  lemma PushLocalSteps(img: Image, t: Thread, slot: Slot, v: seq<byte>, bp: nat, input: Input)
    requires img.Valid() && Fetched(img, t.ip).Some? && Fetched(img, t.ip).value.op.PushLocal?
    requires t.stk.bp == bp && bp + slot.offset + slot.size <= t.stk.sp && HasValue(t.stk.data, bp, slot, v)
    requires Selects(t.ops, slot) && slot.size <= img.platform.pointer
    ensures Step(img, t, input) == Pushing(t, v)
  {
    hide PopPair, Push, HasValue, PushLocalOp, Decode;
    var i := Fetched(img, t.ip).value;
    assert Step(img, t, input) == Execute(img.Context(), i, t.(ip := t.ip + 1), input);
    ReadsValue(img.Context(), t.ops, t.stk, bp, slot, v);
    assert DataOp(img.Context(), i, t.ops, t.stk, input) == PushLocalOp(img.Context(), t.ops, t.stk);
  }

  /** From the entry of a function on, whatever it computes and however deep its calls nest: when it is back in its
      own code, a PUSH_LOCAL of variable `x` pushes the value that its last POP_LOCAL of `x` took. */
  lemma VariableIsRead(img: Image, th: Thread, slots: seq<Slot>, x: nat, ins: seq<Input>, v: seq<byte>, input: Input)
    requires img.Valid() && x < |slots| && LaidOut(slots) && Framed(th.stk) && th.stk.sp == th.stk.bp
    requires Within(img, th, Track(1, 0, None), slots, x, ins)
    requires var end := End(img, th, Track(1, 0, None), slots, x, ins); end.depth == 1 && end.last == Some(v)
    ensures Run(img, th, ins).end.Done?
    ensures var t := Run(img, th, ins).end.value;
            (Fetched(img, t.ip).Some? && Fetched(img, t.ip).value.op.PushLocal? && Selects(t.ops, slots[x])) ==>
              Step(img, t, input) == Pushing(t, v)
  {
    hide Step, Within, End, Next, Fetched, LaidOut, Selects, HasValue, Holds;
    var fs, base := RunKeeps(img, th, Track(1, 0, None), slots, x, th.stk.bp, [], 0, ins);
    var t := Run(img, th, ins).end.value;
    if Fetched(img, t.ip).Some? && Fetched(img, t.ip).value.op.PushLocal? && Selects(t.ops, slots[x]) {
      PushLocalSteps(img, t, slots[x], v, th.stk.bp, input);
    }
  }

  // ----- with the compiler's layout -----

  /** The position of the local that line `k` allocates. */
  function Position(lines: seq<Line>, f: nat, k: nat): nat
    requires f < k <= |lines| && SizesFit(lines)
  {
    |AllocSlots(lines, f, k)|
  }

  lemma {:induction false} SlotsLaidOut(lines: seq<Line>, f: nat, e: nat)
    requires f < e <= |lines| && SizesFit(lines)
    ensures var slots := AllocSlots(lines, f, e);
            && LaidOut(slots)
            && OffsetAt(lines, f, e) == if slots == [] then 0 else slots[|slots| - 1].offset + slots[|slots| - 1].size
    decreases e
  {
    hide SizeBefore;
    if e > f + 1 {
      SlotsLaidOut(lines, f, e - 1);
      var front := AllocSlots(lines, f, e - 1);
      if IsAlloc(lines[e - 1]) {
        OffsetsGrow(lines, f, e - 1, e - 1);
        LaidOutAppend(front, Slot(OffsetAt(lines, f, e - 1), SizeOf(lines, e - 1)));
      } else {
        assert front + [] == front;
      }
    }
  }

  lemma LaidOutAppend(slots: seq<Slot>, last: Slot)
    requires LaidOut(slots)
    requires last.offset == if slots == [] then 0 else slots[|slots| - 1].offset + slots[|slots| - 1].size
    ensures LaidOut(slots + [last])
  {
    var all := slots + [last];
    forall j, k | 0 <= j < k < |all| ensures all[j].offset + all[j].size <= all[k].offset
    {
      if k == |slots| && j < k - 1 { assert slots[j].offset + slots[j].size <= slots[k - 1].offset; }
    }
  }

  lemma {:induction false} SlotAtPosition(lines: seq<Line>, f: nat, k: nat, e: nat)
    requires f < k < e <= |lines| && SizesFit(lines) && IsAlloc(lines[k])
    ensures Position(lines, f, k) < |AllocSlots(lines, f, e)| && OffsetAt(lines, f, k) >= 0
    ensures AllocSlots(lines, f, e)[Position(lines, f, k)] == Slot(OffsetAt(lines, f, k), SizeOf(lines, k))
    decreases e
  {
    hide SizeBefore;
    OffsetsGrow(lines, f, k, k);
    if e > k + 1 {
      SlotAtPosition(lines, f, k, e - 1);
    }
  }

  /** End to end: take a variable `$x` declared in line `k` of the function between lines `f` and `e`, any line `i` of that
      function with operand `$x`, and a call of the function that runs its ALLOC_LOCALs in textual order. A PUSH_LOCAL with
      the offset that the compiler has put into line `i`, and the size declared before line `k`, pushes what was last stored
      there, through any computation and nested calls. */
  lemma CompiledVariableIsRead(lines: seq<Line>, f: nat, k: nat, e: nat, i: nat, img: Image, caller: Thread, entry: word,
                               ins: seq<Input>, v: seq<byte>, input: Input)
    requires LocalsBuilt(lines).Ok? && SizesFit(lines) && LocalOf(lines, f, k) && k < e <= |lines|
    requires i < |lines| && LocalNames.Inside(lines, f, i) && lines[i].Ins? && lines[i].arg == lines[k].arg
    requires img.Valid() && Framed(caller.stk) && CallAddress(caller, entry).Done?
    requires var slots, x, th := AllocSlots(lines, f, e), Position(lines, f, k), CallAddress(caller, entry).value;
             && x < |slots|
             && Within(img, th, Track(1, 0, None), slots, x, ins)
             && End(img, th, Track(1, 0, None), slots, x, ins).depth == 1
             && End(img, th, Track(1, 0, None), slots, x, ins).last == Some(v)
    ensures var done, before := LocalsBuilt(lines).value, lines[k - 1];
            && i < |done| && done[i].Ins? && done[i].op == lines[i].op && done[i].arg.Num? && done[i].arg.v >= 0
            && before.Ins? && before.arg.Num? && before.arg.v >= 0
            && var r := Run(img, CallAddress(caller, entry).value, ins).end;
               && r.Done?
               && (Fetched(img, r.value.ip).Some? && Fetched(img, r.value.ip).value.op.PushLocal?
                   && Selects(r.value.ops, Slot(done[i].arg.v, before.arg.v)) ==>
                     Step(img, r.value, input) == Pushing(r.value, v))
  {
    hide Step, Within, End, Next, Fetched, LaidOut, Selects, CallAddress, AllocSlots, Pushing, SizeOf, OffsetAt, LocalsBuilt;
    SlotsLaidOut(lines, f, e);
    SlotAtPosition(lines, f, k, e);
    LocalNames.LocalIsOffset(lines, f, k, i);
    DeclaredSize(lines, f, k);
    EntryIsFramed(caller, entry);
    VariableIsRead(img, CallAddress(caller, entry).value, AllocSlots(lines, f, e), Position(lines, f, k), ins, v, input);
  }

  /** The size of a local is the operand of the line before its ALLOC_LOCAL. */
  lemma DeclaredSize(lines: seq<Line>, f: nat, k: nat)
    requires LocalsBuilt(lines).Ok? && SizesFit(lines) && LocalOf(lines, f, k)
    ensures lines[k - 1].Ins? && lines[k - 1].arg.Num? && lines[k - 1].arg.v == SizeOf(lines, k) >= 0
  {
    LocalNames.OffsetCounts(lines, f, k);
  }

  lemma EntryIsFramed(th: Thread, entry: word)
    requires Framed(th.stk) && CallAddress(th, entry).Done?
    ensures var t := CallAddress(th, entry).value; Framed(t.stk) && t.stk.sp == t.stk.bp && t.ip == entry
  {
    hide PushFrame;
    PushFrameShape(th.stk, th.ip);
  }
}
