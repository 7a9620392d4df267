/** `build_local_variables`: offsets of the locals of each function, and what the VM makes of them. */
module Locals {
  import opened Bytes
  import opened ByteStack
  import opened Isa
  import opened Machine
  import opened Assembler

  /** State of the first loop: the variable prefix of the function at hand, the next free offset and
      the offsets given so far. */
  datatype Alloc = Alloc(prefix: Option<string>, offset: int, table: map<string, int>)

  /** The key of a variable: function name, underscore, variable name. */
  function Key(prefix: string, name: string): string { prefix + "_" + name }

  /** The operand of the line before line `i`; Python's index -1 is the last line. */
  function SizeBefore(lines: seq<Line>, i: nat): Result<int>
    requires i < |lines|
  {
    var line := lines[if i == 0 then |lines| - 1 else i - 1];
    if line.Ins? && line.arg.Num? then Ok(line.arg.v) else Crash
  }

  predicate IsAlloc(line: Line) { line.Ins? && line.op.AllocLocal? }

  function Digits(n: nat): (s: string)
    ensures s != []
  {
    var digit := '0' + (n % 10) as char;
    if n < 10 then [digit] else Digits(n / 10) + [digit]
  }

  /** The variable that the operand of ALLOC_LOCAL names: the operand's text without its first character, so a
      number, too, names one. There is none without an operand, nor for a float, which ALLOC_LOCAL cannot encode. */
  function VariableName(arg: Arg): Option<string> {
    match arg
    case VarRef(name) => Some(name)
    case LabelRef(name) => Some(name)
    case Num(v) => Some(if v < 0 then Digits(-v) else Digits(v)[1..])
    case _ => None
  }

  /** The state after the first `i` lines. A variable allocated twice, or before any function, is an error. */
  function Allocated(lines: seq<Line>, i: nat): Result<Alloc>
    requires i <= |lines|
  {
    if i == 0 then Ok(Alloc(None, 0, map[]))
    else
      var st :- Allocated(lines, i - 1);
      AllocStep(lines, i - 1, st)
  }

  function AllocStep(lines: seq<Line>, i: nat, st: Alloc): Result<Alloc>
    requires i < |lines|
  {
    var line := lines[i];
    if line.Fn? then Ok(st.(prefix := Some(line.name), offset := 0))
    else if !IsAlloc(line) then Ok(st)
    else
      var size :- SizeBefore(lines, i);
      var name := VariableName(line.arg);
      if st.prefix.None? || name.None? || Key(st.prefix.value, name.value) in st.table then Crash
      else Ok(st.(table := st.table[Key(st.prefix.value, name.value) := st.offset], offset := st.offset + size))
  }

  /** The prefix in force at line `i` of the second loop; at first it is the one the first loop left. */
  function PrefixAt(lines: seq<Line>, i: nat, initial: Option<string>): Option<string>
    requires i <= |lines|
  {
    if i == 0 then initial
    else if lines[i - 1].Fn? then Some(lines[i - 1].name)
    else PrefixAt(lines, i - 1, initial)
  }

  function Located(line: Line, prefix: Option<string>, table: map<string, int>): Result<Line> {
    if !line.Ins? || !line.arg.VarRef? then Ok(line)
    else if prefix.None? || Key(prefix.value, line.arg.name) !in table then Crash
    else Ok(Ins(line.op, Num(table[Key(prefix.value, line.arg.name)])))
  }

  function LocatedUpTo(lines: seq<Line>, i: nat, st: Alloc): Result<seq<Line>>
    requires i <= |lines|
  {
    if i == 0 then Ok([])
    else
      var front :- LocatedUpTo(lines, i - 1, st);
      var line :- Located(lines[i - 1], PrefixAt(lines, i - 1, st.prefix), st.table);
      Ok(front + [line])
  }

  function LocalsBuilt(lines: seq<Line>): Result<seq<Line>>
  {
    var st :- Allocated(lines, |lines|);
    LocatedUpTo(lines, |lines|, st)
  }

  method AllocateLocals(lines: seq<Line>) returns (r: Result<Alloc>)
    ensures r == Allocated(lines, |lines|)
  {
    var addresses: map<string, int> := map[];
    var offset := 0;
    var prefix: Option<string> := None;
    for i := 0 to |lines|
      invariant Allocated(lines, i) == Ok(Alloc(prefix, offset, addresses))
    {
      var content := lines[i];
      if content.Fn? {
        offset, prefix := 0, Some(content.name);
      }
      if IsAlloc(content) {
        var size := SizeBefore(lines, i);
        var name := VariableName(content.arg);
        if size.Crash? || prefix.None? || name.None? || Key(prefix.value, name.value) in addresses {
          AllocatedPrefix(lines, i + 1, |lines|);
          return Crash;
        }
        addresses := addresses[Key(prefix.value, name.value) := offset];
        offset := offset + size.value;
      }
    }
    return Ok(Alloc(prefix, offset, addresses));
  }

  lemma {:induction false} AllocatedPrefix(lines: seq<Line>, i: nat, j: nat)
    requires i <= j <= |lines|
    ensures Allocated(lines, j).Ok? ==> Allocated(lines, i).Ok?
    decreases j
  {
    if i < j {
      AllocatedPrefix(lines, i, j - 1);
    }
  }

  method BuildLocalVariables(lines: seq<Line>) returns (r: Result<seq<Line>>)
    ensures r == LocalsBuilt(lines)
  {
    var st := AllocateLocals(lines);
    if st.Crash? { return Crash; }
    var prefix := st.value.prefix;
    var newLines: seq<Line> := [];
    for i := 0 to |lines|
      invariant prefix == PrefixAt(lines, i, st.value.prefix)
      invariant LocatedUpTo(lines, i, st.value) == Ok(newLines)
    {
      var line := Located(lines[i], prefix, st.value.table);
      if line.Crash? {
        LocatedPrefix(lines, i + 1, |lines|, st.value);
        return Crash;
      }
      newLines := newLines + [line.value];
      if lines[i].Fn? { prefix := Some(lines[i].name); }
    }
    return Ok(newLines);
  }

  lemma {:induction false} LocatedPrefix(lines: seq<Line>, i: nat, j: nat, st: Alloc)
    requires i <= j <= |lines|
    ensures LocatedUpTo(lines, j, st).Ok? ==> LocatedUpTo(lines, i, st).Ok?
    decreases j
  {
    if i < j {
      LocatedPrefix(lines, i, j - 1, st);
    }
  }

  // ----- the layout -----

  /** Line `k` allocates a local of the function that starts at line `f`. */
  predicate LocalOf(lines: seq<Line>, f: nat, k: nat) {
    f < k < |lines| && lines[f].Fn? && IsAlloc(lines[k]) && lines[k].arg.VarRef?
    && forall j :: f < j <= k ==> !lines[j].Fn?
  }

  /** Bytes allocated by the function at `f` before line `k`. */
  function OffsetAt(lines: seq<Line>, f: nat, k: nat): int
    requires f < k <= |lines|
    decreases k
  {
    if k == f + 1 then 0
    else OffsetAt(lines, f, k - 1) + SizeOf(lines, k - 1)
  }

  function SizeOf(lines: seq<Line>, k: nat): int
    requires k < |lines|
  {
    if IsAlloc(lines[k]) && SizeBefore(lines, k).Ok? then SizeBefore(lines, k).value else 0
  }

  lemma {:induction false} StateAt(lines: seq<Line>, f: nat, k: nat)
    requires f < k <= |lines| && lines[f].Fn?
    requires forall j :: f < j < k ==> !lines[j].Fn?
    requires Allocated(lines, k).Ok?
    ensures Allocated(lines, k).value.prefix == Some(lines[f].name)
    ensures Allocated(lines, k).value.offset == OffsetAt(lines, f, k)
    decreases k
  {
    if k > f + 1 {
      StateAt(lines, f, k - 1);
    }
  }

  /** An offset once given is never changed. */
  lemma {:induction false} TableGrows(lines: seq<Line>, i: nat, j: nat, key: string)
    requires i <= j <= |lines| && Allocated(lines, j).Ok?
    ensures Allocated(lines, i).Ok?
    ensures key in Allocated(lines, i).value.table ==>
              key in Allocated(lines, j).value.table
              && Allocated(lines, j).value.table[key] == Allocated(lines, i).value.table[key]
    decreases j
  {
    if i < j {
      TableGrows(lines, i, j - 1, key);
    }
  }

  /** The offset of a local is the number of bytes its function allocated before it. */
  lemma OffsetGiven(lines: seq<Line>, f: nat, k: nat)
    requires LocalOf(lines, f, k) && Allocated(lines, |lines|).Ok?
    ensures var table := Allocated(lines, |lines|).value.table;
            var key := Key(lines[f].name, lines[k].arg.name);
            key in table && table[key] == OffsetAt(lines, f, k)
    ensures SizeBefore(lines, k).Ok?
  {
    AllocatedPrefix(lines, k, |lines|);
    AllocatedPrefix(lines, k + 1, |lines|);
    StateAt(lines, f, k);
    TableGrows(lines, k + 1, |lines|, Key(lines[f].name, lines[k].arg.name));
  }

  lemma {:induction false} OffsetsGrow(lines: seq<Line>, f: nat, j: nat, k: nat)
    requires f < j <= k <= |lines| && forall i :: 0 <= i < |lines| ==> SizeOf(lines, i) >= 0
    ensures OffsetAt(lines, f, j) <= OffsetAt(lines, f, k)
    ensures OffsetAt(lines, f, j) >= 0
    decreases k
  {
    if j < k {
      OffsetsGrow(lines, f, j, k - 1);
    } else if j > f + 1 {
      OffsetsGrow(lines, f, j - 1, k - 1);
    }
  }

  /** The locals of one function lie one after the other from offset 0: the first is at 0, each ends
      where the next begins, and no two overlap. */
  lemma LayoutSound(lines: seq<Line>, f: nat, j: nat, k: nat)
    requires Allocated(lines, |lines|).Ok?
    requires LocalOf(lines, f, j) && LocalOf(lines, f, k) && j < k
    requires forall i :: 0 <= i < |lines| ==> SizeOf(lines, i) >= 0
    ensures var table := Allocated(lines, |lines|).value.table;
            var a, b := Key(lines[f].name, lines[j].arg.name), Key(lines[f].name, lines[k].arg.name);
            && a in table && b in table
            && 0 <= table[a] && table[a] + SizeOf(lines, j) <= table[b]
            && ((forall i :: f < i < j ==> !IsAlloc(lines[i])) ==> table[a] == 0)
            && ((forall i :: j < i < k ==> !IsAlloc(lines[i])) ==> table[a] + SizeOf(lines, j) == table[b])
  {
    OffsetGiven(lines, f, j);
    OffsetGiven(lines, f, k);
    OffsetsGrow(lines, f, j + 1, k);
    OffsetsGrow(lines, f, j, j);
    if forall i :: f < i < j ==> !IsAlloc(lines[i]) { NoAllocs(lines, f, f + 1, j); }
    if forall i :: j < i < k ==> !IsAlloc(lines[i]) { NoAllocs(lines, f, j + 1, k); }
  }

  lemma {:induction false} NoAllocs(lines: seq<Line>, f: nat, j: nat, k: nat)
    requires f < j <= k <= |lines| && forall i :: j <= i < k ==> !IsAlloc(lines[i])
    ensures OffsetAt(lines, f, k) == OffsetAt(lines, f, j)
    decreases k
  {
    if j < k {
      NoAllocs(lines, f, j, k - 1);
    }
  }

  /** Two variables of one function never share a key. */
  lemma KeysDistinct(prefix: string, x: string, y: string)
    requires x != y
    ensures Key(prefix, x) != Key(prefix, y)
  {
    var p := prefix + "_";
    assert Key(prefix, x)[|p|..] == x;
    assert Key(prefix, y)[|p|..] == y;
  }

  // ----- at run time -----

  /** The call stack after the ALLOC_LOCALs of `sizes` ran once. */
  function AfterAllocs(stk: Stk, sizes: seq<word>): Stk
    decreases |sizes|
  {
    if sizes == [] then stk else AfterAllocs(stk.(sp := Wrap(stk.sp + sizes[0])), sizes[1..])
  }

  function Total(sizes: seq<word>): nat {
    if sizes == [] then 0 else sizes[0] + Total(sizes[1..])
  }

  /** On entry `sp == bp`: afterwards the frame covers exactly the bytes allocated. */
  lemma {:induction false} AllocsCover(stk: Stk, sizes: seq<word>)
    requires stk.sp + Total(sizes) < 65536
    ensures AfterAllocs(stk, sizes) == stk.(sp := stk.sp + Total(sizes))
    decreases |sizes|
  {
    if sizes != [] {
      AllocsCover(stk.(sp := stk.sp + sizes[0]), sizes[1..]);
    }
  }

  /** A local variable: offset and size. */
  datatype Slot = Slot(offset: nat, size: nat)

  predicate Disjoint(a: Slot, b: Slot) {
    a.offset + a.size <= b.offset || b.offset + b.size <= a.offset
  }

  /** All slots lie in the frame `[bp, sp)`, and no two overlap. */
  predicate SlotsFit(stk: Stk, slots: seq<Slot>) {
    && stk.bp <= stk.sp <= |stk.data| < 65536
    && (forall x :: 0 <= x < |slots| ==> stk.bp + slots[x].offset + slots[x].size <= stk.sp)
    && (forall x, y :: 0 <= x < |slots| && 0 <= y < |slots| && x != y ==> Disjoint(slots[x], slots[y]))
  }

  predicate InArray(stk: Stk, slot: Slot) { stk.bp + slot.offset + slot.size <= |stk.data| }

  /** The bytes of a variable. */
  function Content(stk: Stk, slot: Slot): seq<byte>
    requires InArray(stk, slot)
  {
    stk.data[stk.bp + slot.offset..stk.bp + slot.offset + slot.size]
  }

  /** A POP_LOCAL of a whole variable: which one, and the value. */
  datatype Store = Store(slot: nat, value: seq<byte>)

  predicate StoresFit(slots: seq<Slot>, stores: seq<Store>) {
    forall i :: 0 <= i < |stores| ==> stores[i].slot < |slots| && |stores[i].value| == slots[stores[i].slot].size
  }

  function AfterStores(stk: Stk, slots: seq<Slot>, stores: seq<Store>): Outcome<Stk>
    requires StoresFit(slots, stores)
    decreases |stores|
  {
    if stores == [] then Done(stk)
    else
      var last := stores[|stores| - 1];
      var before :- AfterStores(stk, slots, stores[..|stores| - 1]);
      StoreInto(before, slots[last.slot], last.value)
  }

  function StoreInto(stk: Stk, slot: Slot, value: seq<byte>): Outcome<Stk> {
    WriteAt(stk, value, Wrap(stk.bp + slot.offset))
  }

  /** The value last stored in variable `x`, if any. */
  function LastStored(stores: seq<Store>, x: nat): Option<seq<byte>>
    decreases |stores|
  {
    if stores == [] then None
    else if stores[|stores| - 1].slot == x then Some(stores[|stores| - 1].value)
    else LastStored(stores[..|stores| - 1], x)
  }

  /** `t` is `stk` after changes inside the frame. */
  predicate SameFrame(stk: Stk, t: Stk) {
    t.sp == stk.sp && t.bp == stk.bp && |t.data| == |stk.data| && AgreeBelow(t.data, stk.data, stk.bp)
  }

  /** A local holds the value last stored in it, whatever was stored in the others; and the stores
      touch nothing below the frame. */
  lemma {:induction false} LocalsAreVariables(stk: Stk, slots: seq<Slot>, stores: seq<Store>, x: nat)
    requires SlotsFit(stk, slots) && StoresFit(slots, stores) && x < |slots|
    ensures AfterStores(stk, slots, stores).Done?
    ensures var t := AfterStores(stk, slots, stores).value;
            && SameFrame(stk, t) && InArray(stk, slots[x]) && InArray(t, slots[x])
            && Content(t, slots[x])
               == match LastStored(stores, x) case Some(v) => Rev(v) case None => Content(stk, slots[x])
    decreases |stores|
  {
    hide StoreInto, Content, Disjoint, SameFrame, SlotsFit, Rev;
    if stores == [] {
      FitsAt(stk, slots, x, x);
      SameFrameReflexive(stk);
    } else {
      var front, s := stores[..|stores| - 1], stores[|stores| - 1];
      LocalsAreVariables(stk, slots, front, x);
      FitsAt(stk, slots, s.slot, x);
      var t := AfterStores(stk, slots, front).value;
      FrameBounds(stk, t);
      StoreKeeps(t, slots[s.slot], s.value, slots[x], s.slot == x);
      SameFrameTransitive(stk, t, AfterStores(stk, slots, stores).value);
    }
  }

  lemma FitsAt(stk: Stk, slots: seq<Slot>, x: nat, y: nat)
    requires SlotsFit(stk, slots) && x < |slots| && y < |slots|
    ensures stk.bp <= stk.sp <= |stk.data| < 65536
    ensures stk.bp + slots[x].offset + slots[x].size <= stk.sp
    ensures stk.bp + slots[y].offset + slots[y].size <= stk.sp
    ensures x != y ==> Disjoint(slots[x], slots[y])
  {
  }

  lemma FrameBounds(s: Stk, t: Stk)
    requires SameFrame(s, t)
    ensures t.sp == s.sp && t.bp == s.bp && |t.data| == |s.data|
  {
  }

  lemma SameFrameReflexive(s: Stk)
    requires s.bp <= |s.data|
    ensures SameFrame(s, s)
  {
  }

  lemma SameFrameTransitive(s: Stk, t: Stk, u: Stk)
    requires SameFrame(s, t) && SameFrame(t, u)
    ensures SameFrame(s, u)
  {
  }

  lemma StoreKeeps(t: Stk, at: Slot, value: seq<byte>, other: Slot, same: bool)
    requires t.bp <= t.sp <= |t.data| < 65536 && |value| == at.size
    requires t.bp + at.offset + at.size <= t.sp && t.bp + other.offset + other.size <= t.sp
    requires if same then at == other else Disjoint(at, other)
    ensures StoreInto(t, at, value).Done?
    ensures var u := StoreInto(t, at, value).value;
            SameFrame(t, u) && Content(u, other) == if same then Rev(value) else Content(t, other)
  {
    hide WriteAt;
    var lo := t.bp + at.offset;
    WriteShape(t, value, lo);
    Middle(t.data[..lo], Rev(value), t.data[lo + at.size..]);
    SpliceKeeps(t.data, lo, Rev(value), 0, t.bp);
    if !same {
      SpliceKeeps(t.data, lo, Rev(value), t.bp + other.offset, t.bp + other.offset + other.size);
    }
  }

  /** A read at its slot therefore gives that value. */
  lemma LocalIsRead(stk: Stk, slots: seq<Slot>, stores: seq<Store>, x: nat)
    requires SlotsFit(stk, slots) && StoresFit(slots, stores) && x < |slots|
    requires LastStored(stores, x).Some?
    ensures AfterStores(stk, slots, stores).Done?
    ensures var t := AfterStores(stk, slots, stores).value;
            ReadAt(t, slots[x].size, Wrap(t.bp + slots[x].offset)) == Done(LastStored(stores, x).value)
  {
    hide AfterStores, SlotsFit, StoresFit, LastStored, Rev;
    LocalsAreVariables(stk, slots, stores, x);
    LastStoredSize(slots, stores, x);
    FitsAt(stk, slots, x, x);
    ReadsContent(AfterStores(stk, slots, stores).value, slots[x], LastStored(stores, x).value);
  }

  lemma ReadsContent(t: Stk, slot: Slot, value: seq<byte>)
    requires t.bp + slot.offset + slot.size <= t.sp <= |t.data| < 65536
    requires InArray(t, slot) && Content(t, slot) == Rev(value) && |value| == slot.size
    ensures ReadAt(t, slot.size, Wrap(t.bp + slot.offset)) == Done(value)
  {
    RevRev(value);
  }

  lemma {:induction false} LastStoredSize(slots: seq<Slot>, stores: seq<Store>, x: nat)
    requires StoresFit(slots, stores) && x < |slots| && LastStored(stores, x).Some?
    ensures |LastStored(stores, x).value| == slots[x].size
    decreases |stores|
  {
    if stores[|stores| - 1].slot != x {
      LastStoredSize(slots, stores[..|stores| - 1], x);
    }
  }

  // ----- from the compiler's layout to the frame -----

  /** The sizes given by the compiler are non-negative words. */
  predicate SizesFit(lines: seq<Line>) {
    forall i :: 0 <= i < |lines| ==> 0 <= SizeOf(lines, i) < 65536
  }

  /** The locals allocated between line `f` and line `e`, in textual order. */
  function AllocSlots(lines: seq<Line>, f: nat, e: nat): seq<Slot>
    requires f < e <= |lines| && SizesFit(lines)
    decreases e
  {
    if e == f + 1 then []
    else
      OffsetsGrow(lines, f, e - 1, e - 1);
      AllocSlots(lines, f, e - 1)
      + if IsAlloc(lines[e - 1]) then [Slot(OffsetAt(lines, f, e - 1), SizeOf(lines, e - 1))] else []
  }

  function SlotSizes(slots: seq<Slot>): seq<word>
    requires forall x :: 0 <= x < |slots| ==> slots[x].size < 65536
  {
    seq(|slots|, x requires 0 <= x < |slots| => slots[x].size as word)
  }

  /** Slots up to `end`, none overlapping another. */
  predicate Separate(slots: seq<Slot>, end: int) {
    && (forall x :: 0 <= x < |slots| ==> slots[x].size < 65536 && slots[x].offset + slots[x].size <= end)
    && (forall x, y :: 0 <= x < |slots| && 0 <= y < |slots| && x != y ==> Disjoint(slots[x], slots[y]))
  }

  lemma SeparateAppend(slots: seq<Slot>, end: int, last: Slot)
    requires Separate(slots, end) && last.offset >= end && last.size < 65536
    ensures Separate(slots + [last], last.offset + last.size)
  {
    var all := slots + [last];
    forall x, y | 0 <= x < |all| && 0 <= y < |all| && x != y ensures Disjoint(all[x], all[y])
    {
      if x < |slots| && y < |slots| { assert Disjoint(slots[x], slots[y]); }
    }
  }

  lemma {:induction false} SlotsLayout(lines: seq<Line>, f: nat, e: nat)
    requires f < e <= |lines| && SizesFit(lines)
    ensures Separate(AllocSlots(lines, f, e), OffsetAt(lines, f, e))
    ensures Total(SlotSizes(AllocSlots(lines, f, e))) == OffsetAt(lines, f, e)
    decreases e
  {
    if e > f + 1 {
      hide SizeBefore, Separate;
      SlotsLayout(lines, f, e - 1);
      var front := AllocSlots(lines, f, e - 1);
      SeparateSizes(front, OffsetAt(lines, f, e - 1));
      if IsAlloc(lines[e - 1]) {
        OffsetsGrow(lines, f, e - 1, e - 1);
        var last := Slot(OffsetAt(lines, f, e - 1), SizeOf(lines, e - 1));
        SeparateAppend(front, OffsetAt(lines, f, e - 1), last);
        SeparateSizes(front + [last], OffsetAt(lines, f, e));
        assert SlotSizes(front + [last]) == SlotSizes(front) + [last.size];
        TotalAppend(SlotSizes(front), last.size);
      } else {
        assert AllocSlots(lines, f, e) == front;
      }
    }
  }

  lemma SeparateSizes(slots: seq<Slot>, end: int)
    requires Separate(slots, end)
    ensures forall x :: 0 <= x < |slots| ==> slots[x].size < 65536
  {
  }

  lemma {:induction false} TotalAppend(sizes: seq<word>, w: word)
    ensures Total(sizes + [w]) == Total(sizes) + w
    decreases |sizes|
  {
    if sizes == [] {
      assert sizes + [w] == [w];
    } else {
      assert (sizes + [w])[0] == sizes[0] && (sizes + [w])[1..] == sizes[1..] + [w];
      TotalAppend(sizes[1..], w);
    }
  }

  /** When the ALLOC_LOCALs of a function have run once in textual order, all its locals lie in the frame
      and none overlaps another. */
  lemma FrameHoldsLocals(lines: seq<Line>, f: nat, e: nat, entry: Stk)
    requires f < e <= |lines| && SizesFit(lines)
    requires entry.sp == entry.bp && entry.sp + OffsetAt(lines, f, e) <= |entry.data| < 65536
    ensures forall x :: 0 <= x < |AllocSlots(lines, f, e)| ==> AllocSlots(lines, f, e)[x].size < 65536
    ensures SlotsFit(AfterAllocs(entry, SlotSizes(AllocSlots(lines, f, e))), AllocSlots(lines, f, e))
  {
    SlotsLayout(lines, f, e);
    SeparateSizes(AllocSlots(lines, f, e), OffsetAt(lines, f, e));
    OffsetsGrow(lines, f, e, e);
    AllocsCover(entry, SlotSizes(AllocSlots(lines, f, e)));
  }

  /** POP_LOCAL with a variable's size and offset on the operand stack is a store into its slot;
      ALLOC_LOCAL with its size moves `sp` past it. */
  lemma InstructionsAreStores(env: Env, ops: Stk, stk: Stk, slot: Slot, arg: seq<byte>)
    requires slot.size <= env.platform.pointer && slot.offset < 65536 && |arg| == 2
    requires PopWord(ops).Done? && PopWord(ops).value.0 == slot.offset
    requires PopWord(PopWord(ops).value.1).Done? && PopWord(PopWord(ops).value.1).value.0 == slot.size
    ensures var ops2 := PopWord(PopWord(ops).value.1).value.1;
            Pop(ops2, slot.size).Done? ==>
              LocalOp(env, Instr(PopLocal, []), ops, stk)
              == match StoreInto(stk, slot, Pop(ops2, slot.size).value.0)
                 case Done(t) => Done(Effect(Pop(ops2, slot.size).value.1, t, Silent))
                 case Exited(c) => Exited(c)
                 case Undefined => Undefined
    ensures LocalOp(env, Instr(AllocLocal, arg), PopWord(ops).value.1, stk)
            == Done(Effect(PopWord(PopWord(ops).value.1).value.1, AfterAllocs(stk, [slot.size]), Silent))
  {
    hide PopWord, Pop, WriteAt;
    assert [slot.size as word][1..] == [];
  }
}
