/** The byte stack of src/stack.c: a fixed array with 16-bit `sp` and `bp`. */
module ByteStack {
  import opened Bytes

  /** The abstract value of a `Stack` object. */
  datatype Stk = Stk(data: seq<byte>, sp: word, bp: word) {

    /** The array length fits the `uint16_t size` field. */
    predicate Sized() { |data| < 65536 }

    /** `sp` has not been moved past the array. */
    predicate Within() { |data| < 65536 && sp <= |data| }

    /** The live bytes, oldest first. */
    function Live(): (s: seq<byte>)
      requires Within()
    {
      data[..sp]
    }
  }

  /** A new stack. */
  function Fresh(size: word): Stk { Stk(seq(size, _ => 0), 0, 0) }

  /** `stack_write_bend_data_at`: `final_address` is a `uint16_t`, so the bound check sees
      the sum modulo 65536, while the loop writes at the unreduced index. */
  function WriteAt(s: Stk, value: seq<byte>, addr: word): Outcome<Stk>
  {
    var fin := Wrap(addr + |value|);
    if fin > |s.data| then Exited(FAILURE)
    else if addr + |value| > |s.data| then Undefined
    else Done(s.(data := s.data[..addr] + Rev(value) + s.data[addr + |value|..],
                 sp := if fin > s.sp then fin else s.sp))
  }

  /** `stack_pop_bend_data`: the popped bytes in host order. */
  function Pop(s: Stk, n: nat): Outcome<(seq<byte>, Stk)>
  {
    if n > s.sp then Exited(FAILURE)
    else if n == 0 then Done(([], s))
    else if s.sp > |s.data| then Undefined
    else Done((Rev(s.data[s.sp - n..s.sp]), s.(sp := s.sp - n)))
  }

  /** `stack_read_bend_data_at`: the only check compares `n` with `sp`. */
  function ReadAt(s: Stk, n: nat, addr: word): Outcome<seq<byte>>
  {
    if n > s.sp then Exited(FAILURE)
    else if n == 0 then Done([])
    else if addr + n > |s.data| then Undefined
    else Done(Rev(s.data[addr..addr + n]))
  }

  function Push(s: Stk, value: seq<byte>): Outcome<Stk>
  {
    WriteAt(s, value, s.sp)
  }

  function PushWord(s: Stk, w: word): Outcome<Stk>
  {
    Push(s, LowHigh(w))
  }

  function PopWord(s: Stk): Outcome<(word, Stk)>
  {
    var (v, s1) :- Pop(s, 2);
    Done((ToWord(v[0], v[1]), s1))
  }

  // ----- what a push and a pop do to the live bytes -----

  /** On a stack whose `sp` is inside the array a push appends the value reversed,
      or exits exactly when it does not fit. */
  lemma PushLive(s: Stk, value: seq<byte>)
    requires s.Within() && |value| < 65536 - |s.data|
    ensures match Push(s, value)
            case Done(t) =>
              && s.sp + |value| <= |s.data|
              && t.Within() && |t.data| == |s.data| && t.bp == s.bp
              && t.Live() == s.Live() + Rev(value)
              && t.data[t.sp..] == s.data[t.sp..]
            case Exited(c) => c == FAILURE && s.sp + |value| > |s.data|
            case Undefined => false
  {
  }

  lemma PopLive(s: Stk, n: nat)
    requires s.Within()
    ensures match Pop(s, n)
            case Done(p) =>
              && n <= s.sp
              && p.1 == s.(sp := s.sp - n)
              && |p.0| == n
              && s.Live() == p.1.Live() + Rev(p.0)
            case Exited(c) => c == FAILURE && n > s.sp
            case Undefined => false
  {
    if n <= s.sp {
      var p := Pop(s, n).value;
      assert Rev(p.0) == s.data[s.sp - n..s.sp];
    }
  }

  /** Popping what was just pushed returns it in host order and restores the stack,
      except for the bytes above `sp`. */
  lemma PushPop(s: Stk, value: seq<byte>)
    requires s.Sized() && Push(s, value).Done? && |value| > 0
    ensures var t := Push(s, value).value;
            Pop(t, |value|) == Done((value, t.(sp := s.sp)))
            && t.data[..s.sp] == s.data[..s.sp]
  {
    WriteRead(s, value, s.sp);
  }

  lemma Middle(a: seq<byte>, b: seq<byte>, c: seq<byte>)
    ensures (a + b + c)[|a|..|a| + |b|] == b
    ensures (a + b + c)[..|a|] == a
  {
  }

  /** A value written at an address is read back there. */
  lemma WriteRead(s: Stk, value: seq<byte>, addr: word)
    requires s.Sized() && WriteAt(s, value, addr).Done?
    ensures ReadAt(WriteAt(s, value, addr).value, |value|, addr) == Done(value)
  {
    Middle(s.data[..addr], Rev(value), s.data[addr + |value|..]);
    RevRev(value);
  }

  /** A write inside the array. */
  lemma WriteShape(s: Stk, value: seq<byte>, addr: word)
    requires addr + |value| <= |s.data| < 65536
    ensures WriteAt(s, value, addr)
            == Done(Stk(s.data[..addr] + Rev(value) + s.data[addr + |value|..],
                        if addr + |value| > s.sp then addr + |value| else s.sp, s.bp))
  {
  }

  lemma PushWordLive(s: Stk, w: word)
    requires s.Within() && |s.data| < 65534
    ensures PushWord(s, w).Done? <==> s.sp + 2 <= |s.data|
    ensures !PushWord(s, w).Done? ==> PushWord(s, w) == Exited(FAILURE)
    ensures PushWord(s, w).Done? ==>
              var t := PushWord(s, w).value;
              && t.Within() && |t.data| == |s.data| && t.bp == s.bp && t.sp == s.sp + 2
              && t.Live() == s.Live() + HighLow(w)
  {
    PushLive(s, LowHigh(w));
    assert Rev(LowHigh(w)) == HighLow(w);
  }

  lemma PopWordLive(s: Stk, p: seq<byte>, w: word)
    requires s.Within() && s.Live() == p + HighLow(w)
    ensures PopWord(s) == Done((w, s.(sp := |p|)))
    ensures s.(sp := |p|).Live() == p
  {
    assert s.data[s.sp - 2..s.sp] == s.Live()[|p|..] == HighLow(w);
    assert Rev(HighLow(w)) == LowHigh(w);
  }

  // ----- the object -----

  /** The array when `i` bytes of `value` have been written. */
  ghost function Written(data: seq<byte>, value: seq<byte>, addr: nat, i: nat): (r: seq<byte>)
    requires i <= |value| && addr + |value| <= |data|
    ensures |r| == |data|
  {
    data[..addr] + Rev(value)[..i] + data[addr + i..]
  }

  lemma WrittenNext(data: seq<byte>, value: seq<byte>, addr: nat, i: nat)
    requires i < |value| && addr + |value| <= |data|
    ensures Written(data, value, addr, i)[addr + i := value[|value| - 1 - i]] == Written(data, value, addr, i + 1)
  {
  }

  lemma WrittenAll(data: seq<byte>, value: seq<byte>, addr: nat)
    requires addr + |value| <= |data|
    ensures Written(data, value, addr, 0) == data
    ensures Written(data, value, addr, |value|) == data[..addr] + Rev(value) + data[addr + |value|..]
  {
    assert Rev(value)[..|value|] == Rev(value);
    assert data[..addr] + [] + data[addr..] == data;
  }

  /** The result of a method agrees with its specification, the new abstract value included. */
  ghost predicate Agrees(r: Outcome<()>, spec: Outcome<Stk>, now: Stk)
  {
    match spec
    case Done(s) => r.Done? && now == s
    case Exited(c) => r == Exited(c)
    case Undefined => r == Undefined
  }

  class Stack {
    const data: array<byte>
    var sp: word
    var bp: word

    ghost predicate Valid() reads this { data.Length < 65536 }

    ghost function Abs(): (s: Stk)
      reads this, data
    {
      Stk(data[..], sp, bp)
    }

    constructor (size: word)
      ensures Valid() && fresh(data)
      ensures Abs() == Fresh(size)
    {
      data := new byte[size](_ => 0);
      sp, bp := 0, 0;
      new;
      assert data[..] == seq(size, _ => 0);
    }

    /** The copying loop of `stack_write_bend_data_at`. */
    method CopyReversed(value: seq<byte>, addr: nat)
      requires addr + |value| <= data.Length
      modifies data
      ensures data[..] == Written(old(data[..]), value, addr, |value|)
    {
      hide Written;
      ghost var before := data[..];
      WrittenAll(before, value, addr);
      for i := 0 to |value|
        invariant data[..] == Written(before, value, addr, i)
      {
        WrittenNext(before, value, addr, i);
        data[addr + i] := value[|value| - 1 - i];
      }
    }

    method WriteDataAt(value: seq<byte>, addr: word) returns (r: Outcome<()>)
      requires Valid()
      modifies this`sp, data
      ensures Agrees(r, WriteAt(old(Abs()), value, addr), Abs())
    {
      var fin: word := (addr + |value|) % 65536;
      if fin > data.Length { return Exited(FAILURE); }
      if addr + |value| > data.Length { return Undefined; }
      CopyReversed(value, addr);
      WrittenAll(old(data[..]), value, addr);
      if fin > sp { sp := fin; }
      return Done(());
    }

    method PushData(value: seq<byte>) returns (r: Outcome<()>)
      requires Valid()
      modifies this`sp, data
      ensures Agrees(r, Push(old(Abs()), value), Abs())
    {
      r := WriteDataAt(value, sp);
    }

    method PopData(n: nat) returns (r: Outcome<seq<byte>>)
      requires Valid()
      modifies this`sp
      ensures match Pop(old(Abs()), n)
              case Done(p) => r == Done(p.0) && Abs() == p.1
              case Exited(c) => r == Exited(c)
              case Undefined => r == Undefined
      ensures r.Done? ==> |r.value| == n
    {
      if n > sp { return Exited(FAILURE); }
      if n > 0 && sp > data.Length { return Undefined; }
      sp := sp - n;
      var value: seq<byte> := [];
      var top := sp + n - 1;
      for i := 0 to n
        invariant top == sp + n - 1 - i
        invariant |value| == i
        invariant forall k :: 0 <= k < i ==> value[k] == data[sp + n - 1 - k]
      {
        value := value + [data[top]];
        top := top - 1;
      }
      assert n > 0 ==> value == Rev(data[..][sp..sp + n]);
      return Done(value);
    }

    method ReadDataAt(n: nat, addr: word) returns (r: Outcome<seq<byte>>)
      requires Valid()
      ensures r == ReadAt(Abs(), n, addr)
    {
      if n > sp { return Exited(FAILURE); }
      if n > 0 && addr + n > data.Length { return Undefined; }
      var value: seq<byte> := [];
      for i := 0 to n
        invariant |value| == i
        invariant forall k :: 0 <= k < i ==> value[k] == data[addr + (n - k - 1)]
      {
        value := value + [data[addr + (n - i - 1)]];
      }
      assert n > 0 ==> value == Rev(data[..][addr..addr + n]);
      return Done(value);
    }

    /** `stack_push`: refused only when `sp` is exactly the size. */
    method PushByte(value: byte) returns (r: Outcome<()>)
      requires Valid() && sp <= data.Length
      modifies this`sp, data
      ensures if old(sp) == data.Length then r == Exited(FAILURE)
              else r.Done? && Abs() == old(Abs()).(data := old(data[..])[old(sp) := value], sp := old(sp) + 1)
    {
      if sp == data.Length { return Exited(FAILURE); }
      data[sp] := value;
      sp := sp + 1;
      return Done(());
    }

    method PopByte() returns (r: Outcome<byte>)
      requires Valid() && sp <= data.Length
      modifies this`sp
      ensures if old(sp) == 0 then r == Exited(FAILURE)
              else r == Done(data[old(sp) - 1]) && Abs() == old(Abs()).(sp := old(sp) - 1)
    {
      if sp == 0 { return Exited(FAILURE); }
      sp := sp - 1;
      return Done(data[sp]);
    }

    /** `stack_push_16b` lays a word out exactly as `stack_push_data` does. */
    method Push16(value: word) returns (r: Outcome<()>)
      requires Valid() && sp <= data.Length
      modifies this`sp, data
      ensures old(sp) + 2 > data.Length ==> r == Exited(FAILURE)
      ensures old(sp) + 2 <= data.Length ==> Agrees(r, PushWord(old(Abs()), value), Abs())
    {
      r := PushByte(value / 256);
      if !r.Done? { return; }
      r := PushByte(value % 256);
      assert Rev(LowHigh(value)) == HighLow(value);
    }

    /** `stack_pop_16b` through `stack_pop_bytes`: the low byte comes off first. */
    method Pop16() returns (r: Outcome<word>)
      requires Valid() && sp <= data.Length
      modifies this`sp
      ensures old(sp) < 2 ==> r == Exited(FAILURE)
      ensures old(sp) >= 2 ==> r.Done? && PopWord(old(Abs())) == Done((r.value, Abs()))
    {
      var low := PopByte();
      if !low.Done? { return low.PropagateFailure(); }
      var high := PopByte();
      if !high.Done? { return high.PropagateFailure(); }
      var h: int, l: int := high.value, low.value;
      var both: word := h * 256 + l;
      return Done(both);
    }
  }
}
