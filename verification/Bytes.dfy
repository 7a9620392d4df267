/** Machine words, bytes and the way a run of the program can end. */
module Bytes {

  type byte = x: int | 0 <= x < 256
  type word = x: int | 0 <= x < 65536

  /** How one operation ends: normally, through `exit(code)`, or in behaviour that C leaves
      undefined (an access outside an object, an uninitialised read, a division by zero). */
  datatype Outcome<+T> = Done(value: T) | Exited(code: int) | Undefined {
    predicate IsFailure() { !Done? }

    function PropagateFailure<U>(): (r: Outcome<U>)
      requires !Done?
    {
      if Exited? then Exited(code) else Undefined
    }

    function Extract(): T
      requires Done?
    {
      value
    }
  }

  const FAILURE: int := 1

  /** Conversion of an `int` result to `uint16_t`. */
  function Wrap(x: int): word { x % 65536 }

  /** The `int16_t` whose bit pattern is `w`. */
  function Signed(w: word): int { if w < 32768 then w else w - 65536 }

  /** C's `/` on `int`: truncation toward zero. */
  function TruncDiv(a: int, b: int): int
    requires b != 0
  {
    if (a >= 0) == (b > 0) then AbsInt(a) / AbsInt(b) else -(AbsInt(a) / AbsInt(b))
  }

  function AbsInt(a: int): nat { if a < 0 then -a else a }

  function Last<T>(s: seq<T>): T
    requires s != []
  {
    s[|s| - 1]
  }

  function Init<T>(s: seq<T>): seq<T>
    requires s != []
  {
    s[..|s| - 1]
  }

  /** Host memory holds a `uint16_t` low byte first. */
  function LowHigh(w: word): (r: seq<byte>)
    ensures |r| == 2
  {
    [w % 256, w / 256]
  }

  /** The stacks hold it high byte first. */
  function HighLow(w: word): (r: seq<byte>)
    ensures |r| == 2
  {
    [w / 256, w % 256]
  }

  function ToWord(low: byte, high: byte): (w: word)
    ensures LowHigh(w) == [low, high]
  {
    low + 256 * high
  }

  lemma LowHighInjective(v: word, w: word)
    requires LowHigh(v) == LowHigh(w)
    ensures v == w
  {
    assert v % 256 == LowHigh(v)[0] == LowHigh(w)[0];
    assert v / 256 == LowHigh(v)[1] == LowHigh(w)[1];
  }

  function Rev(s: seq<byte>): (r: seq<byte>)
    ensures |r| == |s|
    ensures forall i :: 0 <= i < |s| ==> r[i] == s[|s| - 1 - i]
  {
    seq(|s|, i requires 0 <= i < |s| => s[|s| - 1 - i])
  }

  lemma SliceOfSlice(s: seq<byte>, lo: nat, hi: nat, i: nat, j: nat)
    requires lo <= hi <= |s| && i <= j <= hi - lo
    ensures s[lo..hi][i..j] == s[lo + i..lo + j]
  {
    var a, b := s[lo..hi][i..j], s[lo + i..lo + j];
    forall k | 0 <= k < j - i ensures a[k] == b[k] { }
  }

  /** `a` and `b` agree on the first `n` bytes. */
  predicate AgreeBelow(a: seq<byte>, b: seq<byte>, n: nat) {
    n <= |a| && n <= |b| && a[..n] == b[..n]
  }

  lemma AgreeShorter(a: seq<byte>, b: seq<byte>, n: nat, m: nat)
    requires AgreeBelow(a, b, n) && m <= n
    ensures AgreeBelow(a, b, m)
  {
    assert a[..m] == a[..n][..m] == b[..n][..m] == b[..m];
  }

  /** Replacing the bytes `[at, at + |m|)` leaves every other slice as it was. */
  lemma SpliceKeeps(d: seq<byte>, at: nat, m: seq<byte>, lo: nat, hi: nat)
    requires at + |m| <= |d| && lo <= hi <= |d| && (hi <= at || at + |m| <= lo)
    ensures (d[..at] + m + d[at + |m|..])[lo..hi] == d[lo..hi]
  {
    var e := d[..at] + m + d[at + |m|..];
    forall k | 0 <= k < hi - lo ensures e[lo..hi][k] == d[lo..hi][k] { }
  }

  lemma RevRev(s: seq<byte>)
    ensures Rev(Rev(s)) == s
  {
  }

  lemma HighLowReversed(w: word)
    ensures Rev(HighLow(w)) == LowHigh(w) && Rev(LowHigh(w)) == HighLow(w)
  {
  }

  // ----- bitwise operators, bit by bit -----

  datatype BitFn = AndBit | OrBit | XorBit

  function OneBit(f: BitFn, x: int, y: int): (r: int)
    ensures 0 <= r <= 1
  {
    match f
    case AndBit => if x == 1 && y == 1 then 1 else 0
    case OrBit => if x == 1 || y == 1 then 1 else 0
    case XorBit => if x != y then 1 else 0
  }

  function Pow2(n: nat): (p: nat)
    ensures p >= 1
  {
    if n == 0 then 1 else 2 * Pow2(n - 1)
  }

  function Bitwise(f: BitFn, a: nat, b: nat, n: nat): (r: nat)
    ensures r < Pow2(n)
  {
    if n == 0 then 0 else OneBit(f, a % 2, b % 2) + 2 * Bitwise(f, a / 2, b / 2, n - 1)
  }

  function Bit(x: nat, j: nat): int
  {
    if j == 0 then x % 2 else Bit(x / 2, j - 1)
  }

  lemma {:induction false} BitIsBit(x: nat, j: nat)
    ensures 0 <= Bit(x, j) <= 1
  {
    if j > 0 { BitIsBit(x / 2, j - 1); }
  }

  /** Bit `j` of the result is the operator applied to bit `j` of the operands. */
  lemma {:induction false} BitwiseBits(f: BitFn, a: nat, b: nat, n: nat, j: nat)
    requires j < n
    ensures Bit(Bitwise(f, a, b, n), j) == OneBit(f, Bit(a, j), Bit(b, j))
  {
    var rest := Bitwise(f, a / 2, b / 2, n - 1);
    assert Bitwise(f, a, b, n) / 2 == rest;
    if j > 0 {
      BitwiseBits(f, a / 2, b / 2, n - 1, j - 1);
    }
  }

  lemma Pow2Sixteen()
    ensures Pow2(16) == 65536
  {
    assert Pow2(8) == 256;
    assert Pow2(12) == 4096;
  }

  function WordBits(f: BitFn, a: word, b: word): (r: word)
  {
    Pow2Sixteen();
    Bitwise(f, a, b, 16)
  }

  function ShiftLeft(a: word, b: word): word
  {
    (a * Pow2(b)) % 65536
  }

  function ShiftRight(a: word, b: word): word
  {
    DivBound(a, Pow2(b));
    a / Pow2(b)
  }

  lemma DivBound(a: nat, p: nat)
    requires p >= 1
    ensures 0 <= a / p <= a
  {
    var q := a / p;
    assert a == p * q + a % p;
    assert q >= 0;
    assert p * q >= q;
  }
}
