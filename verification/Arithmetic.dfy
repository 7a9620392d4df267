/** What the arithmetic and shift instructions compute, said without the operators they are computed with. */
module Arithmetic {
  import opened Bytes
  import opened Isa
  import opened Machine

  predicate InRange(x: int) { -32768 <= x < 32768 }

  /** U16 arithmetic: sums and differences wrap once, products agree modulo 2^16, quotients are exact; the result
      is undefined exactly for a product beyond 32-bit `int` and for division by zero. */
  lemma U16Meaning(a: word, b: word)
    ensures U16Result(Add, a, b) == Done(if a + b < 65536 then a + b else a + b - 65536)
    ensures U16Result(Sub, a, b) == Done(if a >= b then a - b else a - b + 65536)
    ensures U16Result(Mul, a, b).Done? <==> a * b < 0x8000_0000
    ensures U16Result(Mul, a, b).Done? ==> Congruent(U16Result(Mul, a, b).value, a * b)
    ensures U16Result(Div, a, b).Done? <==> b != 0
    ensures U16Result(Div, a, b).Done? ==> IsQuotient(a, b, U16Result(Div, a, b).value)
  {
    hide IsQuotient, Congruent;
    ProductMeaning(a, b);
    if b != 0 { QuotientMeaning(a, b); }
  }

  lemma ProductMeaning(a: word, b: word)
    ensures a * b < 0x8000_0000 ==> U16Result(Mul, a, b) == Done(Wrap(a * b)) && Congruent(Wrap(a * b), a * b)
    ensures a * b >= 0x8000_0000 ==> U16Result(Mul, a, b) == Undefined
  {
    WrapCongruent(a * b);
  }

  lemma QuotientMeaning(a: word, b: word)
    requires b != 0
    ensures 0 <= a / b < 65536 && U16Result(Div, a, b) == Done(a / b) && IsQuotient(a, b, a / b)
  {
    Euclid(a, b);
    IsTruncated(a, b, a / b, a % b);
    hide IsQuotient;
    assert Wrap(a / b) == a / b;
  }

  predicate Congruent(x: int, y: int) {
    (x - y) % 65536 == 0
  }

  lemma WrapCongruent(x: int)
    ensures Congruent(Wrap(x), x)
  {
    assert x == 65536 * (x / 65536) + x % 65536;
    assert Wrap(x) - x == 65536 * -(x / 65536);
  }

  /** `q` is `a / b` rounded toward zero. */
  ghost predicate IsQuotient(a: int, b: int, q: int) {
    exists r: int :: a == q * b + r && AbsInt(r) < AbsInt(b) && (r == 0 || (r > 0) == (a > 0))
  }

  lemma IsTruncated(a: int, b: int, q: int, r: int)
    requires a == q * b + r && AbsInt(r) < AbsInt(b) && (r == 0 || (r > 0) == (a > 0))
    ensures IsQuotient(a, b, q)
  {
  }

  lemma Euclid(x: nat, y: nat)
    requires y >= 1
    ensures x == (x / y) * y + x % y && 0 <= x % y < y && 0 <= x / y <= x
    ensures y >= 2 ==> 2 * (x / y) <= x
  {
    DivBound(x, y);
    if y >= 2 { MulAtLeast(x / y, y, 2); }
  }

  lemma MulAtLeast(k: nat, d: nat, e: nat)
    requires d >= e
    ensures k * d >= k * e
  {
  }

  lemma Signs(n: int, y: int)
    ensures (-n) * (-y) == n * y && (-n) * y == -(n * y) && n * (-y) == -(n * y)
  {
  }

  lemma Truncated(a: int, b: int)
    requires b != 0
    ensures IsQuotient(a, b, TruncDiv(a, b)) && AbsInt(TruncDiv(a, b)) == AbsInt(a) / AbsInt(b)
    ensures AbsInt(TruncDiv(a, b)) <= AbsInt(a)
    ensures AbsInt(b) >= 2 ==> 2 * AbsInt(TruncDiv(a, b)) <= AbsInt(a)
  {
    var x: nat, y: nat := AbsInt(a), AbsInt(b);
    Euclid(x, y);
    Signs(x / y, y);
    IsTruncated(a, b, TruncDiv(a, b), if a < 0 then -(x % y) else x % y);
  }

  /** I16 arithmetic: the exact result whenever it is an `int16_t`, else one that agrees with it modulo 2^16; quotients
      are rounded toward zero, and only -32768 / -1 leaves the range. */
  lemma I16Meaning(alu: Alu, a: word, b: word)
    ensures I16Result(alu, a, b).Done? <==> !(alu.Div? && b == 0)
    ensures var x, y := Signed(a), Signed(b);
            I16Result(alu, a, b).Done? ==>
              var r := Signed(I16Result(alu, a, b).value);
              match alu
              case Add => Congruent(r, x + y) && (InRange(x + y) ==> r == x + y)
              case Sub => Congruent(r, x - y) && (InRange(x - y) ==> r == x - y)
              case Mul => Congruent(r, x * y) && (InRange(x * y) ==> r == x * y)
              case Div => if x == -32768 && y == -1 then r == -32768 else IsQuotient(x, y, r)
  {
    var x, y := Signed(a), Signed(b);
    match alu
    case Add => SignedWrap(x + y);
    case Sub => SignedWrap(x - y);
    case Mul => SignedWrap(x * y);
    case Div =>
      if y != 0 {
        Truncated(x, y);
        SignedWrap(TruncDiv(x, y));
        if !(x == -32768 && y == -1) { QuotientInRange(x, y); }
      }
  }

  lemma SignedWrap(x: int)
    ensures Congruent(Signed(Wrap(x)), x)
    ensures InRange(x) ==> Signed(Wrap(x)) == x
  {
    WrapCongruent(x);
  }

  lemma QuotientInRange(x: int, y: int)
    requires InRange(x) && InRange(y) && y != 0 && !(x == -32768 && y == -1)
    ensures InRange(TruncDiv(x, y))
  {
    Truncated(x, y);
    if y == 1 { assert TruncDiv(x, y) == x; }
  }

  // ----- bits -----

  /** NOT complements every bit. */
  lemma {:induction false} NotBits(a: nat, n: nat, j: nat)
    requires a < Pow2(n) && j < n
    ensures Bit(Pow2(n) - 1 - a, j) == 1 - Bit(a, j)
  {
    var c: nat := Pow2(n) - 1 - a;
    assert c % 2 == 1 - a % 2 && c / 2 == Pow2(n - 1) - 1 - a / 2;
    if j > 0 {
      NotBits(a / 2, n - 1, j - 1);
    }
  }

  function Halved(a: nat, b: nat): nat {
    DivBound(a, Pow2(b));
    a / Pow2(b)
  }

  /** A right shift moves bit `j + b` to `j`. */
  lemma {:induction false} ShiftedRight(a: nat, b: nat, j: nat)
    ensures Bit(Halved(a, b), j) == Bit(a, j + b)
    decreases b
  {
    if b > 0 {
      ShiftedRight(a / 2, b - 1, j);
      HalfThenRest(a, Pow2(b - 1));
    }
  }

  lemma HalfThenRest(a: nat, p: nat)
    requires p >= 1
    ensures a / 2 / p == a / (2 * p)
  {
    var h: nat := a / 2;
    Euclid(h, p);
    var q, r := h / p, 2 * (h % p) + a % 2;
    assert a == q * (2 * p) + r;
    QuotientUnique(a, 2 * p, q, r);
  }

  lemma QuotientUnique(a: nat, d: nat, q: nat, r: nat)
    requires d >= 1 && a == q * d + r && r < d
    ensures a / d == q && a % d == r
  {
    Euclid(a, d);
    var k := a / d - q;
    assert k * d == r - a % d;
    if k >= 1 { Least(k, d); } else if k <= -1 { Signs(k, d); Least(-k, d); }
  }

  lemma Least(k: nat, d: nat)
    requires k >= 1
    ensures k * d >= d
  {
  }

  /** A left shift moves bit `j` to `j + b`, fills with zeros, and drops what leaves the word. */
  lemma {:induction false} ShiftedLeft(a: nat, b: nat, n: nat, j: nat)
    requires j < n
    ensures Bit((a * Pow2(b)) % Pow2(n), j) == if j < b then 0 else Bit(a, j - b)
    decreases n
  {
    hide *;
    var x := a * Pow2(b);
    Pow2Double(n);
    BitUnfold(x % Pow2(n), j);
    ModHalf(x, Pow2(n - 1));
    if b > 0 {
      ShiftMore(a, b);
      if j > 0 { ShiftedLeft(a, b - 1, n - 1, j - 1); }
    } else {
      Pow2Zero();
      BitUnfold(a, j);
      if j > 0 { ShiftedLeft(a / 2, 0, n - 1, j - 1); }
    }
  }

  lemma Pow2Double(n: nat)
    requires n > 0
    ensures Pow2(n) == 2 * Pow2(n - 1)
  {
  }

  lemma Pow2Zero()
    ensures Pow2(0) == 1
  {
  }

  lemma ShiftMore(a: nat, b: nat)
    requires b > 0
    ensures a * Pow2(b) == 2 * (a * Pow2(b - 1))
  {
    Pow2Double(b);
  }

  lemma BitUnfold(x: nat, j: nat)
    ensures Bit(x, j) == if j == 0 then x % 2 else Bit(x / 2, j - 1)
  {
  }

  lemma ModHalf(x: nat, p: nat)
    requires p >= 1
    ensures (x % (2 * p)) % 2 == x % 2 && (x % (2 * p)) / 2 == (x / 2) % p
  {
    var h: nat := x / 2;
    Euclid(h, p);
    var q, s := h / p, 2 * (h % p) + x % 2;
    assert x == q * (2 * p) + s;
    QuotientUnique(x, 2 * p, q, s);
  }

  /** AND, OR, XOR and NOT act bit by bit and are never undefined. */
  lemma LogicMeaning(a: word, b: word, j: nat)
    requires j < 16
    ensures BitResult(And, a, b).Done? && BitResult(Or, a, b).Done? && BitResult(Xor, a, b).Done?
    ensures Bit(BitResult(And, a, b).value, j) == 1 <==> Bit(a, j) == 1 && Bit(b, j) == 1
    ensures Bit(BitResult(Or, a, b).value, j) == 1 <==> Bit(a, j) == 1 || Bit(b, j) == 1
    ensures Bit(BitResult(Xor, a, b).value, j) == 1 <==> Bit(a, j) != Bit(b, j)
    ensures Bit(65535 - a, j) == 1 - Bit(a, j)
  {
    hide Bit, Bitwise, Pow2;
    Pow2Sixteen();
    BitwiseBits(AndBit, a, b, 16, j);
    BitwiseBits(OrBit, a, b, 16, j);
    BitwiseBits(XorBit, a, b, 16, j);
    NotBits(a, 16, j);
    BitIsBit(a, j);
    BitIsBit(b, j);
  }

  /** A shift moves the bits and fills with zeros. On the 32-bit `int` to which the operand is promoted it is
      undefined from 32 on, and to the left also when the result leaves the `int`, which needs a shift of at least 16. */
  lemma BitMeaning(a: word, b: word, j: nat)
    requires j < 16
    ensures BitResult(Shl, a, b).Done? <==> b < 32 && a * Pow2(b) < 0x8000_0000
    ensures b < 16 ==> BitResult(Shl, a, b).Done?
    ensures BitResult(Shl, a, b).Done? ==> Bit(BitResult(Shl, a, b).value, j) == if j < b then 0 else Bit(a, j - b)
    ensures BitResult(Shr, a, b).Done? <==> b < 32
    ensures b < 32 ==> Bit(BitResult(Shr, a, b).value, j) == if j + b < 16 then Bit(a, j + b) else 0
  {
    hide Bit, Bitwise;
    if b < 16 { SmallShift(a, b); }
    hide Pow2;
    Pow2Sixteen();
    ShiftedLeft(a, b, 16, j);
    ShiftedRight(a, b, j);
    if j + b >= 16 { HighBits(a, 16, j + b); }
  }

  lemma SmallShift(a: word, b: nat)
    requires b < 16
    ensures a * Pow2(b) < 0x8000_0000
  {
    Pow2Sixteen();
    Pow2Grows(b, 15);
    MulAtLeast(a, 32768, Pow2(b));
  }

  lemma {:induction false} Pow2Grows(i: nat, j: nat)
    requires i <= j
    ensures Pow2(i) <= Pow2(j)
    decreases j
  {
    if i < j {
      Pow2Grows(i, j - 1);
    }
  }

  lemma {:induction false} HighBits(a: nat, n: nat, j: nat)
    requires a < Pow2(n) && n <= j
    ensures Bit(a, j) == 0
    decreases j
  {
    if j > 0 {
      if n > 0 { HighBits(a / 2, n - 1, j - 1); } else { HighBits(a / 2, 0, j - 1); }
    }
  }
}
