/** The binary operators on constants of the five integer types, as the constant folder computes them. */
module Arithmetic {
  import opened Wrappers

  datatype Ty = I1 | I8 | I16 | I32 | I64

  datatype Oper = Add | Sub | Mul | Div | Le | Eq | Shr | Or | BoundsCheck

  /** The digits of the type without its sign. */
  function Digits(ty: Ty): nat {
    match ty
    case I1 => 1
    case I8 => 7
    case I16 => 15
    case I32 => 31
    case I64 => 63
  }

  function Pow2(n: nat): nat {
    if n == 0 then 1 else 2 * Pow2(n - 1)
  }

  function Limit(ty: Ty): int {
    match ty
    case I1 => 2
    case I8 => 0x80
    case I16 => 0x8000
    case I32 => 0x8000_0000
    case I64 => 0x8000_0000_0000_0000
  }

  predicate InRange(ty: Ty, v: int) {
    if ty.I1? then 0 <= v < 2 else -Limit(ty) <= v < Limit(ty)
  }

  /** The cast to the type: any non-zero number is `true`; the others keep the low bits. */
  function Wrap(ty: Ty, v: int): (r: int)
    ensures InRange(ty, r)
    ensures InRange(ty, v) ==> r == v
  {
    if ty.I1? then (if v == 0 then 0 else 1)
    else (v + Limit(ty)) % (2 * Limit(ty)) - Limit(ty)
  }

  /** The arithmetic shift: bit by bit, towards minus infinity. */
  function ShiftRight(v: int, n: nat): int
    decreases n
  {
    if n == 0 then v else ShiftRight(v / 2, n - 1)
  }

  /** Bitwise or of numbers in two's complement of any width. */
  function OrBits(a: int, b: int): int
    decreases if a < 0 then -a else a, if b < 0 then -b else b
  {
    if a == 0 then b
    else if a == -1 then -1
    else 2 * OrBits(a / 2, b / 2) + (if a % 2 == 1 || b % 2 == 1 then 1 else 0)
  }

  predicate Foldable(oper: Oper) {
    !(oper.Div? || oper.BoundsCheck?)
  }

  /** The result for two operands of type `ty`. None when a shift amount is out of range. */
  function Eval(oper: Oper, ty: Ty, a: int, b: int): (r: Option<int>)
    requires Foldable(oper)
    ensures r.Some? ==> InRange(ty, r.value)
    ensures r.None? <==> oper.Shr? && !(0 <= b < Digits(ty))
  {
    match oper
    case Add => Some(Wrap(ty, a + b))
    case Sub => Some(Wrap(ty, a - b))
    case Mul => Some(Wrap(ty, a * b))
    case Le => Some(if a < b then 1 else 0)
    case Eq => Some(if a == b then 1 else 0)
    case Shr => if 0 <= b < Digits(ty) then Some(Wrap(ty, ShiftRight(a, b))) else None
    case Or => Some(Wrap(ty, OrBits(a, b)))
  }

  // ----- shifts -----

  lemma {:induction false} ShiftIsDivision(v: int, n: nat)
    ensures Pow2(n) > 0 && ShiftRight(v, n) == v / Pow2(n)
    decreases n
  {
    if n > 0 {
      ShiftIsDivision(v / 2, n - 1);
      DivideTwice(v, 2, Pow2(n - 1));
    }
  }

  lemma DivideTwice(v: int, a: nat, b: nat)
    requires a > 0 && b > 0
    ensures a * b > 0 && v / a / b == v / (a * b)
  {
    var q := v / a / b;
    var r1, r2 := v % a, v / a % b;
    assert v == a * (b * q + r2) + r1;
    assert v == (a * b) * q + (a * r2 + r1);
    assert 0 <= a * r2 + r1 < a * b by {
      assert a * r2 <= a * (b - 1);
    }
    Quotient(v, a * b, q, a * r2 + r1);
  }

  lemma Product(d: int, x: int)
    requires d > 0
    ensures x >= 1 ==> d * x >= d
    ensures x <= -1 ==> d * x <= -d
  {
  }

  lemma Quotient(v: int, d: nat, q: int, r: int)
    requires d > 0 && v == d * q + r && 0 <= r < d
    ensures v / d == q
  {
    var q', r' := v / d, v % d;
    assert v == d * q' + r';
    assert d * (q - q') == d * q - d * q';
    Product(d, q - q');
  }

  lemma {:induction false} ShiftTwice(v: int, a: nat, b: nat)
    ensures ShiftRight(ShiftRight(v, a), b) == ShiftRight(v, a + b)
    decreases a
  {
    if a > 0 {
      ShiftTwice(v / 2, a - 1, b);
    }
  }

  lemma {:induction false} ShiftStaysInRange(ty: Ty, v: int, n: nat)
    requires InRange(ty, v)
    ensures InRange(ty, ShiftRight(v, n))
    decreases n
  {
    if n > 0 {
      ShiftStaysInRange(ty, v / 2, n - 1);
    }
  }

  /** Two shifts by amounts in range merge into one by their sum exactly when the sum is in range. */
  lemma ShiftsMergeIff(ty: Ty, v: int, a: int, b: int)
    requires InRange(ty, v) && 0 <= a < Digits(ty) && 0 <= b < Digits(ty)
    ensures Eval(Shr, ty, v, a).Some? && Eval(Add, ty, a, b).Some?
    ensures Eval(Shr, ty, Eval(Shr, ty, v, a).value, b) == Eval(Shr, ty, v, Eval(Add, ty, a, b).value)
            <==> a + b < Digits(ty)
  {
    ShiftStaysInRange(ty, v, a);
    ShiftTwice(v, a, b);
  }

  // ----- or -----

  lemma {:induction false} OrZero(a: int)
    ensures OrBits(a, 0) == a
    decreases if a < 0 then -a else a
  {
    if a != 0 && a != -1 {
      OrZero(a / 2);
    }
  }

  lemma {:induction false} OrOnes(a: int)
    ensures OrBits(a, -1) == -1
    decreases if a < 0 then -a else a
  {
    if a != 0 && a != -1 {
      OrOnes(a / 2);
    }
  }

  lemma {:induction false} OrCommutes(a: int, b: int)
    ensures OrBits(a, b) == OrBits(b, a)
    decreases if a < 0 then -a else a, if b < 0 then -b else b
  {
    if a == 0 {
      OrZero(b);
    } else if a == -1 {
      OrOnes(b);
    } else if b == 0 {
      OrZero(a);
    } else if b == -1 {
      OrOnes(a);
    } else {
      OrCommutes(a / 2, b / 2);
    }
  }

  /** The rules of the peephole pass. */
  lemma AddZero(ty: Ty, a: int)
    requires InRange(ty, a)
    ensures Eval(Add, ty, a, 0) == Some(a)
  {
  }

  lemma ShiftByZero(ty: Ty, a: int)
    requires InRange(ty, a)
    ensures Eval(Shr, ty, a, 0) == Some(a)
  {
  }

  lemma OrWithZero(ty: Ty, a: int)
    requires InRange(ty, a)
    ensures Eval(Or, ty, a, 0) == Some(a)
  {
    OrZero(a);
  }

  /** The number with all bits set. */
  function Ones(ty: Ty): int {
    if ty.I1? then 1 else -1
  }

  lemma OrWithOnes(ty: Ty, a: int)
    requires InRange(ty, a)
    ensures Eval(Or, ty, a, Ones(ty)) == Some(Ones(ty))
  {
    if ty.I1? {
      OrZero(1);
    } else {
      OrOnes(a);
    }
  }

  lemma Commutes(oper: Oper, ty: Ty, a: int, b: int)
    requires oper.Add? || oper.Or?
    ensures Eval(oper, ty, a, b) == Eval(oper, ty, b, a)
  {
    OrCommutes(a, b);
  }
}
