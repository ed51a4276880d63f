/** The laws that the operators on constants keep. */
module ArithmeticLaws {
  import opened Wrappers
  import opened Arithmetic

  // ----- the types -----

  /** A type with `Digits` digits holds this many numbers on each side of zero. */
  lemma LimitIsPower(ty: Ty)
    ensures Limit(ty) == Pow2(Digits(ty))
  {
    PowerSum(7, 8);
    PowerSum(15, 16);
    PowerSum(31, 32);
  }

  lemma {:induction false} PowerSum(m: nat, n: nat)
    ensures Pow2(m + n) == Pow2(m) * Pow2(n)
  {
    if m > 0 {
      PowerSum(m - 1, n);
    }
  }

  /** The cast keeps the number up to whole turns of the type; to a boolean it keeps whether it is zero. */
  lemma WrapIsCongruent(ty: Ty, v: int)
    ensures !ty.I1? ==> (Wrap(ty, v) - v) % (2 * Limit(ty)) == 0
    ensures ty.I1? ==> (Wrap(ty, v) == 0 <==> v == 0)
  {
    if !ty.I1? {
      var d := 2 * Limit(ty);
      var turns := (v + Limit(ty)) / d;
      WrapTurns(ty, v);
      assert Wrap(ty, v) - v == 0 + d * -turns;
      ModTurns(0, d, -turns);
    }
  }

  /** Of the numbers of the type only one is congruent to a given one. */
  lemma OneInRange(ty: Ty, a: int, b: int)
    requires !ty.I1? && InRange(ty, a) && InRange(ty, b) && (a - b) % (2 * Limit(ty)) == 0
    ensures a == b
  {
    match ty
    case I8 =>
    case I16 =>
    case I32 =>
    case I64 =>
  }

  lemma WholeTurns(ty: Ty, a: int, b: int, turns: int)
    requires !ty.I1? && InRange(ty, a) && InRange(ty, b) && a - b == 2 * Limit(ty) * turns
    ensures a == b
  {
    Product(2 * Limit(ty), turns);
  }

  /** Whole turns change no remainder. */
  lemma ModTurns(z: int, d: int, turns: int)
    requires d > 0
    ensures (z + d * turns) % d == z % d
  {
    var q, r := z / d, z % d;
    assert z + d * turns == d * (q + turns) + r;
    Quotient(z + d * turns, d, q + turns, r);
  }

  lemma WrapTurns(ty: Ty, v: int)
    requires !ty.I1?
    ensures Wrap(ty, v) == v - 2 * Limit(ty) * ((v + Limit(ty)) / (2 * Limit(ty)))
  {
    var d := 2 * Limit(ty);
    assert v + Limit(ty) == d * ((v + Limit(ty)) / d) + (v + Limit(ty)) % d;
  }

  lemma WrapSame(ty: Ty, v: int, turns: int)
    requires !ty.I1?
    ensures Wrap(ty, v + 2 * Limit(ty) * turns) == Wrap(ty, v)
  {
    ModTurns(v + Limit(ty), 2 * Limit(ty), turns);
  }

  lemma WrapInside(ty: Ty, v: int, a: int)
    requires !ty.I1?
    ensures Wrap(ty, Wrap(ty, v) + a) == Wrap(ty, v + a)
  {
    var turns := (v + Limit(ty)) / (2 * Limit(ty));
    WrapTurns(ty, v);
    assert v + a == Wrap(ty, v) + a + 2 * Limit(ty) * turns;
    WrapSame(ty, Wrap(ty, v) + a, turns);
  }

  // ----- addition, subtraction, multiplication -----

  /** Adding one on the right adds one to the result, up to the turn. */
  lemma AddNext(ty: Ty, a: int, b: int)
    requires !ty.I1? && InRange(ty, a)
    ensures Eval(Add, ty, a, 0) == Some(a) && (InRange(ty, a + 1) ==> Eval(Add, ty, a, 1) == Some(a + 1))
    ensures Eval(Add, ty, a, b + 1) == Eval(Add, ty, Eval(Add, ty, a, b).value, 1)
  {
    WrapInside(ty, a + b, 1);
  }

  lemma SubUndoesAdd(ty: Ty, a: int, b: int)
    requires !ty.I1? && InRange(ty, a) && InRange(ty, b)
    ensures Eval(Add, ty, Eval(Sub, ty, a, b).value, b) == Some(a)
    ensures Eval(Sub, ty, Eval(Add, ty, a, b).value, b) == Some(a)
  {
    WrapInside(ty, a - b, b);
    WrapInside(ty, a + b, -b);
  }

  lemma MulNext(ty: Ty, a: int, b: int)
    requires !ty.I1? && InRange(ty, a)
    ensures Eval(Mul, ty, a, 0) == Some(0)
    ensures Eval(Mul, ty, a, b + 1) == Eval(Add, ty, Eval(Mul, ty, a, b).value, a)
  {
    assert a * (b + 1) == a * b + a;
    assert a * 0 == 0;
    WrapInside(ty, a * b, a);
  }

  /** On booleans addition is disjunction, multiplication conjunction, and subtraction tells whether they differ. */
  lemma Booleans(a: int, b: int)
    requires InRange(I1, a) && InRange(I1, b)
    ensures Eval(Add, I1, a, b) == Some(1) <==> a == 1 || b == 1
    ensures Eval(Mul, I1, a, b) == Some(1) <==> a == 1 && b == 1
    ensures Eval(Sub, I1, a, b) == Some(1) <==> a != b
  {
  }

  // ----- comparison -----

  lemma EqIsZeroDifference(ty: Ty, a: int, b: int)
    requires InRange(ty, a) && InRange(ty, b)
    ensures Eval(Eq, ty, a, b) == Some(1) <==> Eval(Sub, ty, a, b) == Some(0)
    ensures Eval(Eq, ty, a, b) == Some(1) || Eval(Eq, ty, a, b) == Some(0)
  {
    if !ty.I1? && Wrap(ty, a - b) == 0 {
      WrapTurns(ty, a - b);
      WholeTurns(ty, a, b, (a - b + Limit(ty)) / (2 * Limit(ty)));
    }
  }

  ghost predicate Smaller(ty: Ty, a: int, b: int) {
    Eval(Le, ty, a, b) == Some(1)
  }

  /** The comparison is a strict order of the numbers of the type, and each is smaller than the next. */
  lemma LeIsOrder(ty: Ty, a: int, b: int, c: int)
    requires InRange(ty, a) && InRange(ty, b) && InRange(ty, c)
    ensures !Smaller(ty, a, a) && (Smaller(ty, a, b) && Smaller(ty, b, c) ==> Smaller(ty, a, c))
    ensures Smaller(ty, a, b) || Smaller(ty, b, a) || Eval(Eq, ty, a, b) == Some(1)
    ensures Smaller(ty, a, a + 1)
    ensures Eval(Le, ty, a, b) == Some(1) || Eval(Le, ty, a, b) == Some(0)
  {
  }

  // ----- shift and or -----

  lemma ShrIsDivision(ty: Ty, v: int, n: nat)
    requires InRange(ty, v) && n < Digits(ty)
    ensures Pow2(n) > 0 && Eval(Shr, ty, v, n) == Some(v / Pow2(n))
  {
    ShiftIsDivision(v, n);
    ShiftStaysInRange(ty, v, n);
  }

  /** Bit `n` of the two's complement. */
  predicate Bit(v: int, n: nat)
    decreases n
  {
    if n == 0 then v % 2 == 1 else Bit(v / 2, n - 1)
  }

  lemma {:induction false} ZeroBits(n: nat)
    ensures !Bit(0, n) && Bit(-1, n)
  {
    if n > 0 {
      ZeroBits(n - 1);
    }
  }

  lemma {:induction false} OrOfBits(a: int, b: int, n: nat)
    ensures Bit(OrBits(a, b), n) <==> Bit(a, n) || Bit(b, n)
    decreases n
  {
    ZeroBits(n);
    if a != 0 && a != -1 && n > 0 {
      OrOfBits(a / 2, b / 2, n - 1);
      assert OrBits(a, b) / 2 == OrBits(a / 2, b / 2);
    }
  }

  lemma {:induction false} OrStaysIn(a: int, b: int, n: nat)
    requires 0 - Pow2(n) <= a < Pow2(n) && 0 - Pow2(n) <= b < Pow2(n)
    ensures 0 - Pow2(n) <= OrBits(a, b) < Pow2(n)
    ensures a >= 0 && b >= 0 ==> OrBits(a, b) >= 0
    decreases n
  {
    if a != 0 && a != -1 && n > 0 {
      OrStaysIn(a / 2, b / 2, n - 1);
    }
  }

  /** Every bit of the result is set exactly if it is set in one of the operands. */
  lemma OrIsBitwise(ty: Ty, a: int, b: int, n: nat)
    requires InRange(ty, a) && InRange(ty, b)
    ensures Bit(Eval(Or, ty, a, b).value, n) <==> Bit(a, n) || Bit(b, n)
  {
    LimitIsPower(ty);
    OrOfBits(a, b, n);
    if ty.I1? {
      OrStaysIn(a, b, 1);
    } else {
      OrStaysIn(a, b, Digits(ty));
    }
  }
}
