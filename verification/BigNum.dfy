/** The VM's number type: an int64 fast path that widens to arbitrary
    precision. Every operation is proved to be the operation on integers. */
module BigNums {
  import opened Common
  import opened Int64
  import opened Numbers
  import opened ScriptErrors

  const MAX_BIGNUM_LEN: nat := 520
  const INT64_BYTE_CAP: nat := 8

  datatype BigNum = Small(small: int64) | Big(big: int) {

    function Value(): int {
      match this
      case Small(v) => v
      case Big(v) => v
    }

    predicate IsZero() {
      if Small? then small == 0 else big == 0
    }

    function Sign(): (r: int)
      ensures -1 <= r <= 1 && (r < 0 <==> Value() < 0) && (r > 0 <==> Value() > 0)
    {
      var v := if Big? then big else small;
      if v < 0 then -1 else if v > 0 then 1 else 0
    }

    function Cmp(m: BigNum): (r: int)
      ensures r < 0 <==> Value() < m.Value()
      ensures r > 0 <==> Value() > m.Value()
    {
      if Small? && m.Small? && small == m.small then 0
      else if Value() < m.Value() then -1
      else if Value() > m.Value() then 1
      else 0
    }

    /** Addition wraps in int64 first; both xors are negative exactly on overflow. */
    function Add(m: BigNum): (r: BigNum)
      ensures r.Value() == Value() + m.Value()
      ensures r.Small? <==> Small? && m.Small? && MIN <= Value() + m.Value() <= MAX
    {
      if Small? && m.Small? then
        var r := Wrap(small + m.small);
        AddOverflow(small, m.small);
        if And64(Xor64(r, small), Xor64(r, m.small)) >= 0 then Small(r) else Big(small + m.small)
      else
        Big(Value() + m.Value())
    }

    function Sub(m: BigNum): (r: BigNum)
      ensures r.Value() == Value() - m.Value()
      ensures r.Small? <==> Small? && m.Small? && MIN <= Value() - m.Value() <= MAX
    {
      if Small? && m.Small? then
        var r := Wrap(small - m.small);
        SubOverflow(small, m.small);
        if And64(Xor64(small, m.small), Xor64(small, r)) >= 0 then Small(r) else Big(small - m.small)
      else
        Big(Value() - m.Value())
    }

    /** Multiplication checks the wrapped product by dividing it back. Go's own
        division wraps for MIN / -1, hence the exception in the guard. */
    function Mul(m: BigNum): (r: BigNum)
      ensures r.Value() == Value() * m.Value()
      ensures r.Small? <==> Small? && m.Small? && MIN <= Value() * m.Value() <= MAX
    {
      if Small? && m.Small? then
        if small == 0 || m.small == 0 then Small(0)
        else
          var r := Wrap(small * m.small);
          MulGuard(small, m.small);
          if (small != -1 || m.small != MIN) && Wrap(TruncDiv(r, small)) == m.small then Small(r)
          else Big(small * m.small)
      else
        Big(Value() * m.Value())
    }

    function Div(m: BigNum): (r: Result<BigNum, ErrorCode>)
      ensures r.Ok? <==> m.Value() != 0
      ensures r.Ok? ==> r.value.Value() == TruncDiv(Value(), m.Value())
    {
      if m.IsZero() then Err(DivisionByZero)
      else if Small? && m.Small? && (small != MIN || m.small != -1) then
        TruncDivFits(small, m.small);
        Ok(Small(TruncDiv(small, m.small)))
      else
        Ok(Big(TruncDiv(Value(), m.Value())))
    }

    function Mod(m: BigNum): (r: Result<BigNum, ErrorCode>)
      ensures r.Ok? <==> m.Value() != 0
      ensures r.Ok? ==> r.value.Value() == TruncMod(Value(), m.Value())
    {
      if m.IsZero() then Err(ModuloByZero)
      else if Small? && m.Small? && (small != MIN || m.small != -1) then
        TruncDivMod(small, m.small);
        Ok(Small(TruncMod(small, m.small)))
      else
        Ok(Big(TruncMod(Value(), m.Value())))
    }

    function Negate(): (r: BigNum)
      ensures r.Value() == -Value()
    {
      if Small? && small != MIN then Small(0 - small) else Big(0 - Value())
    }

    function AbsoluteValue(): (r: BigNum)
      ensures r.Value() == Abs(Value())
    {
      if Small? && small >= 0 then this
      else if Small? && small != MIN then Small(0 - small)
      else Big(Abs(Value()))
    }

    /** A left shift fails exactly when the result needs more than 520 bytes;
        the early exit on the shift count rejects nothing that would fit. */
    function Lshift(shift: nat): (r: Result<BigNum, ErrorCode>)
      ensures r.Ok? <==> |Encode(Value() * Pow2(shift))| <= MAX_BIGNUM_LEN
      ensures r.Ok? ==> r.value.Value() == Value() * Pow2(shift)
    {
      ScaleIsProduct(Value(), shift);
      if IsZero() then
        DecodeEncode(0);
        Ok(this)
      else if shift > MAX_BIGNUM_LEN * 8 then
        ShiftTooLong(Value(), shift, MAX_BIGNUM_LEN);
        Err(NumberTooBig)
      else
        var res := Scale(Value(), shift);
        if |Encode(res)| > MAX_BIGNUM_LEN then Err(NumberTooBig) else Ok(Big(res))
    }

    /** A right shift rounds towards negative infinity. */
    function Rshift(shift: nat): (r: BigNum)
      ensures r.Value() * Pow2(shift) <= Value() < (r.Value() + 1) * Pow2(shift)
    {
      ShiftRightFloors(Value(), shift);
      if IsZero() then this else Big(ShiftRight(Value(), shift))
    }
  }

  /** big.Int.Rsh: the shift of a negative number is the complement of the
      shift of its complement. */
  function ShiftRight(x: int, shift: nat): int {
    ScaleGrows(1, shift, shift);
    if x < 0 then -((-x - 1) / Pow2(shift)) - 1 else x / Pow2(shift)
  }

  lemma ShiftRightFloors(x: int, shift: nat)
    ensures ShiftRight(x, shift) * Pow2(shift) <= x < (ShiftRight(x, shift) + 1) * Pow2(shift)
  {
    var p := Pow2(shift);
    ScaleGrows(1, shift, shift);
    if x < 0 {
      var c := -x - 1;
      var q := c / p;
      assert c == q * p + c % p;
      assert (-q - 1) * p == -(q * p) - p;
      assert (-q) * p == -(q * p);
    } else {
      var q := x / p;
      assert x == q * p + x % p;
      assert (q + 1) * p == q * p + p;
    }
  }

  lemma ShiftTooLong(n: int, shift: nat, k: nat)
    requires n != 0 && k > 0 && shift > 8 * k
    ensures |Encode(Scale(n, shift))| > k
  {
    EncodeLength(Scale(n, shift), k);
    ScaleSign(n, shift);
    ScaleOrder(1, Abs(n), shift);
    ScaleTwice(1, 7, 8 * (k - 1));
    assert Scale(1, 7) == 128;
    ScaleGrows(1, 8 * (k - 1) + 7, shift);
  }

  lemma {:induction false} ScaleSign(n: int, s: nat)
    ensures Abs(Scale(n, s)) == Scale(Abs(n), s)
  {
    if s > 0 {
      ScaleSign(n, s - 1);
    }
  }

  /** The sum overflows exactly when it differs in sign from both operands. */
  lemma AddOverflow(a: int64, b: int64)
    ensures And64(Xor64(Wrap(a + b), a), Xor64(Wrap(a + b), b)) >= 0 <==> MIN <= a + b <= MAX
    ensures MIN <= a + b <= MAX ==> Wrap(a + b) == a + b
  {
    hide Bitwise, Bitwise64;
    var r := Wrap(a + b);
    Sign64(Xor, r, a);
    Sign64(Xor, r, b);
    Sign64(And, Xor64(r, a), Xor64(r, b));
    assert r < 0 <==> (-TWO63 <= a + b < 0 || a + b >= TWO63);
  }

  /** The difference overflows exactly when the operands differ in sign and the
      result differs in sign from the first. */
  lemma SubOverflow(a: int64, b: int64)
    ensures And64(Xor64(a, b), Xor64(a, Wrap(a - b))) >= 0 <==> MIN <= a - b <= MAX
    ensures MIN <= a - b <= MAX ==> Wrap(a - b) == a - b
  {
    hide Bitwise, Bitwise64;
    var r := Wrap(a - b);
    Sign64(Xor, a, b);
    Sign64(Xor, a, r);
    Sign64(And, Xor64(a, b), Xor64(a, r));
    assert r < 0 <==> (-TWO63 <= a - b < 0 || a - b >= TWO63);
  }

  lemma TruncDivFits(a: int64, b: int64)
    requires b != 0 && (a != MIN || b != -1)
    ensures MIN <= TruncDiv(a, b) <= MAX
  {
    if b == 1 || b == -1 {
      assert Abs(a) / 1 == Abs(a);
    } else {
      QuotientHalves(Abs(a), Abs(b));
    }
  }

  lemma QuotientHalves(x: nat, y: nat)
    requires y >= 2
    ensures 2 * (x / y) <= x
  {
    DivisionBound(x, y);
    MulMonotone(x / y, 2, y);
  }

  lemma DivisionBound(x: nat, y: nat)
    requires y > 0
    ensures x / y * y <= x
  {
  }

  lemma MulMonotone(a: nat, b: nat, c: nat)
    requires b <= c
    ensures a * b <= a * c
  {
    assert a * c == a * b + a * (c - b);
  }

  /** The division guard is exact. */
  lemma MulGuard(a: int64, b: int64)
    requires a != 0 && b != 0
    ensures (MIN <= a * b <= MAX)
            <==> ((a != -1 || b != MIN) && Wrap(TruncDiv(Wrap(a * b), a)) == b)
    ensures MIN <= a * b <= MAX ==> Wrap(a * b) == a * b
  {
    var r := Wrap(a * b);
    if MIN <= a * b <= MAX {
      assert r == a * b;
      TruncDivUnique(r, a, b, 0);
    } else if a == -1 && b == MIN {
    } else if Wrap(TruncDiv(r, a)) == b {
      WrappedQuotient(a, b, r);
      assert false;
    }
  }

  lemma WrappedQuotient(a: int64, b: int64, r: int64)
    requires a != 0 && (a != -1 || b != MIN)
    requires r == Wrap(a * b) && Wrap(TruncDiv(r, a)) == b
    ensures r == a * b
  {
    TruncDivMod(r, a);
    if r == MIN && a == -1 {
      TruncDivUnique(MIN, -1, TWO63, 0);
      assert false;
    } else {
      TruncDivFits(r, a);
      assert r == b * a + TruncMod(r, a);
      WrapDistance(a * b);
      assert b * a == a * b;
    }
  }

  lemma WrapDistance(x: int)
    ensures Abs(Wrap(x) - x) == 0 || Abs(Wrap(x) - x) >= TWO64
  {
    var k := x / TWO64;
    assert x == k * TWO64 + x % TWO64;
  }

  function FromUint64(v: nat): (r: BigNum)
    ensures r.Value() == v
  {
    if v <= MAX then Small(v) else Big(v)
  }
}
