/** Go's int64: wrapping arithmetic, and the bit operators the number code
    uses, defined on the two's complement bit pattern. */
module Int64 {
  import opened Common

  const TWO63: int := 0x8000_0000_0000_0000
  const TWO64: int := 0x1_0000_0000_0000_0000
  const MIN: int := -TWO63
  const MAX: int := TWO63 - 1

  type int64 = x: int | -TWO63 <= x < TWO63

  function Wrap(x: int): int64 {
    var u := x % TWO64;
    if u < TWO63 then u else u - TWO64
  }

  function Unsigned(x: int64): nat {
    if x < 0 then x + TWO64 else x
  }

  datatype BitOp = And | Or | Xor

  function Bit(op: BitOp, a: bool, b: bool): bool {
    match op
    case And => a && b
    case Or => a || b
    case Xor => a != b
  }

  function Bitwise(op: BitOp, a: nat, b: nat, width: nat): nat
    decreases width, a, b
  {
    if width == 0 then 0
    else (if Bit(op, a % 2 == 1, b % 2 == 1) then 1 else 0) + 2 * Bitwise(op, a / 2, b / 2, width - 1)
  }

  function Bitwise64(op: BitOp, a: int64, b: int64): int64 {
    Wrap(Bitwise(op, Unsigned(a), Unsigned(b), 64))
  }

  function Xor64(a: int64, b: int64): int64 {
    Bitwise64(Xor, a, b)
  }

  function And64(a: int64, b: int64): int64 {
    Bitwise64(And, a, b)
  }

  function Or64(a: int64, b: int64): int64 {
    Bitwise64(Or, a, b)
  }

  /** The complement operator, -x - 1 in two's complement. */
  function Not64(a: int64): int64 {
    -1 - a
  }

  function Shl64(a: int64, shift: nat): int64 {
    Wrap(Scale(a, shift))
  }

  /** Go's integer division truncates towards zero. */
  function TruncDiv(a: int, b: int): int
    requires b != 0
  {
    var q := Abs(a) / Abs(b);
    if (a < 0) == (b < 0) then q else -q
  }

  /** Go's remainder takes the sign of the dividend. */
  function TruncMod(a: int, b: int): int
    requires b != 0
  {
    var r := Abs(a) % Abs(b);
    if a < 0 then -r else r
  }

  lemma TruncDivMod(a: int, b: int)
    requires b != 0
    ensures a == TruncDiv(a, b) * b + TruncMod(a, b)
    ensures Abs(TruncMod(a, b)) < Abs(b)
    ensures TruncMod(a, b) == 0 || (TruncMod(a, b) < 0 <==> a < 0)
  {
    var q, r := Abs(a) / Abs(b), Abs(a) % Abs(b);
    assert Abs(a) == q * Abs(b) + r;
    if b < 0 {
      assert q * Abs(b) == -(q * b) == (-q) * b;
    } else {
      assert (-q) * b == -(q * b);
    }
  }

  /** The unique way to write a as q * b plus a remainder of the sign of a. */
  lemma TruncDivUnique(a: int, b: int, q: int, r: int)
    requires b != 0
    requires a == q * b + r && Abs(r) < Abs(b) && (r == 0 || (r < 0 <==> a < 0))
    ensures q == TruncDiv(a, b) && r == TruncMod(a, b)
  {
    TruncDivMod(a, b);
    var q', r' := TruncDiv(a, b), TruncMod(a, b);
    assert (q - q') * b == r' - r;
    assert Abs(r' - r) < Abs(b);
    if q != q' {
      assert Abs((q - q') * b) == Abs(q - q') * Abs(b) by {
        MulAbs(q - q', b);
      }
      MulAtLeast(Abs(q - q'), Abs(b));
      assert false;
    }
  }

  lemma MulAbs(x: int, y: int)
    ensures Abs(x * y) == Abs(x) * Abs(y)
  {
    if x < 0 && y < 0 {
      assert x * y == (-x) * (-y);
    } else if x < 0 {
      assert x * y == -((-x) * y);
    } else if y < 0 {
      assert x * y == -(x * (-y));
    }
  }

  lemma MulAtLeast(x: nat, y: nat)
    requires x >= 1
    ensures x * y >= y
  {
    assert x * y == (x - 1) * y + y;
  }

  lemma Words()
    ensures Scale(1, 63) == TWO63 && Scale(1, 64) == TWO64
  {
    ScaleByte(1, 0);
    ScaleByte(1, 8);
    ScaleByte(1, 16);
    ScaleByte(1, 24);
    ScaleByte(1, 32);
    ScaleByte(1, 40);
    ScaleByte(1, 48);
    ScaleByte(1, 56);
  }

  /** The top bit of a bitwise result is the operator applied to the top bits. */
  lemma {:induction false} TopBit(op: BitOp, a: nat, b: nat, width: nat)
    requires width > 0 && a < Scale(1, width) && b < Scale(1, width)
    ensures Bitwise(op, a, b, width) < Scale(1, width)
    ensures Bitwise(op, a, b, width) >= Scale(1, width - 1)
            <==> Bit(op, a >= Scale(1, width - 1), b >= Scale(1, width - 1))
  {
    if width == 1 {
      assert Bitwise(op, a / 2, b / 2, 0) == 0;
    } else {
      TopBit(op, a / 2, b / 2, width - 1);
    }
  }

  /** The sign of a 64-bit bitwise result. */
  lemma Sign64(op: BitOp, a: int64, b: int64)
    ensures Bitwise64(op, a, b) < 0 <==> Bit(op, a < 0, b < 0)
  {
    Words();
    TopBit(op, Unsigned(a), Unsigned(b), 64);
  }

  lemma WrapNat(c: nat)
    requires c < TWO64
    ensures Unsigned(Wrap(c)) == c
  {
  }

  /** Or-ing in a value that starts above the highest set bit adds it. */
  lemma {:induction false} OrDisjoint(a: nat, c: nat, shift: nat, width: nat)
    requires a < Scale(1, shift) && shift <= width && 0 <= Scale(c, shift) < Scale(1, width)
    ensures Bitwise(Or, a, Scale(c, shift), width) == a + Scale(c, shift)
  {
    if shift == 0 {
      OrZero(c, width);
    } else {
      OrDisjoint(a / 2, c, shift - 1, width - 1);
    }
  }

  lemma {:induction false} OrZero(c: nat, width: nat)
    requires c < Scale(1, width)
    ensures Bitwise(Or, 0, c, width) == c
  {
    if width > 0 {
      OrZero(c / 2, width - 1);
    }
  }

  /** Shift-and-or on int64: shifting c in above the bits of r adds it. */
  lemma OrShifted(r: int64, c: nat, shift: nat, width: nat)
    requires shift <= width == 64 && Unsigned(r) < Scale(1, shift) && c < TWO63
    requires 0 <= Scale(c, shift) && Unsigned(r) + Scale(c, shift) < TWO64
    ensures Unsigned(Or64(r, Shl64(c, shift))) == Unsigned(r) + Scale(c, shift)
  {
    Words();
    OrDisjoint(Unsigned(r), c, shift, width);
    OrWord(r, Scale(c, shift));
  }

  lemma OrWord(r: int64, y: nat)
    requires Unsigned(r) + y < TWO64
    requires Bitwise(Or, Unsigned(r), y, 64) == Unsigned(r) + y
    ensures Unsigned(Or64(r, Wrap(y))) == Unsigned(r) + y
  {
    hide Bitwise;
    WrapNat(y);
    WrapNat(Unsigned(r) + y);
  }

  /** And-ing with a mask that has every bit except bit `top` clears that bit. */
  lemma {:induction false} ClearTopBit(a: nat, top: nat, width: nat)
    requires a < Scale(1, top) && top < width
    ensures 0 < Scale(1, top) < Scale(1, width)
    ensures Bitwise(And, a + Scale(1, top), Scale(1, width) - 1 - Scale(1, top), width) == a
  {
    ScaleGrows(1, 0, top);
    ScaleGrows(1, top + 1, width);
    var x, m := a + Scale(1, top), Scale(1, width) - 1 - Scale(1, top);
    if top == 0 {
      assert x == 1 && m % 2 == 0;
      AndZero(m / 2, width - 1);
    } else {
      ClearTopBit(a / 2, top - 1, width - 1);
      assert x / 2 == a / 2 + Scale(1, top - 1) && x % 2 == a % 2;
      assert m % 2 == 1 && m / 2 == Scale(1, width - 1) - 1 - Scale(1, top - 1);
    }
  }

  lemma {:induction false} AndZero(m: nat, width: nat)
    ensures Bitwise(And, 0, m, width) == 0
  {
    if width > 0 {
      AndZero(m / 2, width - 1);
    }
  }

  /** Clearing bit `top` of an int64 with the complement mask. */
  lemma MaskWord(r: int64, m: nat, top: nat, width: nat)
    requires top < width == 64 && m < Scale(1, top) && Unsigned(r) == m + Scale(1, top)
    ensures And64(r, Not64(Wrap(Scale(1, top)))) == m
  {
    hide Bitwise;
    Words();
    ScaleGrows(1, top, 63);
    WrapNat(Scale(1, top));
    ClearTopBit(m, top, width);
  }
}
