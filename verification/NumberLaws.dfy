/** What the numeric opcodes leave on the stack, in terms of the integers their
    operands encode. */
module NumberLaws {
  import opened Common
  import opened ScriptErrors
  import opened Numbers
  import opened NumberCodec
  import opened Stacks
  import opened Instructions
  import opened ScriptVM
  import Int64

  // ---- running one opcode ----

  /** One opcode, on a machine whose data stack ends in some operands. */
  function After(env: Env, pos: nat, op: byte, st: State, operands: Items): StateResult {
    Effect(env, pos, op, [], st.(d := st.d + operands))
  }

  /** The same machine with results in the place of the operands. */
  function Leaves(st: State, results: Items): StateResult {
    Ok(st.(d := st.d + results))
  }

  predicate Fits(n: int) {
    |Encode(n)| <= 520
  }

  predicate ShortNumber(n: int) {
    |Encode(n)| <= 4
  }

  /** A number pushed as a result, if it is not too long. */
  function LeavesNumber(st: State, n: int): StateResult {
    if Fits(n) then Leaves(st, [Encode(n)]) else Err(NumberTooBig)
  }

  /** True and false on the stack. */
  function Flag(b: bool): Bytes {
    if b then [1] else []
  }

  lemma FlagFits(b: bool)
    ensures Encode(BoolNum(b)) == Flag(b) && Fits(BoolNum(b))
  {
    assert NatLe(1) == [1];
  }

  lemma FlagNumber(st: State, b: bool)
    ensures LeavesNumber(st, BoolNum(b)) == Leaves(st, [Flag(b)])
  {
    hide Encode, Flag;
    FlagFits(b);
  }

  // ---- popping operands ----

  lemma PopLast(s: Items, x: Bytes)
    ensures Pop(s + [x]) == Ok((s, x))
  {
    assert (s + [x])[..|s|] == s;
  }

  lemma PopTwo(s: Items, x: Bytes, y: Bytes)
    ensures Pop(s + [x, y]) == Ok((s + [x], y))
  {
    assert s + [x, y] == s + [x] + [y];
    PopLast(s + [x], y);
  }

  lemma PopThree(s: Items, x: Bytes, y: Bytes, z: Bytes)
    ensures Pop(s + [x, y, z]) == Ok((s + [x, y], z))
  {
    assert s + [x, y, z] == s + [x, y] + [z];
    PopLast(s + [x, y], z);
  }

  lemma ReadsBack(n: int)
    ensures Fits(n) ==> ReadNumber(Encode(n)) == Ok(n)
    ensures ShortNumber(n) ==> ReadScriptNum(Encode(n)) == Ok(n)
  {
    DecodeEncode(n);
    hide Encode, Decode, Minimal;
  }

  lemma UnaryRuns(env: Env, pos: nat, op: byte, uop: UnaryOp, st: State, n: int)
    requires InstrOf(op) == UnaryInstr(uop) && Fits(n)
    ensures After(env, pos, op, st, [Encode(n)]) == LeavesNumber(st, UnaryValue(uop, n))
  {
    hide Encode, InstrOf, UnaryValue, ReadNumber;
    PopLast(st.d, Encode(n));
    ReadsBack(n);
  }

  lemma BinaryRuns(env: Env, pos: nat, op: byte, nop: BinaryOp, st: State, a: int, b: int)
    requires InstrOf(op) == BinaryInstr(nop) && Fits(a) && Fits(b)
    ensures After(env, pos, op, st, [Encode(a), Encode(b)]) ==
            match BinaryValue(nop, a, b)
            case Ok(n) => LeavesNumber(st, n)
            case Err(e) => Err(e)
  {
    hide Encode, InstrOf, BinaryValue, ReadNumber;
    PopTwo(st.d, Encode(a), Encode(b));
    PopLast(st.d, Encode(a));
    ReadsBack(a);
    ReadsBack(b);
  }

  lemma TruthRuns(env: Env, pos: nat, op: byte, nop: BinaryOp, st: State, a: int, b: int, truth: bool)
    requires InstrOf(op) == BinaryInstr(nop) && Fits(a) && Fits(b) && BinaryValue(nop, a, b) == Ok(BoolNum(truth))
    ensures After(env, pos, op, st, [Encode(a), Encode(b)]) == Leaves(st, [Flag(truth)])
  {
    hide Encode, InstrOf, BinaryValue, Flag;
    BinaryRuns(env, pos, op, nop, st, a, b);
    FlagNumber(st, truth);
  }

  // ---- arithmetic ----

  /** 1ADD, 1SUB, 2MUL, NEGATE and ABS. */
  lemma UnaryArithmetic(env: Env, pos: nat, st: State, n: int)
    requires Fits(n)
    ensures After(env, pos, 0x8b, st, [Encode(n)]) == LeavesNumber(st, n + 1)
    ensures After(env, pos, 0x8c, st, [Encode(n)]) == LeavesNumber(st, n - 1)
    ensures After(env, pos, 0x8d, st, [Encode(n)]) == LeavesNumber(st, 2 * n)
    ensures After(env, pos, 0x8f, st, [Encode(n)]) == LeavesNumber(st, -n)
    ensures After(env, pos, 0x90, st, [Encode(n)]) == LeavesNumber(st, if n < 0 then -n else n)
  {
    hide Encode, Fits, After, LeavesNumber;
    UnaryRuns(env, pos, 0x8b, Inc, st, n);
    UnaryRuns(env, pos, 0x8c, Dec, st, n);
    UnaryRuns(env, pos, 0x8d, Double, st, n);
    UnaryRuns(env, pos, 0x8f, UnaryOp.Negate, st, n);
    UnaryRuns(env, pos, 0x90, AbsValue, st, n);
  }

  /** 2DIV halves towards zero. */
  lemma Halving(env: Env, pos: nat, st: State, n: int) returns (q: int, r: int)
    requires Fits(n)
    ensures n == q * 2 + r && -1 <= r <= 1 && (r != 0 ==> (r < 0 <==> n < 0))
    ensures After(env, pos, 0x8e, st, [Encode(n)]) == LeavesNumber(st, q)
  {
    hide Encode, Fits, After, LeavesNumber;
    Int64.TruncDivMod(n, 2);
    q, r := Int64.TruncDiv(n, 2), Int64.TruncMod(n, 2);
    UnaryRuns(env, pos, 0x8e, Halve, st, n);
  }

  /** ADD, SUB and MUL, with the operand pushed last on the right. */
  lemma BinaryArithmetic(env: Env, pos: nat, st: State, a: int, b: int)
    requires Fits(a) && Fits(b)
    ensures After(env, pos, 0x93, st, [Encode(a), Encode(b)]) == LeavesNumber(st, a + b)
    ensures After(env, pos, 0x94, st, [Encode(a), Encode(b)]) == LeavesNumber(st, a - b)
    ensures After(env, pos, 0x95, st, [Encode(a), Encode(b)]) == LeavesNumber(st, a * b)
  {
    hide Encode, Fits, After, LeavesNumber;
    BinaryRuns(env, pos, 0x93, BinaryOp.Add, st, a, b);
    BinaryRuns(env, pos, 0x94, BinaryOp.Sub, st, a, b);
    BinaryRuns(env, pos, 0x95, BinaryOp.Mul, st, a, b);
  }

  /** DIV and MOD leave the quotient and remainder whose remainder is smaller than
      the divisor and takes the sign of the dividend; zero does not divide. */
  lemma Division(env: Env, pos: nat, st: State, a: int, b: int, q: int, r: int)
    requires Fits(a) && Fits(b)
    ensures b == 0 ==> After(env, pos, 0x96, st, [Encode(a), Encode(b)]) == Err(DivisionByZero)
    ensures b == 0 ==> After(env, pos, 0x97, st, [Encode(a), Encode(b)]) == Err(ModuloByZero)
    ensures b != 0 && a == q * b + r && Abs(r) < Abs(b) && (r == 0 || (r < 0 <==> a < 0)) ==>
              && After(env, pos, 0x96, st, [Encode(a), Encode(b)]) == LeavesNumber(st, q)
              && After(env, pos, 0x97, st, [Encode(a), Encode(b)]) == LeavesNumber(st, r)
  {
    hide Encode, Fits, After, LeavesNumber, Int64.TruncDiv, Int64.TruncMod;
    BinaryRuns(env, pos, 0x96, BinaryOp.Div, st, a, b);
    BinaryRuns(env, pos, 0x97, BinaryOp.Mod, st, a, b);
    if b != 0 && a == q * b + r && Abs(r) < Abs(b) && (r == 0 || (r < 0 <==> a < 0)) {
      Int64.TruncDivUnique(a, b, q, r);
    }
  }

  /** And there always is such a pair. */
  lemma DivisionExists(a: int, b: int) returns (q: int, r: int)
    requires b != 0
    ensures a == q * b + r && Abs(r) < Abs(b) && (r == 0 || (r < 0 <==> a < 0))
  {
    Int64.TruncDivMod(a, b);
    q, r := Int64.TruncDiv(a, b), Int64.TruncMod(a, b);
  }

  /** MIN and MAX leave one of the operands, the one that is at most, or at least,
      both. */
  lemma Extremes(env: Env, pos: nat, st: State, a: int, b: int, low: int, high: int)
    requires Fits(a) && Fits(b)
    requires (low == a || low == b) && low <= a && low <= b
    requires (high == a || high == b) && high >= a && high >= b
    ensures After(env, pos, 0xa3, st, [Encode(a), Encode(b)]) == Leaves(st, [Encode(low)])
    ensures After(env, pos, 0xa4, st, [Encode(a), Encode(b)]) == Leaves(st, [Encode(high)])
  {
    hide Encode, After;
    BinaryRuns(env, pos, 0xa3, BinaryOp.Min, st, a, b);
    BinaryRuns(env, pos, 0xa4, BinaryOp.Max, st, a, b);
  }

  // ---- relations and connectives ----

  /** NOT and 0NOTEQUAL. */
  lemma ZeroTests(env: Env, pos: nat, st: State, n: int)
    requires Fits(n)
    ensures After(env, pos, 0x91, st, [Encode(n)]) == Leaves(st, [Flag(n == 0)])
    ensures After(env, pos, 0x92, st, [Encode(n)]) == Leaves(st, [Flag(n != 0)])
  {
    hide Encode, Fits, After, Leaves, LeavesNumber, Flag;
    UnaryRuns(env, pos, 0x91, UnaryOp.Not, st, n);
    UnaryRuns(env, pos, 0x92, NotZero, st, n);
    FlagNumber(st, n == 0);
    FlagNumber(st, n != 0);
  }

  /** BOOLAND and BOOLOR. */
  lemma Connectives(env: Env, pos: nat, st: State, a: int, b: int)
    requires Fits(a) && Fits(b)
    ensures After(env, pos, 0x9a, st, [Encode(a), Encode(b)]) == Leaves(st, [Flag(a != 0 && b != 0)])
    ensures After(env, pos, 0x9b, st, [Encode(a), Encode(b)]) == Leaves(st, [Flag(a != 0 || b != 0)])
  {
    hide Encode, Fits, After, Leaves, LeavesNumber, Flag;
    TruthRuns(env, pos, 0x9a, BinaryOp.BoolAnd, st, a, b, a != 0 && b != 0);
    TruthRuns(env, pos, 0x9b, BinaryOp.BoolOr, st, a, b, a != 0 || b != 0);
  }

  /** NUMEQUAL and NUMNOTEQUAL. */
  lemma Equalities(env: Env, pos: nat, st: State, a: int, b: int)
    requires Fits(a) && Fits(b)
    ensures After(env, pos, 0x9c, st, [Encode(a), Encode(b)]) == Leaves(st, [Flag(a == b)])
    ensures After(env, pos, 0x9e, st, [Encode(a), Encode(b)]) == Leaves(st, [Flag(a != b)])
  {
    hide Encode, Fits, After, Leaves, LeavesNumber, Flag;
    TruthRuns(env, pos, 0x9c, BinaryOp.NumEqual, st, a, b, a == b);
    TruthRuns(env, pos, 0x9e, BinaryOp.NumNotEqual, st, a, b, a != b);
  }

  /** The order comparisons. */
  lemma Orders(env: Env, pos: nat, st: State, a: int, b: int)
    requires Fits(a) && Fits(b)
    ensures After(env, pos, 0x9f, st, [Encode(a), Encode(b)]) == Leaves(st, [Flag(a < b)])
    ensures After(env, pos, 0xa0, st, [Encode(a), Encode(b)]) == Leaves(st, [Flag(a > b)])
    ensures After(env, pos, 0xa1, st, [Encode(a), Encode(b)]) == Leaves(st, [Flag(a <= b)])
    ensures After(env, pos, 0xa2, st, [Encode(a), Encode(b)]) == Leaves(st, [Flag(a >= b)])
  {
    hide Encode, Fits, After, Leaves, LeavesNumber, Flag;
    TruthRuns(env, pos, 0x9f, BinaryOp.LessThan, st, a, b, a < b);
    TruthRuns(env, pos, 0xa0, BinaryOp.GreaterThan, st, a, b, a > b);
    TruthRuns(env, pos, 0xa1, BinaryOp.LessOrEqual, st, a, b, a <= b);
    TruthRuns(env, pos, 0xa2, BinaryOp.GreaterOrEqual, st, a, b, a >= b);
  }

  /** NUMEQUALVERIFY goes on exactly between equal numbers. */
  lemma EqualNumbersVerified(env: Env, pos: nat, st: State, a: int, b: int)
    requires Fits(a) && Fits(b)
    ensures After(env, pos, 0x9d, st, [Encode(a), Encode(b)]) ==
            if a == b then Leaves(st, []) else Err(ErrorCode.NumEqualVerify)
  {
    hide Encode, Fits, Truthy, ReadNumber;
    PopTwo(st.d, Encode(a), Encode(b));
    PopLast(st.d, Encode(a));
    ReadsBack(a);
    ReadsBack(b);
    FlagFits(a == b);
    TruthyEncode(BoolNum(a == b));
    PopLast(st.d, Encode(BoolNum(a == b)));
    assert st.d + [] == st.d;
    hide Flag;
  }

  /** WITHIN tests a half-open range; the bounds are pushed last. */
  lemma Ranges(env: Env, pos: nat, st: State, x: int, min: int, max: int)
    requires Fits(x) && Fits(min) && Fits(max)
    ensures After(env, pos, 0xa5, st, [Encode(x), Encode(min), Encode(max)]) == Leaves(st, [Flag(min <= x < max)])
  {
    hide Encode, Fits, Flag, ReadNumber;
    PopThree(st.d, Encode(x), Encode(min), Encode(max));
    PopTwo(st.d, Encode(x), Encode(min));
    PopLast(st.d, Encode(x));
    ReadsBack(x);
    ReadsBack(min);
    ReadsBack(max);
    FlagFits(min <= x < max);
  }

  // ---- shifts ----

  lemma ShiftRuns(env: Env, pos: nat, op: byte, left: bool, st: State, x: int, n: int)
    requires InstrOf(op) == (if left then ShiftLeft else ShiftRight) && Fits(x) && ShortNumber(n)
    ensures n < 0 ==> After(env, pos, op, st, [Encode(x), Encode(n)]) == Err(InvalidIndex)
    ensures n >= 0 ==> Pow2(n) > 0 && After(env, pos, op, st, [Encode(x), Encode(n)]) ==
                                      LeavesNumber(st, if left then x * Pow2(n) else x / Pow2(n))
  {
    hide Encode, ShortNumber, ReadNumber, ReadScriptNum, InstrOf, Pow2;
    PopTwo(st.d, Encode(x), Encode(n));
    PopLast(st.d, Encode(x));
    ReadsBack(x);
    ReadsBack(n);
    if n >= 0 {
      PowerPositive(n);
    }
  }

  lemma PowerPositive(n: nat)
    ensures Pow2(n) > 0
  {
    ScaleGrows(1, n, n);
  }

  /** LSHIFT multiplies by a power of two, RSHIFT rounds down the quotient. */
  lemma Shifts(env: Env, pos: nat, st: State, x: int, n: int)
    requires Fits(x) && ShortNumber(n)
    ensures n < 0 ==> After(env, pos, 0x98, st, [Encode(x), Encode(n)]) == Err(InvalidIndex)
    ensures n < 0 ==> After(env, pos, 0x99, st, [Encode(x), Encode(n)]) == Err(InvalidIndex)
    ensures n >= 0 ==> After(env, pos, 0x98, st, [Encode(x), Encode(n)]) == LeavesNumber(st, Scale(x, n))
    ensures n >= 0 ==> forall q :: Scale(q, n) <= x < Scale(q + 1, n) ==>
              After(env, pos, 0x99, st, [Encode(x), Encode(n)]) == LeavesNumber(st, q)
  {
    hide Encode, Fits, ShortNumber, After, LeavesNumber, Pow2, Scale;
    ShiftRuns(env, pos, 0x98, true, st, x, n);
    ShiftRuns(env, pos, 0x99, false, st, x, n);
    if n >= 0 {
      ScaleIsProduct(x, n);
      forall q | Scale(q, n) <= x < Scale(q + 1, n)
        ensures x / Pow2(n) == q
      {
        ScaleIsProduct(q, n);
        ScaleIsProduct(q + 1, n);
        Distribute(q, 1, Pow2(n));
        QuotientIs(x, Pow2(n), q);
      }
    }
  }

  lemma QuotientIs(x: int, p: int, q: int)
    requires p > 0 && q * p <= x < q * p + p
    ensures x / p == q
  {
    var k := x / p;
    assert k * p <= x < k * p + p;
    if k < q {
      Distribute(k, q - k, p);
      Int64.MulAtLeast(q - k, p);
      assert false;
    } else if q < k {
      Distribute(q, k - q, p);
      Int64.MulAtLeast(k - q, p);
      assert false;
    }
  }

  // ---- widths ----

  lemma WidthRuns(env: Env, pos: nat, st: State, n: int, size: int)
    requires Fits(n) && ShortNumber(size)
    ensures After(env, pos, 0xd7, st, [Encode(n), Encode(size)]) ==
            if |Encode(n)| <= size <= 520 then Leaves(st, [Fixed(n, size)]) else Err(NumberTooBig)
  {
    hide Encode, Fits, ShortNumber, ReadNumber, ReadScriptNum, Fixed;
    PopTwo(st.d, Encode(n), Encode(size));
    PopLast(st.d, Encode(n));
    ReadsBack(n);
    ReadsBack(size);
  }

  /** NUM2BIN succeeds exactly when the number fits the size, and leaves that many
      bytes of the same value; BIN2NUM turns any string into the encoding of its
      value, so it undoes NUM2BIN. */
  lemma Widths(env: Env, pos: nat, st: State, n: int, size: int) returns (wide: Bytes)
    requires Fits(n) && ShortNumber(size)
    ensures var r := After(env, pos, 0xd7, st, [Encode(n), Encode(size)]);
            if |Encode(n)| <= size <= 520 then
              && r == Leaves(st, [wide]) && |wide| == size && Decode(wide) == n
              && After(env, pos, 0xd8, st, [wide]) == Leaves(st, [Encode(n)])
            else
              r == Err(NumberTooBig)
  {
    hide Encode, Fits, ShortNumber, Fixed, Decode, After;
    WidthRuns(env, pos, st, n, size);
    wide := [];
    if |Encode(n)| <= size <= 520 {
      wide := Fixed(n, size);
      DecodeFixed(n, size);
      AnyWidth(env, pos, st, wide);
    }
  }

  lemma AnyWidth(env: Env, pos: nat, st: State, x: Bytes)
    ensures After(env, pos, 0xd8, st, [x]) ==
            if |x| > 520 then Err(NumberTooBig) else Leaves(st, [Encode(Decode(x))])
  {
    hide Encode, Decode;
    PopLast(st.d, x);
  }

  // ---- operands that are refused ----

  /** Opcodes that pop a number first. */
  predicate PopsNumber(op: byte) {
    0x8b <= op <= 0x97 || 0x9a <= op <= 0xa5
  }

  /** A top item that is too long, or that is not the encoding of its value, is
      refused, and so is a missing one. */
  lemma OperandsChecked(env: Env, pos: nat, op: byte, st: State, x: Bytes)
    requires PopsNumber(op)
    ensures |x| > 520 ==> After(env, pos, op, st, [x]) == Err(NumberTooBig)
    ensures |x| <= 520 && Encode(Decode(x)) != x ==> After(env, pos, op, st, [x]) == Err(MinimalData)
    ensures st.d == [] ==> After(env, pos, op, st, []) == Err(InvalidStackOperation)
  {
    hide Encode, Decode, Minimal, InstrOf, Effect, PopNumber;
    EncodeDecode(x);
    PopLast(st.d, x);
    assert st.d + [] == st.d;
    NoNumber(x, st.d);
    TopFirst(env, pos, op, st.(d := st.d + [x]));
    TopFirst(env, pos, op, st);
  }

  lemma NoNumber(x: Bytes, s: Items)
    ensures |x| > 520 ==> PopNumber(s + [x]) == Err(NumberTooBig)
    ensures |x| <= 520 && !Minimal(x) ==> PopNumber(s + [x]) == Err(MinimalData)
    ensures PopNumber([]) == Err(InvalidStackOperation)
  {
    hide Decode, Minimal;
    PopLast(s, x);
  }

  /** These opcodes fail as popping the first number does. */
  lemma TopFirst(env: Env, pos: nat, op: byte, st: State)
    requires PopsNumber(op)
    ensures PopNumber(st.d).Err? ==> Effect(env, pos, op, [], st) == Err(PopNumber(st.d).error)
  {
    hide PopNumber, PushNumber, UnaryValue, BinaryValue, Verified, InstrOf;
    NumericKinds(op);
  }

  lemma NumericKinds(op: byte)
    requires PopsNumber(op)
    ensures var i := InstrOf(op);
            i.UnaryInstr? || i.BinaryInstr? || i.NumEqualVerify? || i.Within?
  {
  }

  // ---- the encoding itself ----

  /** The encoding of a positive number is its shortest little-endian string with
      the high bit of the last byte free; a negative one differs in that bit only. */
  lemma SignMagnitude(n: int)
    ensures Encode(0) == []
    ensures n > 0 ==>
              var e := Encode(n);
              && e != [] && LeNat(e) == n && Last(e) < 128 && (Last(e) == 0 ==> |e| > 1 && e[|e| - 2] >= 128)
              && Encode(-n) == e[..|e| - 1] + [Last(e) + 128]
  {
    if n > 0 {
      LeNatOfNatLe(n);
      LeNatTrailingZero(NatLe(n));
    }
  }

  /** A true item is one whose value, read as a number of any form, is not zero. */
  lemma TruthIsNonzero(x: Bytes)
    ensures Truthy(x) <==> Decode(x) != 0
  {
    if x != [] {
      var m := Magnitude(x);
      if Truthy(x) {
        var i :| 0 <= i < |x| && x[i] != 0 && !(i == |x| - 1 && x[i] == 128);
        assert m[i] != 0;
        NonzeroValue(m, i);
      } else {
        assert Last(m) == 0 by {
          assert x[|x| - 1] == 0 || x[|x| - 1] == 128;
        }
        assert forall i :: 0 <= i < |m| ==> m[i] == 0;
        ZeroValue(m);
      }
    }
  }

  lemma {:induction false} NonzeroValue(m: Bytes, i: nat)
    requires i < |m| && m[i] != 0
    ensures LeNat(m) > 0
  {
    if i > 0 {
      NonzeroValue(m[1..], i - 1);
    }
  }

  lemma {:induction false} ZeroValue(m: Bytes)
    requires forall i :: 0 <= i < |m| ==> m[i] == 0
    ensures LeNat(m) == 0
  {
    if m != [] {
      ZeroValue(m[1..]);
    }
  }
}
