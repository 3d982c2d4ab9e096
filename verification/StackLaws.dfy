/** What the stack, byte and flow opcodes do, item by item. */
module StackLaws {
  import opened Common
  import opened ScriptErrors
  import opened Numbers
  import opened NumberCodec
  import opened Stacks
  import opened Instructions
  import opened Tokenizers
  import opened ScriptVM
  import opened NumberLaws
  import Int64

  // ---- arranging items ----

  lemma ArrangeRuns(env: Env, pos: nat, op: byte, sop: StackOp, st: State, operands: Items)
    requires InstrOf(op) == StackInstr(sop)
    ensures After(env, pos, op, st, operands) ==
            match Arrange(sop, st.d + operands)
            case Ok(s) => Ok(st.(d := s))
            case Err(e) => Err(e)
  {
    hide InstrOf, Arrange;
  }

  /** DROP, DUP, IFDUP and SIZE of the top item; IFDUP keeps a false one single. */
  lemma TopItem(env: Env, pos: nat, st: State, x: Bytes)
    ensures After(env, pos, 0x75, st, [x]) == Leaves(st, [])
    ensures After(env, pos, 0x76, st, [x]) == Leaves(st, [x, x])
    ensures After(env, pos, 0x73, st, [x]) == Leaves(st, if Decode(x) != 0 then [x, x] else [x])
    ensures After(env, pos, 0x82, st, [x]) == Leaves(st, [x, Encode(|x|)])
  {
    hide Encode, Decode, Truthy, After;
    TruthIsNonzero(x);
    ArrangeRuns(env, pos, 0x75, Drop(1), st, [x]);
    ArrangeRuns(env, pos, 0x76, Dup(1), st, [x]);
    ArrangeRuns(env, pos, 0x73, IfDup, st, [x]);
    ArrangeRuns(env, pos, 0x82, Size, st, [x]);
    hide InstrOf;
    var s := st.d + [x];
    assert Below(s, 1) == st.d == st.d + [] && Top(s, 1) == [x];
    assert s + [x] == st.d + [x, x] && s + [Encode(|x|)] == st.d + [x, Encode(|x|)];
  }

  /** DEPTH counts the items. */
  lemma DepthCounts(env: Env, pos: nat, st: State)
    ensures After(env, pos, 0x74, st, []) == Leaves(st, [Encode(|st.d|)])
  {
    hide Encode;
    assert st.d + [] == st.d;
  }

  /** 2DROP, 2DUP and OVER of two items. */
  lemma TwoItems(env: Env, pos: nat, st: State, x: Bytes, y: Bytes)
    ensures After(env, pos, 0x6d, st, [x, y]) == Leaves(st, [])
    ensures After(env, pos, 0x6e, st, [x, y]) == Leaves(st, [x, y, x, y])
    ensures After(env, pos, 0x78, st, [x, y]) == Leaves(st, [x, y, x])
  {
    hide After;
    ArrangeRuns(env, pos, 0x6d, Drop(2), st, [x, y]);
    ArrangeRuns(env, pos, 0x6e, Dup(2), st, [x, y]);
    ArrangeRuns(env, pos, 0x78, Over(1), st, [x, y]);
    hide InstrOf;
    var s := st.d + [x, y];
    assert Below(s, 2) == st.d == st.d + [] && Below(s, 1) == st.d + [x] && Top(s, 2) == [x, y];
    assert (st.d + [x])[|st.d|..] == [x];
    assert s + [x, y] == st.d + [x, y, x, y] && s + [x] == st.d + [x, y, x];
  }

  /** SWAP, NIP and TUCK of two items. */
  lemma TwoExchanged(env: Env, pos: nat, st: State, x: Bytes, y: Bytes)
    ensures After(env, pos, 0x7c, st, [x, y]) == Leaves(st, [y, x])
    ensures After(env, pos, 0x77, st, [x, y]) == Leaves(st, [y])
    ensures After(env, pos, 0x7d, st, [x, y]) == Leaves(st, [y, x, y])
  {
    hide After;
    ArrangeRuns(env, pos, 0x7c, Swap(1), st, [x, y]);
    ArrangeRuns(env, pos, 0x77, Nip, st, [x, y]);
    ArrangeRuns(env, pos, 0x7d, TuckTop, st, [x, y]);
    hide InstrOf;
    var s := st.d + [x, y];
    assert Below(s, 2) == st.d && Below(s, 1) == st.d + [x] && Top(s, 1) == [y];
    assert (st.d + [x])[|st.d|..] == [x];
    assert st.d + [y] + [x] == st.d + [y, x];
  }

  /** 3DUP and ROT of three items. */
  lemma ThreeItems(env: Env, pos: nat, st: State, x: Bytes, y: Bytes, z: Bytes)
    ensures After(env, pos, 0x6f, st, [x, y, z]) == Leaves(st, [x, y, z, x, y, z])
    ensures After(env, pos, 0x7b, st, [x, y, z]) == Leaves(st, [y, z, x])
  {
    hide After;
    ArrangeRuns(env, pos, 0x6f, Dup(3), st, [x, y, z]);
    ArrangeRuns(env, pos, 0x7b, Rot(1), st, [x, y, z]);
    hide InstrOf;
    var s := st.d + [x, y, z];
    assert Below(s, 3) == st.d && Below(s, 2) == st.d + [x];
    assert Top(s, 3) == [x, y, z] && Top(s, 2) == [y, z];
    assert (st.d + [x])[|st.d|..] == [x];
    assert s + [x, y, z] == st.d + [x, y, z, x, y, z];
    assert st.d + [y, z] + [x] == st.d + [y, z, x];
  }

  /** 2OVER and 2SWAP of four items, 2ROT of six. */
  lemma Pairs(env: Env, pos: nat, st: State, u: Bytes, v: Bytes, w: Bytes, x: Bytes, y: Bytes, z: Bytes)
    ensures After(env, pos, 0x70, st, [w, x, y, z]) == Leaves(st, [w, x, y, z, w, x])
    ensures After(env, pos, 0x72, st, [w, x, y, z]) == Leaves(st, [y, z, w, x])
    ensures After(env, pos, 0x71, st, [u, v, w, x, y, z]) == Leaves(st, [w, x, y, z, u, v])
  {
    FourItems(env, pos, st, w, x, y, z);
    SixItems(env, pos, st, u, v, w, x, y, z);
  }

  lemma FourItems(env: Env, pos: nat, st: State, w: Bytes, x: Bytes, y: Bytes, z: Bytes)
    ensures After(env, pos, 0x70, st, [w, x, y, z]) == Leaves(st, [w, x, y, z, w, x])
    ensures After(env, pos, 0x72, st, [w, x, y, z]) == Leaves(st, [y, z, w, x])
  {
    hide After;
    ArrangeRuns(env, pos, 0x70, Over(2), st, [w, x, y, z]);
    ArrangeRuns(env, pos, 0x72, Swap(2), st, [w, x, y, z]);
    hide InstrOf;
    var s := st.d + [w, x, y, z];
    assert Below(s, 4) == st.d && Below(s, 2) == st.d + [w, x] && Top(s, 2) == [y, z];
    assert (st.d + [w, x])[|st.d|..] == [w, x];
    assert s + [w, x] == st.d + [w, x, y, z, w, x];
    assert st.d + [y, z] + [w, x] == st.d + [y, z, w, x];
  }

  lemma SixItems(env: Env, pos: nat, st: State, u: Bytes, v: Bytes, w: Bytes, x: Bytes, y: Bytes, z: Bytes)
    ensures After(env, pos, 0x71, st, [u, v, w, x, y, z]) == Leaves(st, [w, x, y, z, u, v])
  {
    hide After;
    ArrangeRuns(env, pos, 0x71, Rot(2), st, [u, v, w, x, y, z]);
    hide InstrOf;
    var s := st.d + [u, v, w, x, y, z];
    assert Below(s, 6) == st.d && Below(s, 4) == st.d + [u, v] && Top(s, 4) == [w, x, y, z];
    assert (st.d + [u, v])[|st.d|..] == [u, v];
    assert st.d + [w, x, y, z] + [u, v] == st.d + [w, x, y, z, u, v];
  }

  /** PICK copies, and ROLL moves, the item with the given number of items above
      it; any other depth is refused. */
  lemma Depths(env: Env, pos: nat, st: State, x: Bytes, above: Items, n: int)
    requires ShortNumber(n)
    ensures n == |above| ==>
              && After(env, pos, 0x79, st, [x] + above + [Encode(n)]) == Leaves(st, [x] + above + [x])
              && After(env, pos, 0x7a, st, [x] + above + [Encode(n)]) == Leaves(st, above + [x])
    ensures n < 0 || n >= |st.d| ==>
              && After(env, pos, 0x79, st, [Encode(n)]) == Err(InvalidStackOperation)
              && After(env, pos, 0x7a, st, [Encode(n)]) == Err(InvalidStackOperation)
  {
    hide Encode, ShortNumber, After, Picked, Rolled;
    DepthRuns(env, pos, st, [], n);
    assert st.d + [] == st.d && [] + [Encode(n)] == [Encode(n)];
    if n < 0 || n >= |st.d| {
      PickedOut(st.d, n);
    }
    if n == |above| {
      DepthRuns(env, pos, st, [x] + above, n);
      PickedItem(st.d, x, above);
    }
  }

  lemma DepthRuns(env: Env, pos: nat, st: State, below: Items, n: int)
    requires ShortNumber(n)
    ensures After(env, pos, 0x79, st, below + [Encode(n)]) ==
            match Picked(st.d + below, n) case Ok(s) => Ok(st.(d := s)) case Err(e) => Err(e)
    ensures After(env, pos, 0x7a, st, below + [Encode(n)]) ==
            match Rolled(st.d + below, n) case Ok(s) => Ok(st.(d := s)) case Err(e) => Err(e)
  {
    hide Encode, ShortNumber, ReadScriptNum, After, Picked, Rolled;
    ArrangeRuns(env, pos, 0x79, Pick, st, below + [Encode(n)]);
    ArrangeRuns(env, pos, 0x7a, Roll, st, below + [Encode(n)]);
    hide InstrOf;
    ReadsBack(n);
    Assoc(st.d, below, [Encode(n)]);
    PopLast(st.d + below, Encode(n));
  }

  lemma PickedOut(s: Items, n: int)
    requires n < 0 || n >= |s|
    ensures Picked(s, n) == Rolled(s, n) == Err(InvalidStackOperation)
  {
  }

  lemma PickedItem(s: Items, x: Bytes, above: Items)
    ensures Picked(s + ([x] + above), |above|) == Ok(s + ([x] + above + [x]))
    ensures Rolled(s + ([x] + above), |above|) == Ok(s + (above + [x]))
  {
    var all := s + ([x] + above);
    assert Item(all, |above|) == x && Below(all, |above| + 1) == s && Top(all, |above|) == above;
    assert all + [x] == s + ([x] + above + [x]);
    assert s + above + [x] == s + (above + [x]);
  }

  /** Without the items they need, these opcodes fail. */
  lemma TooFew(env: Env, pos: nat, op: byte, st: State)
    requires op in {0x73, 0x75, 0x76, 0x82} ==> |st.d| < 1
    requires op in {0x6d, 0x6e, 0x77, 0x78, 0x7c, 0x7d} ==> |st.d| < 2
    requires op in {0x6f, 0x7b} ==> |st.d| < 3
    requires op in {0x70, 0x72} ==> |st.d| < 4
    requires op == 0x71 ==> |st.d| < 6
    requires (0x6d <= op <= 0x7d && op !in {0x74, 0x79, 0x7a}) || op == 0x82
    ensures After(env, pos, op, st, []) == Err(InvalidStackOperation)
  {
    assert st.d + [] == st.d;
    if op == 0x82 {
      assert InstrOf(op) == StackInstr(Size);
    } else {
      assert InstrOf(op) == StackInstrOf(op);
    }
  }

  /** What TOALTSTACK puts away, FROMALTSTACK brings back. */
  lemma AltStack(env: Env, pos: nat, st: State, x: Bytes)
    ensures After(env, pos, 0x6b, st, [x]) == Ok(st.(a := st.a + [x]))
    ensures After(env, pos, 0x6c, st.(a := st.a + [x]), []) == Leaves(st, [x])
    ensures st.a == [] ==> After(env, pos, 0x6c, st, []) == Err(InvalidStackOperation)
  {
    PopLast(st.d, x);
    PopLast(st.a, x);
    assert st.d + [] == st.d;
  }

  // ---- byte strings ----

  lemma SpliceRuns(env: Env, pos: nat, op: byte, bop: SpliceOp, st: State, operands: Items)
    requires InstrOf(op) == SpliceInstr(bop)
    ensures After(env, pos, op, st, operands) ==
            match Splice(bop, st.d + operands)
            case Ok(s) => Ok(st.(d := s))
            case Err(e) => Err(e)
  {
    hide InstrOf, Splice;
  }

  /** CAT joins two strings if the result fits one item. */
  lemma Joining(env: Env, pos: nat, st: State, x: Bytes, y: Bytes)
    ensures After(env, pos, 0x7e, st, [x, y]) ==
            if |x| + |y| > 520 then Err(ElementTooBig) else Leaves(st, [x + y])
  {
    PopTwo(st.d, x, y);
    PopLast(st.d, x);
  }

  lemma SideRuns(env: Env, pos: nat, st: State, x: Bytes, n: int)
    requires ShortNumber(n)
    ensures After(env, pos, 0x80, st, [x, Encode(n)]) ==
            if 0 <= n <= |x| then Leaves(st, [x[..n]]) else Err(InvalidIndex)
    ensures After(env, pos, 0x81, st, [x, Encode(n)]) ==
            if 0 <= n <= |x| then Leaves(st, [x[|x| - n..]]) else Err(InvalidIndex)
  {
    hide Encode, ShortNumber, ReadScriptNum, After;
    SpliceRuns(env, pos, 0x80, SpliceOp.Left, st, [x, Encode(n)]);
    SpliceRuns(env, pos, 0x81, SpliceOp.Right, st, [x, Encode(n)]);
    hide InstrOf;
    ReadsBack(n);
    PopTwo(st.d, x, Encode(n));
    PopLast(st.d, x);
  }

  /** LEFT and RIGHT of lengths that fit cut a string in two, and CAT puts it
      together again; other lengths are refused. */
  lemma Cutting(env: Env, pos: nat, st: State, x: Bytes, n: int)
    requires ShortNumber(n) && ShortNumber(|x| - n)
    ensures 0 <= n <= |x| ==>
              && After(env, pos, 0x80, st, [x, Encode(n)]) == Leaves(st, [x[..n]])
              && After(env, pos, 0x81, st, [x, Encode(|x| - n)]) == Leaves(st, [x[n..]])
              && (|x| <= 520 ==> After(env, pos, 0x7e, st, [x[..n], x[n..]]) == Leaves(st, [x]))
    ensures n < 0 || n > |x| ==>
              && After(env, pos, 0x80, st, [x, Encode(n)]) == Err(InvalidIndex)
              && After(env, pos, 0x81, st, [x, Encode(n)]) == Err(InvalidIndex)
  {
    hide Encode, ShortNumber, After, Leaves;
    SideRuns(env, pos, st, x, n);
    SideRuns(env, pos, st, x, |x| - n);
    if 0 <= n <= |x| {
      Joining(env, pos, st, x[..n], x[n..]);
      assert x[..n] + x[n..] == x;
    }
  }

  /** SUBSTR takes the given number of bytes from the given place, or fails. */
  lemma Substrings(env: Env, pos: nat, st: State, x: Bytes, begin: int, size: int)
    requires ShortNumber(begin) && ShortNumber(size)
    ensures var r := After(env, pos, 0x7f, st, [x, Encode(begin), Encode(size)]);
            if 0 <= begin && 0 <= size && begin + size <= |x| then r == Leaves(st, [x[begin..][..size]])
            else r == Err(InvalidIndex)
  {
    hide Encode, ShortNumber, ReadScriptNum;
    ReadsBack(begin);
    ReadsBack(size);
    PopThree(st.d, x, Encode(begin), Encode(size));
    PopTwo(st.d, x, Encode(begin));
    PopLast(st.d, x);
    if 0 <= begin && 0 <= size && begin + size <= |x| {
      assert x[begin..begin + size] == x[begin..][..size];
    }
  }

  lemma {:induction false} InvertedAt(x: Bytes, i: nat)
    requires i < |x|
    ensures Inverted(x)[i] == 255 - x[i]
  {
    if i > 0 {
      InvertedAt(x[1..], i - 1);
    }
  }

  /** INVERT complements every byte, so doing it twice changes nothing. */
  lemma Inverting(env: Env, pos: nat, st: State, x: Bytes) returns (y: Bytes)
    ensures |y| == |x| && forall i :: 0 <= i < |x| ==> y[i] == 255 - x[i]
    ensures After(env, pos, 0x83, st, [x]) == Leaves(st, [y])
    ensures After(env, pos, 0x83, st, [y]) == Leaves(st, [x])
  {
    y := Inverted(x);
    forall i | 0 <= i < |x|
      ensures y[i] == 255 - x[i] && Inverted(y)[i] == x[i]
    {
      InvertedAt(x, i);
      InvertedAt(y, i);
    }
    assert Inverted(y) == x;
    PopLast(st.d, x);
    PopLast(st.d, y);
  }

  /** REVERSEBYTES turns a string around, so doing it twice changes nothing. */
  lemma Reversing(env: Env, pos: nat, st: State, x: Bytes) returns (y: Bytes)
    ensures |y| == |x| && forall i :: 0 <= i < |x| ==> y[i] == x[|x| - 1 - i]
    ensures After(env, pos, 0xd9, st, [x]) == Leaves(st, [y])
    ensures After(env, pos, 0xd9, st, [y]) == Leaves(st, [x])
  {
    y := Reversed(x);
    assert Reversed(y) == x;
    hide Reversed, After;
    SpliceRuns(env, pos, 0xd9, SpliceOp.ReverseBytes, st, [x]);
    SpliceRuns(env, pos, 0xd9, SpliceOp.ReverseBytes, st, [y]);
    PopLast(st.d, x);
    PopLast(st.d, y);
  }

  /** Bit k of a byte. */
  predicate BitOf(b: byte, k: nat) {
    (b as int / Pow(k)) % 2 == 1
  }

  function Pow(k: nat): (r: int)
    ensures r > 0
  {
    if k == 0 then 1 else 2 * Pow(k - 1)
  }

  lemma {:induction false} BitwiseBit(op: Int64.BitOp, a: nat, b: nat, width: nat, k: nat)
    requires k < width
    ensures Int64.Bitwise(op, a, b, width) >= 0
    ensures (Int64.Bitwise(op, a, b, width) / Pow(k)) % 2 == 1 <==>
              Int64.Bit(op, (a / Pow(k)) % 2 == 1, (b / Pow(k)) % 2 == 1)
    decreases k
  {
    var r, rest := Int64.Bitwise(op, a, b, width), Int64.Bitwise(op, a / 2, b / 2, width - 1);
    assert r == (if Int64.Bit(op, a % 2 == 1, b % 2 == 1) then 1 else 0) + 2 * rest;
    if k > 0 {
      BitwiseBit(op, a / 2, b / 2, width - 1, k - 1);
      HalfFirst(a, Pow(k - 1));
      HalfFirst(b, Pow(k - 1));
      HalfFirst(r, Pow(k - 1));
      assert r / 2 == rest;
    }
  }

  lemma HalfFirst(n: nat, p: int)
    requires p > 0
    ensures n / (2 * p) == n / 2 / p
  {
    var h, q := n / 2, n / 2 / p;
    assert q * p <= h < q * p + p;
    assert 2 * q * p <= n < 2 * q * p + 2 * p;
    QuotientIs(n, 2 * p, q) by {
      assert q * (2 * p) == 2 * q * p;
    }
  }

  lemma {:induction false} CombineAt(op: Int64.BitOp, x: Bytes, y: Bytes, i: nat)
    requires |x| == |y| && i < |x|
    ensures Combine(op, x, y)[i] == CombineByte(op, x[i], y[i])
  {
    hide CombineByte;
    if i > 0 {
      CombineAt(op, x[1..], y[1..], i - 1);
    }
  }

  lemma CombinedBits(op: Int64.BitOp, x: Bytes, y: Bytes, i: nat, k: nat)
    requires |x| == |y| && i < |x| && k < 8
    ensures BitOf(Combine(op, x, y)[i], k) <==> Int64.Bit(op, BitOf(x[i], k), BitOf(y[i], k))
  {
    CombineAt(op, x, y, i);
    hide Combine;
    BitwiseBit(op, x[i] as nat, y[i] as nat, 8, k);
    hide Int64.Bitwise, Pow;
  }

  lemma CombineRuns(env: Env, pos: nat, op: byte, bits: Int64.BitOp, bop: SpliceOp, st: State, x: Bytes, y: Bytes)
    requires InstrOf(op) == SpliceInstr(bop)
    requires bop == match bits case And => ByteAnd case Or => ByteOr case Xor => ByteXor
    ensures After(env, pos, op, st, [x, y]) ==
            if |x| != |y| then Err(InvalidStackOperation) else Leaves(st, [Combine(bits, x, y)])
  {
    hide Combine, InstrOf;
    PopTwo(st.d, x, y);
    PopLast(st.d, x);
  }

  /** AND, OR and XOR of two strings of one length work bit by bit; strings of
      different lengths are refused. */
  lemma BitOpcodes(env: Env, pos: nat, st: State, x: Bytes, y: Bytes)
    returns (conj: Bytes, disj: Bytes, excl: Bytes)
    ensures |x| != |y| ==> forall op: byte :: 0x84 <= op <= 0x86 ==>
              After(env, pos, op, st, [x, y]) == Err(InvalidStackOperation)
    ensures |x| == |y| ==>
              && |conj| == |disj| == |excl| == |x|
              && After(env, pos, 0x84, st, [x, y]) == Leaves(st, [conj])
              && After(env, pos, 0x85, st, [x, y]) == Leaves(st, [disj])
              && After(env, pos, 0x86, st, [x, y]) == Leaves(st, [excl])
              && forall i, k :: 0 <= i < |x| && 0 <= k < 8 ==>
                   && (BitOf(conj[i], k) <==> BitOf(x[i], k) && BitOf(y[i], k))
                   && (BitOf(disj[i], k) <==> BitOf(x[i], k) || BitOf(y[i], k))
                   && (BitOf(excl[i], k) <==> BitOf(x[i], k) != BitOf(y[i], k))
  {
    hide After, Leaves, Combine, BitOf;
    CombineRuns(env, pos, 0x84, Int64.And, ByteAnd, st, x, y);
    CombineRuns(env, pos, 0x85, Int64.Or, ByteOr, st, x, y);
    CombineRuns(env, pos, 0x86, Int64.Xor, ByteXor, st, x, y);
    conj, disj, excl := [], [], [];
    if |x| == |y| {
      conj, disj, excl := Combine(Int64.And, x, y), Combine(Int64.Or, x, y), Combine(Int64.Xor, x, y);
      forall i, k | 0 <= i < |x| && 0 <= k < 8
        ensures BitOf(conj[i], k) <==> BitOf(x[i], k) && BitOf(y[i], k)
        ensures BitOf(disj[i], k) <==> BitOf(x[i], k) || BitOf(y[i], k)
        ensures BitOf(excl[i], k) <==> BitOf(x[i], k) != BitOf(y[i], k)
      {
        CombinedBits(Int64.And, x, y, i, k);
        CombinedBits(Int64.Or, x, y, i, k);
        CombinedBits(Int64.Xor, x, y, i, k);
      }
    }
  }

  /** EQUAL compares bytes; EQUALVERIFY goes on exactly between equal strings. */
  lemma Equality(env: Env, pos: nat, st: State, x: Bytes, y: Bytes)
    ensures After(env, pos, 0x87, st, [x, y]) == Leaves(st, [Flag(x == y)])
    ensures After(env, pos, 0x88, st, [x, y]) == if x == y then Leaves(st, []) else Err(ErrorCode.EqualVerify)
  {
    hide Truthy, Flag;
    SpliceRuns(env, pos, 0x87, SpliceOp.Equal, st, [x, y]);
    PopTwo(st.d, x, y);
    PopLast(st.d, x);
    PopLast(st.d, Flag(x == y));
    FlagTruth(x == y);
    FlagBytes(x == y);
    assert st.d + [] == st.d;
  }

  lemma FlagBytes(b: bool)
    ensures Flag(b) == if b then [1] else []
  {
  }

  lemma FlagTruth(b: bool)
    ensures Truthy(Flag(b)) <==> b
  {
    FlagFits(b);
    TruthyEncode(BoolNum(b));
  }

  // ---- flow ----

  /** VERIFY drops a true item and refuses a false one. */
  lemma Verifying(env: Env, pos: nat, st: State, x: Bytes)
    ensures After(env, pos, 0x69, st, [x]) == if Decode(x) != 0 then Leaves(st, []) else Err(VerifyFailed)
  {
    hide Decode, Truthy;
    TruthIsNonzero(x);
    PopLast(st.d, x);
    assert st.d + [] == st.d;
  }

  /** NOP does nothing, RETURN fails, CODESEPARATOR notes its position. */
  lemma Markers(env: Env, pos: nat, st: State)
    ensures After(env, pos, 0x61, st, []) == Ok(st)
    ensures After(env, pos, 0x6a, st, []) == Err(EarlyReturn)
    ensures After(env, pos, 0xab, st, []) == Ok(st.(codeSep := pos))
  {
    assert st.d + [] == st.d;
  }

  /** In a running branch IF takes one byte of one as true and the empty string as
      false, NOTIF the other way, and both refuse anything else. */
  lemma Branching(env: Env, pos: nat, st: State, x: Bytes)
    requires Executing(st.cond)
    ensures x == [1] ==>
              && After(env, pos, 0x63, st, [x]) == Ok(st.(cond := st.cond + [CondTrue]))
              && After(env, pos, 0x64, st, [x]) == Ok(st.(cond := st.cond + [CondFalse]))
    ensures x == [] ==>
              && After(env, pos, 0x63, st, [x]) == Ok(st.(cond := st.cond + [CondFalse]))
              && After(env, pos, 0x64, st, [x]) == Ok(st.(cond := st.cond + [CondTrue]))
    ensures x != [1] && x != [] ==>
              && After(env, pos, 0x63, st, [x]) == Err(MinimalIf)
              && After(env, pos, 0x64, st, [x]) == Err(MinimalIf)
  {
    PopLast(st.d, x);
  }

  /** In a branch that does not run, both nest without taking an item. */
  lemma SkippedBranching(env: Env, pos: nat, st: State)
    requires !Executing(st.cond)
    ensures After(env, pos, 0x63, st, []) == Ok(st.(cond := st.cond + [CondSkip]))
    ensures After(env, pos, 0x64, st, []) == Ok(st.(cond := st.cond + [CondSkip]))
  {
    assert st.d + [] == st.d;
  }

  /** ELSE turns the branch it stands in around, ENDIF leaves it, and both need one. */
  lemma BranchEnds(env: Env, pos: nat, st: State, outer: seq<Cond>)
    ensures st.cond == outer + [CondTrue] ==> After(env, pos, 0x67, st, []) == Ok(st.(cond := outer + [CondFalse]))
    ensures st.cond == outer + [CondFalse] ==> After(env, pos, 0x67, st, []) == Ok(st.(cond := outer + [CondTrue]))
    ensures st.cond == outer + [CondSkip] ==> After(env, pos, 0x67, st, []) == Ok(st)
    ensures forall c :: st.cond == outer + [c] ==> After(env, pos, 0x68, st, []) == Ok(st.(cond := outer))
    ensures st.cond == [] ==>
              && After(env, pos, 0x67, st, []) == Err(UnbalancedConditional)
              && After(env, pos, 0x68, st, []) == Err(UnbalancedConditional)
  {
    assert st.d + [] == st.d;
    if st.cond != [] {
      assert st.cond == st.cond[..|st.cond| - 1] + [Last(st.cond)];
      assert forall c :: st.cond == outer + [c] ==> st.cond[..|st.cond| - 1] == outer && Last(st.cond) == c;
    }
  }

  // ---- pushes ----

  /** What a push opcode puts on the stack. */
  function Pushed(t: Token): Bytes {
    if t.op == 0 then []
    else if t.op <= 0x4e then t.data
    else if t.op == 0x4f then [0x81]
    else [t.op - 0x50]
  }

  predicate PushToken(t: Token) {
    WellFormed(t) && t.op <= 0x60 && t.op != 0x50
  }

  lemma {:induction false} PushRuns(env: Env, pos: nat, t: Token, st: State)
    requires PushToken(t)
    ensures Effect(env, pos, t.op, t.data, st) == Leaves(st, [Pushed(t)])
  {
    if t.op >= 0x4f {
      SmallNumbers(t.op);
    }
  }

  lemma SmallNumbers(op: byte)
    requires op == 0x4f || 0x51 <= op <= 0x60
    ensures Encode(-1) == [0x81]
    ensures op >= 0x51 ==> Encode(op as int - 0x50) == [op - 0x50]
  {
    assert NatLe(1) == [1];
    if op >= 0x51 {
      assert NatLe((op - 0x50) as int) == [op - 0x50];
    }
  }

  /** A push is minimal exactly when no other push of the same bytes is as short. */
  lemma MinimalIsShortest(t: Token)
    requires PushToken(t) && t.op <= 0x4e && |t.data| <= 520
    ensures MinimalPush(t.op, t.data) <==>
              forall u :: PushToken(u) && Pushed(u) == Pushed(t) && u != t ==> |EncodeToken(u)| > |EncodeToken(t)|
  {
    if MinimalPush(t.op, t.data) {
      forall u | PushToken(u) && Pushed(u) == Pushed(t) && u != t
        ensures |EncodeToken(u)| > |EncodeToken(t)|
      {
        OtherIsLonger(t, u);
      }
    } else {
      var u := ShortestPush(t.data);
      ShortestIsShorter(t);
      assert PushToken(u) && Pushed(u) == Pushed(t) && u != t;
    }
  }

  lemma OtherIsLonger(t: Token, u: Token)
    requires PushToken(t) && t.op <= 0x4e && |t.data| <= 520 && MinimalPush(t.op, t.data)
    requires PushToken(u) && Pushed(u) == Pushed(t) && u != t
    ensures |EncodeToken(u)| > |EncodeToken(t)|
  {
  }

  function ShortestPush(data: Bytes): Token
    requires |data| <= 520
  {
    if data == [] then Token(0, [])
    else if |data| == 1 && 1 <= data[0] <= 16 then Token(0x50 + data[0], [])
    else if data == [0x81] then Token(0x4f, [])
    else if |data| <= 75 then Token(|data| as byte, data)
    else if |data| <= 255 then Token(0x4c, data)
    else Token(0x4d, data)
  }

  lemma ShortestIsShorter(t: Token)
    requires PushToken(t) && t.op <= 0x4e && |t.data| <= 520 && !MinimalPush(t.op, t.data)
    ensures var u := ShortestPush(t.data);
            PushToken(u) && Pushed(u) == t.data == Pushed(t) && u != t && |EncodeToken(u)| <= |EncodeToken(t)|
  {
  }
}
