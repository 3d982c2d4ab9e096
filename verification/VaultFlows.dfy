/** What each piece of the authorization script does to the data stack. */
module VaultFlows {
  import opened Common
  import opened ScriptErrors
  import opened Numbers
  import opened NumberCodec
  import opened Tokenizers
  import opened Stacks
  import opened Instructions
  import opened Transactions
  import opened ScriptVM
  import opened VmInvariants
  import opened StraightLine
  import opened VaultScript
  import Int64

  // ---- numbers and pushes ----

  /** Numbers below 2^63 in magnitude, and products of two of them. */
  predicate Word(n: int) {
    Abs(n) <= MAX_INT64
  }

  lemma WordFits(n: int)
    requires Word(n)
    ensures |Encode(n)| <= 8
  {
    EncodeLength(n, 8);
    TopBits(8);
    Int64.Words();
  }

  lemma ProductFits(a: int, b: int)
    requires Word(a) && Word(b)
    ensures |Encode(a * b)| <= MAX_ELEMENT_SIZE
  {
    Int64.MulAbs(a, b);
    Int64.Words();
    ScaleIsProduct(Abs(a), 63);
    ProductBound(Abs(a), Abs(b), Scale(1, 63));
    ScaleOrder(Abs(a), Scale(1, 63), 63);
    ScaleTwice(1, 63, 63);
    ScaleGrows(1, 126, 7 + 8 * 16);
    TopBits(17);
    EncodeLength(a * b, 17);
  }

  lemma ProductBound(a: nat, b: nat, p: nat)
    requires b <= p
    ensures a * b <= a * p
  {
    Distribute(b, p - b, a);
    assert b * a == a * b && p * a == a * p;
    assert (p - b) * a >= 0;
  }

  lemma ReadEncoded(s: Items, n: int)
    requires |Encode(n)| <= MAX_ELEMENT_SIZE
    ensures PopNumber(s + [Encode(n)]) == Ok((s, n))
  {
    DecodeEncode(n);
    hide Encode, Decode, Minimal;
    assert (s + [Encode(n)])[..|s|] == s;
  }

  lemma ReadSmall(s: Items, n: int)
    requires |Encode(n)| <= 4
    ensures PopScriptNum(s + [Encode(n)]) == Ok((s, n))
  {
    DecodeEncode(n);
    hide Encode, Decode, Minimal;
    assert (s + [Encode(n)])[..|s|] == s;
  }

  lemma FlowInt(env: Env, n: int, s: Items)
    requires Word(n)
    ensures Flow(env, AddInt(n), s) == Ok(s + [Encode(n)])
  {
    DecodeEncode(n);
    if n != 0 && n != -1 && !(1 <= n <= 16) {
      PushedInt(n);
      hide AddInt, Encode, Decode, Minimal, Arrange, Splice, Inspect;
    } else {
      hide Encode, Decode, Minimal, Arrange, Splice, Inspect;
    }
  }

  lemma PushedInt(n: int)
    requires Word(n) && n != 0 && n != -1 && !(1 <= n <= 16)
    ensures 0 < |Encode(n)| <= 8
    ensures AddInt(n) == Token(|Encode(n)| as byte, Encode(n))
    ensures MinimalPush(|Encode(n)| as byte, Encode(n))
  {
    WordFits(n);
    DecodeEncode(n);
    if |Encode(n)| == 1 {
      OneByte(Encode(n));
    }
  }

  lemma OneByte(v: Bytes)
    requires |v| == 1
    ensures v[0] < 128 ==> Decode(v) == v[0] as int
    ensures v[0] == 0x81 ==> Decode(v) == -1
  {
    assert Magnitude(v) == [v[0] % 128];
    LeNatAppendByte([], v[0] % 128);
    assert [] + [v[0] % 128] == [v[0] % 128];
  }

  lemma FlowData(env: Env, data: Bytes, s: Items)
    requires 1 < |data| <= MAX_ELEMENT_SIZE
    ensures Flow(env, AddData(data), s) == Ok(s + [data])
    ensures MinimalPush(AddData(data).op, data) && AddData(data).data == data
  {
  }

  // ---- walking a list of tokens ----

  lemma Peel(env: Env, ts: seq<Token>, k: nat, s: Items)
    requires k < |ts|
    ensures FlowAll(env, ts[k..], s) ==
            match Flow(env, ts[k], s)
            case Ok(next) => FlowAll(env, ts[k + 1..], next)
            case Err(e) => Err(e)
  {
    hide Flow;
    assert ts[k..][1..] == ts[k + 1..];
  }

  lemma Whole(env: Env, ts: seq<Token>, s: Items)
    ensures FlowAll(env, ts[0..], s) == FlowAll(env, ts, s)
    ensures FlowAll(env, ts[|ts|..], s) == Ok(s)
  {
    assert ts[0..] == ts;
  }

  /** A piece of script either stops the run or leaves a known stack. */
  predicate Gives(env: Env, ts: seq<Token>, s: Items, ok: bool, end: Items) {
    var r := FlowAll(env, ts, s);
    if ok then r == Ok(end) else r.Err?
  }

  lemma Chain(env: Env, ts: seq<Token>, us: seq<Token>, s: Items, ok1: bool, mid: Items, ok2: bool, end: Items)
    requires Gives(env, ts, s, ok1, mid)
    requires ok1 ==> Gives(env, us, mid, ok2, end)
    ensures Gives(env, ts + us, s, ok1 && ok2, end)
  {
    hide FlowAll;
    FlowAppend(env, ts, us, s);
  }

  lemma One(env: Env, t: Token, s: Items, ok: bool, end: Items)
    requires var r := Flow(env, t, s); if ok then r == Ok(end) else r.Err?
    ensures Gives(env, [t], s, ok, end)
  {
    hide Flow;
    FlowOne(env, t, s);
  }

  // ---- single opcodes ----

  lemma FlowEqualVerify(env: Env, s: Items, x: Bytes, y: Bytes)
    ensures Flow(env, Op(EQUALVERIFY), s + [x, y]) ==
            if x == y then Ok(s) else Err(ErrorCode.EqualVerify)
  {
    hide Encode, Decode;
    var t := s + [x, y];
    assert t[..|t| - 1] == s + [x];
    assert (s + [x])[..|s|] == s;
    assert (s + [if x == y then [1] else []])[..|s|] == s;
    var one: Bytes := [1];
    assert Truthy(one) by {
      assert one[0] != 0;
    }
  }

  lemma FlowVerify(env: Env, s: Items, b: bool)
    ensures Flow(env, Op(VERIFY), s + [Encode(BoolNum(b))]) ==
            if b then Ok(s) else Err(VerifyFailed)
  {
    TruthyEncode(BoolNum(b));
    hide Encode, Truthy;
    assert (s + [Encode(BoolNum(b))])[..|s|] == s;
  }

  /** A binary opcode on two encoded numbers. */
  lemma FlowBinary(env: Env, op: byte, nop: BinaryOp, s: Items, a: int, b: int)
    requires InstrOf(op) == BinaryInstr(nop)
    requires |Encode(a)| <= MAX_ELEMENT_SIZE && |Encode(b)| <= MAX_ELEMENT_SIZE
    requires BinaryValue(nop, a, b).Ok? && |Encode(BinaryValue(nop, a, b).value)| <= MAX_ELEMENT_SIZE
    ensures Flow(env, Op(op), s + [Encode(a), Encode(b)]) == Ok(s + [Encode(BinaryValue(nop, a, b).value)])
  {
    hide Encode, PopNumber, InstrOf, BinaryValue;
    assert s + [Encode(a), Encode(b)] == (s + [Encode(a)]) + [Encode(b)];
    ReadEncoded(s + [Encode(a)], b);
    ReadEncoded(s, a);
  }

  /** A comparison followed by verify. */
  lemma FlowCompare(env: Env, op: byte, s: Items, a: int, b: int)
    requires op == GREATEROREQUAL || op == LESSOREQUAL
    requires |Encode(a)| <= MAX_ELEMENT_SIZE && |Encode(b)| <= MAX_ELEMENT_SIZE
    ensures FlowAll(env, [Op(op), Op(VERIFY)], s + [Encode(a), Encode(b)]) ==
            if (if op == GREATEROREQUAL then a >= b else a <= b) then Ok(s) else Err(VerifyFailed)
  {
    hide Flow, Encode;
    var holds := if op == GREATEROREQUAL then a >= b else a <= b;
    WordFits(BoolNum(holds));
    FlowBinary(env, op, if op == GREATEROREQUAL then GreaterOrEqual else LessOrEqual, s, a, b);
    FlowVerify(env, s, holds);
    var ts, s0 := [Op(op), Op(VERIFY)], s + [Encode(a), Encode(b)];
    Whole(env, ts, s0);
    Peel(env, ts, 0, s0);
    Peel(env, ts, 1, s + [Encode(BoolNum(holds))]);
    Whole(env, ts, s);
  }

  // ---- fields ----

  /** The value a field opcode pushes. */
  function Field(tx: Tx, op: byte): int {
    if op == 0xd2 then tx.version
    else if op == 0xd3 then tx.lockTime
    else if op == 0xd4 then |tx.ins|
    else |tx.outs|
  }

  lemma FlowField(env: Env, op: byte, s: Items)
    requires WireWidths(env.tx) && op in {0xd2, 0xd3, 0xd4, 0xd5}
    ensures Word(Field(env.tx, op))
    ensures Flow(env, Op(op), s) == Ok(s + [Encode(Field(env.tx, op))])
  {
    hide Encode, PopIndex, PushScript, StrippedSize, InstrOf;
    WordFits(Field(env.tx, op));
    FieldInstr(op);
  }

  lemma FieldInstr(op: byte)
    requires op in {0xd2, 0xd3, 0xd4, 0xd5}
    ensures InstrOf(op) == InspectInstr(if op == 0xd2 then TxVersion else if op == 0xd3 then TxLockTime
                                        else if op == 0xd4 then NumInputs else NumOutputs)
  {
  }

  lemma FieldIsFlow(env: Env, op: byte, n: int, s: Items)
    requires WireWidths(env.tx) && op in {0xd2, 0xd3, 0xd4, 0xd5} && Word(n)
    ensures FlowAll(env, FieldIs(op, n), s) ==
            if Field(env.tx, op) == n then Ok(s) else Err(ErrorCode.EqualVerify)
  {
    var ts, v := FieldIs(op, n), Field(env.tx, op);
    FlowField(env, op, s);
    var s1, s2 := s + [Encode(v)], s + [Encode(v), Encode(n)];
    FlowInt(env, n, s1);
    FlowEqualVerify(env, s, Encode(v), Encode(n));
    EncodeInjective(v, n);
    hide Flow, Encode;
    assert s1 + [Encode(n)] == s2;
    Whole(env, ts, s);
    Peel(env, ts, 0, s);
    Peel(env, ts, 1, s1);
    Peel(env, ts, 2, s2);
  }

  // ---- values and sequences ----

  lemma PopSmallIndex(s: Items, i: int, count: nat)
    requires 0 <= i <= 16
    ensures PopIndex(s + [Encode(i)], count) == if i < count then Ok((s, i)) else Err(InvalidIndex)
  {
    EncodeFits(i);
    ReadSmall(s, i);
  }

  lemma FlowOutputValue(env: Env, s: Items, i: int)
    requires 0 <= i <= 16
    ensures var r := Flow(env, Op(OUTPUTVALUE), s + [Encode(i)]);
            if i < |env.tx.outs| && MoneyRange(env.tx.outs[i].value)
            then r == Ok(s + [Encode(env.tx.outs[i].value)]) else r.Err?
  {
    PopSmallIndex(s, i, |env.tx.outs|);
    if i < |env.tx.outs| && MoneyRange(env.tx.outs[i].value) {
      WordFits(env.tx.outs[i].value);
    }
    hide Encode, PopIndex;
  }

  lemma FlowSequence(env: Env, s: Items, i: int)
    requires 0 <= i <= 16 && WireWidths(env.tx)
    ensures var r := Flow(env, Op(0xcb), s + [Encode(i)]);
            if i < |env.tx.ins|
            then r == Ok(s + [Encode(env.tx.ins[i].sequence)]) && Word(env.tx.ins[i].sequence) else r.Err?
  {
    PopSmallIndex(s, i, |env.tx.ins|);
    if i < |env.tx.ins| {
      assert env.tx.ins[i] in env.tx.ins;
      WordFits(env.tx.ins[i].sequence);
    }
    hide Encode, PopIndex;
  }

  lemma FlowInputValue(env: Env, s: Items, i: int)
    requires 0 <= i <= 16
    ensures var r := Flow(env, Op(0xc9), s + [Encode(i)]);
            if i < |env.tx.ins| && env.fetchPrevOut(env.tx.ins[i].prevOut).Some?
               && MoneyRange(env.fetchPrevOut(env.tx.ins[i].prevOut).value.value)
            then r == Ok(s + [Encode(env.fetchPrevOut(env.tx.ins[i].prevOut).value.value)]) else r.Err?
  {
    hide Encode, PopIndex;
    PopSmallIndex(s, i, |env.tx.ins|);
    if i < |env.tx.ins| && env.fetchPrevOut(env.tx.ins[i].prevOut).Some? {
      var v := env.fetchPrevOut(env.tx.ins[i].prevOut).value.value;
      if MoneyRange(v) {
        WordFits(v);
      }
    }
  }

  lemma SequenceIsFlow(env: Env, n: int, s: Items)
    requires WireWidths(env.tx) && Word(n)
    ensures var r := FlowAll(env, IndexedIs(0, 0xcb, n), s);
            if |env.tx.ins| > 0 && env.tx.ins[0].sequence == n then r == Ok(s) else r.Err?
  {
    FlowInt(env, 0, s);
    FlowSequence(env, s, 0);
    var ok := |env.tx.ins| > 0;
    IndexedTail(env, 0, 0xcb, n, s, ok, if ok then env.tx.ins[0].sequence else 0);
  }

  lemma OutputValueIsFlow(env: Env, i: int, n: int, s: Items)
    requires 0 <= i <= 16 && Word(n)
    ensures var r := FlowAll(env, IndexedIs(i, OUTPUTVALUE, n), s);
            if i < |env.tx.outs| && MoneyRange(env.tx.outs[i].value) && env.tx.outs[i].value == n
            then r == Ok(s) else r.Err?
  {
    FlowInt(env, i, s);
    FlowOutputValue(env, s, i);
    var ok := i < |env.tx.outs| && MoneyRange(env.tx.outs[i].value);
    IndexedTail(env, i, OUTPUTVALUE, n, s, ok, if ok then env.tx.outs[i].value else 0);
  }

  lemma IndexedTail(env: Env, i: int, op: byte, n: int, s: Items, ok: bool, v: int)
    requires Word(n)
    requires Flow(env, AddInt(i), s) == Ok(s + [Encode(i)])
    requires var r := Flow(env, Op(op), s + [Encode(i)]); if ok then r == Ok(s + [Encode(v)]) else r.Err?
    ensures var r := FlowAll(env, IndexedIs(i, op, n), s);
            if ok && v == n then r == Ok(s) else r.Err?
  {
    var ts := IndexedIs(i, op, n);
    var s1, s2, s3 := s + [Encode(i)], s + [Encode(v)], s + [Encode(v), Encode(n)];
    FlowInt(env, n, s2);
    FlowEqualVerify(env, s, Encode(v), Encode(n));
    EncodeInjective(v, n);
    hide Flow, Encode;
    assert s2 + [Encode(n)] == s3;
    Whole(env, ts, s);
    Peel(env, ts, 0, s);
    Peel(env, ts, 1, s1);
    if ok {
      Peel(env, ts, 2, s2);
      Peel(env, ts, 3, s3);
    }
  }

  lemma ValueComparesFlow(env: Env, i: int, n: int, cmp: byte, s: Items)
    requires 0 <= i <= 16 && Word(n) && (cmp == GREATEROREQUAL || cmp == LESSOREQUAL)
    ensures var r := FlowAll(env, ValueCompares(i, n, cmp), s);
            if i < |env.tx.outs| && MoneyRange(env.tx.outs[i].value)
               && (if cmp == GREATEROREQUAL then env.tx.outs[i].value >= n else env.tx.outs[i].value <= n)
            then r == Ok(s) else r.Err?
  {
    hide Flow, Encode;
    var ts := ValueCompares(i, n, cmp);
    FlowInt(env, i, s);
    FlowOutputValue(env, s, i);
    var ok := i < |env.tx.outs| && MoneyRange(env.tx.outs[i].value);
    if ok {
      var v := env.tx.outs[i].value;
      FlowInt(env, n, s + [Encode(v)]);
      WordFits(v);
      WordFits(n);
      FlowCompare(env, cmp, s, v, n);
      assert (s + [Encode(v)]) + [Encode(n)] == s + [Encode(v), Encode(n)];
    }
    Whole(env, ts, s);
    Peel(env, ts, 0, s);
    Peel(env, ts, 1, s + [Encode(i)]);
    if ok {
      Peel(env, ts, 2, s + [Encode(env.tx.outs[i].value)]);
      assert ts[3..] == [Op(cmp), Op(VERIFY)];
    }
  }
}
