/** The machine accepts exactly the stated spending policy. */
module VaultProof {
  import opened Common
  import opened ScriptErrors
  import opened Numbers
  import opened Tokenizers
  import opened Stacks
  import opened Instructions
  import opened Transactions
  import opened ScriptVM
  import opened ComputeLimits
  import opened VmInvariants
  import opened StraightLine
  import opened VaultScript
  import opened VaultFlows
  import opened VaultPieces
  import opened Engines

  // ---- the fold over the program ----

  /** Two checks in a row, both leaving the stack as it was. */
  lemma Gate(env: Env, ts: seq<Token>, us: seq<Token>, s: Items, ok1: bool, ok2: bool)
    requires Gives(env, ts, s, ok1, s)
    requires ok1 ==> Gives(env, us, s, ok2, s)
    ensures Gives(env, ts + us, s, ok1 && ok2, s)
  {
    hide *;
    Chain(env, ts, us, s, ok1, s, ok2, s);
  }

  predicate InputHolds(tx: Tx) {
    && tx.version == 2 && tx.lockTime == 0
    && |tx.ins| == 1 && tx.ins[0].sequence == MAX_SEQUENCE
  }

  lemma ShapeFlow(env: Env, s: Items)
    requires WireWidths(env.tx)
    ensures Gives(env, Shape(), s, InputHolds(env.tx), s)
  {
    hide Flow, FlowAll;
    var a, b, c, d := FieldIs(0xd2, 2), FieldIs(0xd3, 0), FieldIs(0xd4, 1), IndexedIs(0, 0xcb, MAX_SEQUENCE);
    var tx := env.tx;
    FieldIsFlow(env, 0xd2, 2, s);
    FieldIsFlow(env, 0xd3, 0, s);
    FieldIsFlow(env, 0xd4, 1, s);
    SequenceIsFlow(env, MAX_SEQUENCE, s);
    Gate(env, a, b, s, tx.version == 2, tx.lockTime == 0);
    Gate(env, a + b, c, s, tx.version == 2 && tx.lockTime == 0, |tx.ins| == 1);
    Gate(env, a + b + c, d, s, tx.version == 2 && tx.lockTime == 0 && |tx.ins| == 1,
         |tx.ins| > 0 && tx.ins[0].sequence == MAX_SEQUENCE);
  }

  predicate RecipientHolds(tx: Tx, p: Policy) {
    && |tx.outs| > 0
    && MoneyRange(tx.outs[0].value) && p.dust <= tx.outs[0].value <= p.cap
    && IsWitnessProgram(tx.outs[0].pkScript)
  }

  lemma RecipientPartFlow(env: Env, p: Policy, s: Items)
    requires ValidPolicy(p)
    ensures Gives(env, ValueCompares(0, p.dust, GREATEROREQUAL) + ValueCompares(0, p.cap, LESSOREQUAL)
                       + RecipientIsNative, s, RecipientHolds(env.tx, p), s)
  {
    hide Flow, FlowAll;
    var tx := env.tx;
    var a, b := ValueCompares(0, p.dust, GREATEROREQUAL), ValueCompares(0, p.cap, LESSOREQUAL);
    var ok1 := |tx.outs| > 0 && MoneyRange(tx.outs[0].value) && tx.outs[0].value >= p.dust;
    var ok2 := |tx.outs| > 0 && MoneyRange(tx.outs[0].value) && tx.outs[0].value <= p.cap;
    ValueComparesFlow(env, 0, p.dust, GREATEROREQUAL, s);
    ValueComparesFlow(env, 0, p.cap, LESSOREQUAL, s);
    Gate(env, a, b, s, ok1, ok2);
    var ok3 := |tx.outs| > 0 && IsWitnessProgram(tx.outs[0].pkScript);
    if ok1 {
      RecipientFlow(env, s);
    }
    Gate(env, a + b, RecipientIsNative, s, ok1 && ok2, ok3);
  }

  predicate ChangeHolds(env: Env, p: Policy)
    requires |env.tx.ins| == 1
  {
    var outs, vtxo := env.tx.outs, env.fetchVtxoScript(env.tx.ins[0].prevOut);
    && |outs| == 3
    && MoneyRange(outs[1].value) && p.dust <= outs[1].value
    && vtxo.Some? && SameTaproot(outs[1].pkScript, vtxo.value)
    && outs[2].value == 0
  }

  function ChangePart(p: Policy): seq<Token> {
    FieldIs(0xd5, 3) + ValueCompares(1, p.dust, GREATEROREQUAL) + ChangeIsVault + IndexedIs(2, OUTPUTVALUE, 0)
  }

  lemma ChangePartFlow(env: Env, p: Policy, s: Items)
    requires ValidPolicy(p) && WireWidths(env.tx) && |env.tx.ins| == 1 && env.txIdx == 0
    ensures Gives(env, ChangePart(p), s, ChangeHolds(env, p), s)
  {
    hide Flow, FlowAll, SameTaproot, ChangeIsVault;
    var tx := env.tx;
    var a, b, c, d := FieldIs(0xd5, 3), ValueCompares(1, p.dust, GREATEROREQUAL), ChangeIsVault,
                      IndexedIs(2, OUTPUTVALUE, 0);
    var vtxo := env.fetchVtxoScript(tx.ins[0].prevOut);
    var ok1 := |tx.outs| == 3;
    var ok2 := ok1 && MoneyRange(tx.outs[1].value) && tx.outs[1].value >= p.dust;
    var ok3 := ok1 && vtxo.Some? && SameTaproot(tx.outs[1].pkScript, vtxo.value);
    var ok4 := ok1 && tx.outs[2].value == 0;
    FieldIsFlow(env, 0xd5, 3, s);
    ValueComparesFlow(env, 1, p.dust, GREATEROREQUAL, s);
    Gate(env, a, b, s, ok1, ok2);
    if ok1 {
      ChangeFlow(env, s);
    }
    Gate(env, a + b, c, s, ok1 && ok2, ok3);
    OutputValueIsFlow(env, 2, 0, s);
    Gate(env, a + b + c, d, s, ok1 && ok2 && ok3, ok4);
  }

  lemma OutputsFlow(env: Env, p: Policy, s: Items)
    requires ValidPolicy(p) && WireWidths(env.tx) && |env.tx.ins| == 1 && env.txIdx == 0
    ensures Gives(env, Outputs(p), s, RecipientHolds(env.tx, p) && ChangeHolds(env, p), s)
  {
    RecipientPartFlow(env, p, s);
    ChangePartFlow(env, p, s);
    var ts := ValueCompares(0, p.dust, GREATEROREQUAL) + ValueCompares(0, p.cap, LESSOREQUAL) + RecipientIsNative;
    Regroup(ts, FieldIs(0xd5, 3), ValueCompares(1, p.dust, GREATEROREQUAL), ChangeIsVault,
            IndexedIs(2, OUTPUTVALUE, 0));
    hide Gives, FieldIs, ValueCompares, IndexedIs, RecipientHolds, ChangeHolds;
    Gate(env, ts, ChangePart(p), s, RecipientHolds(env.tx, p), ChangeHolds(env, p));
  }

  lemma Regroup<T>(ts: seq<T>, a: seq<T>, b: seq<T>, c: seq<T>, d: seq<T>)
    ensures ts + a + b + c + d == ts + (a + b + c + d)
  {
    assert ts + (a + b + c + d) == ts + (a + b + c) + d;
    assert ts + (a + b + c) == ts + (a + b) + c;
    assert ts + (a + b) == ts + a + b;
  }

  lemma FeesFlow(env: Env, p: Policy, s: Items)
    requires ValidPolicy(p) && WireWidths(env.tx) && ShapeHolds(env.tx)
    requires MoneyRange(env.tx.outs[0].value) && MoneyRange(env.tx.outs[1].value)
    ensures Gives(env, Fees(p), s, FeesHold(env, p), s)
  {
    hide Flow, FlowAll, Encode, VBytes;
    ComputeFeeFlow(env, s);
    var ok1 := ValuesInRange(env);
    var fee := if ok1 then Fee(env) else 0;
    var t := s + [Encode(fee)];
    var a, b, c, d := ComputeFee, FeeCompares(0, GREATEROREQUAL), FeeCompares(p.feeCeiling, LESSOREQUAL),
                      FeerateHolds(p.feerate);
    Ignored(env, a, s, ok1, s, t);
    FeeComparesFlow(env, 0, GREATEROREQUAL, s, fee);
    FeeComparesFlow(env, p.feeCeiling, LESSOREQUAL, s, fee);
    FeerateFlow(env, p.feerate, s, fee);
    var ok4 := fee <= p.feerate * VBytes(env.tx);
    Gate(env, b, c, t, fee >= 0, fee <= p.feeCeiling);
    Chain(env, b + c, d, t, fee >= 0 && fee <= p.feeCeiling, t, ok4, s);
    Chain(env, a, b + c + d, s, ok1, t, 0 <= fee <= p.feeCeiling && ok4, s);
    assert a + b + c + d == a + (b + c + d) by {
      hide *;
      assert a + (b + c + d) == a + (b + c) + d;
      assert a + (b + c) == a + b + c;
    }
  }

  function Checks(p: Policy, prefix: Bytes): seq<Token> {
    Shape() + Outputs(p) + PacketIsExact(prefix) + Fees(p)
  }

  /** Everything before the signature passes exactly when the policy holds, and
      then leaves the stack as it found it. */
  lemma ChecksFlow(env: Env, p: Policy, prefix: Bytes, s: Items)
    requires ValidPolicy(p) && WireWidths(env.tx) && env.txIdx < |env.tx.ins|
    requires 1 < |prefix| <= MAX_ELEMENT_SIZE
    ensures Gives(env, Checks(p, prefix), s, PolicyHolds(env, p, prefix), s)
  {
    hide Flow, FlowAll;
    ShapeFlow(env, s);
    var ok1 := InputHolds(env.tx);
    var ok2 := ok1 && RecipientHolds(env.tx, p) && ChangeHolds(env, p);
    var ok3 := ok2 && PacketHolds(env, prefix);
    var ok4 := ok3 && FeesHold(env, p);
    if ok1 {
      OutputsFlow(env, p, s);
    }
    if ok2 {
      PacketFlow(env, prefix, s);
      FeesFlow(env, p, s);
    }
    assert ok4 == PolicyHolds(env, p, prefix);
    hide *;
    Gate(env, Shape(), Outputs(p), s, ok1, ok2);
    Gate(env, Shape() + Outputs(p), PacketIsExact(prefix), s, ok2, ok3);
    Gate(env, Shape() + Outputs(p) + PacketIsExact(prefix), Fees(p), s, ok3, ok4);
    ChecksAre(p, prefix);
  }

  lemma ChecksAre(p: Policy, prefix: Bytes)
    ensures Checks(p, prefix) == Shape() + Outputs(p) + PacketIsExact(prefix) + Fees(p)
  {
    hide Shape, Outputs, PacketIsExact, Fees;
  }

  /** The fold of the whole program leaves one true item exactly under the policy
      and the signature. */
  lemma ProgramFlow(env: Env, key: Bytes, p: Policy, prefix: Bytes, s: Items)
    requires ValidPolicy(p) && WireWidths(env.tx) && env.txIdx < |env.tx.ins|
    requires 1 < |prefix| <= MAX_ELEMENT_SIZE && |key| == 33
    ensures var r := FlowAll(env, Program(key, p, prefix), s);
            (r.Ok? && |r.value| == 1 && Truthy(r.value[0]))
            <==> |s| == 1 && PolicyHolds(env, p, prefix) && SignatureHolds(env, key, s[0])
  {
    ChecksFlow(env, p, prefix, s);
    SignatureFlow(env, key, s);
    hide Flow, FlowAll, PolicyHolds, SignatureHolds, DirectSignature, Shape, Outputs, PacketIsExact, Fees, Truthy;
    FlowAppend(env, Checks(p, prefix), DirectSignature(key), s);
  }

  // ---- the program's tokens ----

  /** A token the machine's own checks never refuse. */
  predicate Good(t: Token) {
    && WellFormed(t) && !Control(InstrOf(t.op)) && t.op != OP_VERIF && t.op != OP_VERNOTIF
    && |t.data| <= 75 && (t.op <= OP_PUSHDATA4 ==> MinimalPush(t.op, t.data))
    && Modest(InstrOf(t.op))
  }

  predicate Unlimited(op: byte) {
    op !in DefaultComputeLimits()
  }

  predicate AllFree(ts: seq<Token>) {
    forall t :: t in ts ==> Good(t) && Unlimited(t.op)
  }

  lemma GoodInt(n: int)
    requires Word(n)
    ensures Good(AddInt(n)) && Unlimited(AddInt(n).op)
  {
    if n != 0 && n != -1 && !(1 <= n <= 16) {
      PushedInt(n);
      hide Encode, AddInt;
    }
  }

  lemma GoodData(data: Bytes)
    requires 1 < |data| <= 75
    ensures Good(AddData(data)) && Unlimited(AddData(data).op)
  {
  }

  predicate InspectOpcode(op: byte) {
    op in {0xd2, 0xd3, 0xd4, 0xd5, 0xcb, 0xcf, 0xd1, 0xcd, 0xca, 0xf4, 0xc9, 0xd6, 0xf6}
  }

  predicate NumberOpcode(op: byte) {
    op in {0x93, 0x94, 0x95, 0x96, 0xa1, 0xa2}
  }

  predicate PlainOpcode(op: byte) {
    op in {0x88, 0x69, 0x75, 0x76, 0x7c, 0x7e, 0xa8, 0x00}
  }

  lemma GoodOp(op: byte)
    requires InspectOpcode(op) || NumberOpcode(op) || PlainOpcode(op)
    ensures Good(Op(op)) && Unlimited(op)
  {
    hide InstrOf;
    if InspectOpcode(op) {
      InspectInstr(op);
    } else if NumberOpcode(op) {
      NumberInstr(op);
    } else {
      PlainInstr(op);
    }
  }

  lemma InspectInstr(op: byte)
    requires InspectOpcode(op)
    ensures InstrOf(op).InspectInstr? || InstrOf(op).InspectPacket? || InstrOf(op).Sighash?
  {
  }

  lemma NumberInstr(op: byte)
    requires NumberOpcode(op)
    ensures InstrOf(op).BinaryInstr?
  {
  }

  lemma PlainInstr(op: byte)
    requires PlainOpcode(op)
    ensures !Control(InstrOf(op)) && Modest(InstrOf(op))
  {
  }

  lemma FreeAppend(ts: seq<Token>, us: seq<Token>)
    requires AllFree(ts) && AllFree(us)
    ensures AllFree(ts + us)
  {
    hide Good, Unlimited;
  }

  lemma FieldIsFree(op: byte, n: int)
    requires op in {0xd2, 0xd3, 0xd4, 0xd5} && Word(n)
    ensures AllFree(FieldIs(op, n)) && |FieldIs(op, n)| == 3
  {
    hide Good, Unlimited, AddInt;
    GoodInt(n);
    GoodOp(op);
    GoodOp(EQUALVERIFY);
  }

  lemma IndexedIsFree(i: int, op: byte, n: int)
    requires op in {0xcb, 0xcf} && Word(n) && Word(i)
    ensures AllFree(IndexedIs(i, op, n)) && |IndexedIs(i, op, n)| == 4
  {
    hide Good, Unlimited, AddInt;
    GoodInt(i);
    GoodInt(n);
    GoodOp(op);
    GoodOp(EQUALVERIFY);
  }

  lemma ValueComparesFree(i: int, n: int, cmp: byte)
    requires cmp in {GREATEROREQUAL, LESSOREQUAL} && Word(n) && Word(i)
    ensures AllFree(ValueCompares(i, n, cmp)) && |ValueCompares(i, n, cmp)| == 5
  {
    hide Good, Unlimited, AddInt;
    GoodInt(i);
    GoodInt(n);
    GoodOp(OUTPUTVALUE);
    GoodOp(cmp);
    GoodOp(VERIFY);
  }

  lemma RecipientFree()
    ensures AllFree(RecipientIsNative) && |RecipientIsNative| == 6
  {
    hide Good, Unlimited, AddInt;
    GoodInt(0);
    GoodOp(OUTPUTSCRIPT);
    GoodOp(GREATEROREQUAL);
    GoodOp(VERIFY);
    GoodOp(0x75);
  }

  lemma ChangeFree()
    ensures AllFree(ChangeIsVault) && |ChangeIsVault| == 9
  {
    hide Good, Unlimited, AddInt;
    GoodInt(1);
    GoodOp(OUTPUTSCRIPT);
    GoodOp(EQUALVERIFY);
    GoodOp(0xcd);
    GoodOp(0xca);
  }

  lemma PacketFree(prefix: Bytes)
    requires 1 < |prefix| <= 75
    ensures AllFree(PacketIsExact(prefix)) && |PacketIsExact(prefix)| == 12
  {
    hide Good, Unlimited, AddInt, AddData;
    GoodInt(1);
    GoodInt(2);
    GoodInt(-1);
    GoodData(prefix);
    GoodOp(0xf4);
    GoodOp(VERIFY);
    GoodOp(0x7c);
    GoodOp(0x7e);
    GoodOp(0xa8);
    GoodOp(OUTPUTSCRIPT);
    GoodOp(EQUALVERIFY);
  }

  lemma ComputeFeeFree()
    ensures AllFree(ComputeFee) && |ComputeFee| == 8
  {
    hide Good, Unlimited, AddInt;
    GoodInt(0);
    GoodInt(1);
    GoodOp(0xc9);
    GoodOp(OUTPUTVALUE);
    GoodOp(0x94);
  }

  lemma FeeComparesFree(n: int, cmp: byte)
    requires cmp in {GREATEROREQUAL, LESSOREQUAL} && Word(n)
    ensures AllFree(FeeCompares(n, cmp)) && |FeeCompares(n, cmp)| == 4
  {
    hide Good, Unlimited, AddInt;
    GoodInt(n);
    GoodOp(0x76);
    GoodOp(cmp);
    GoodOp(VERIFY);
  }

  lemma FeerateFree(feerate: int)
    requires Word(feerate)
    ensures AllFree(FeerateHolds(feerate)) && |FeerateHolds(feerate)| == 13
  {
    hide Good, Unlimited, AddInt;
    GoodInt(ROUTINE_WITNESS_BYTES);
    GoodInt(3);
    GoodInt(4);
    GoodInt(feerate);
    GoodOp(0x76);
    GoodOp(0xd6);
    GoodOp(0x93);
    GoodOp(0x96);
    GoodOp(0x95);
    GoodOp(LESSOREQUAL);
    GoodOp(VERIFY);
    GoodOp(0x75);
  }

  lemma SignatureFree(key: Bytes)
    requires |key| == 33
    ensures AllFree(DirectSignature(key)[..3]) && |DirectSignature(key)| == 4
    ensures Good(DirectSignature(key)[3]) && DirectSignature(key)[3].op == OP_CHECKSIGFROMSTACK
  {
    hide Good, Unlimited, AddData;
    GoodData([0x11] + key);
    GoodOp(OP_0);
    GoodOp(0xf6);
    GoodCheckSig();
  }

  lemma GoodCheckSig()
    ensures Good(Op(OP_CHECKSIGFROMSTACK))
  {
  }

  lemma ShapeFree()
    ensures AllFree(Shape()) && |Shape()| == 13
  {
    hide AllFree, FieldIs, IndexedIs;
    FieldIsFree(0xd2, 2);
    FieldIsFree(0xd3, 0);
    FieldIsFree(0xd4, 1);
    IndexedIsFree(0, 0xcb, MAX_SEQUENCE);
    var a, b, c, d := FieldIs(0xd2, 2), FieldIs(0xd3, 0), FieldIs(0xd4, 1), IndexedIs(0, 0xcb, MAX_SEQUENCE);
    FreeAppend(a, b);
    FreeAppend(a + b, c);
    FreeAppend(a + b + c, d);
  }

  lemma OutputsFree(p: Policy)
    requires ValidPolicy(p)
    ensures AllFree(Outputs(p)) && |Outputs(p)| == 37
  {
    hide AllFree, FieldIs, IndexedIs, ValueCompares, RecipientIsNative, ChangeIsVault;
    ValueComparesFree(0, p.dust, GREATEROREQUAL);
    ValueComparesFree(0, p.cap, LESSOREQUAL);
    RecipientFree();
    FieldIsFree(0xd5, 3);
    ValueComparesFree(1, p.dust, GREATEROREQUAL);
    ChangeFree();
    IndexedIsFree(2, OUTPUTVALUE, 0);
    var a, b := ValueCompares(0, p.dust, GREATEROREQUAL), ValueCompares(0, p.cap, LESSOREQUAL);
    var c, d := FieldIs(0xd5, 3), ValueCompares(1, p.dust, GREATEROREQUAL);
    FreeAppend(a, b);
    FreeAppend(a + b, RecipientIsNative);
    FreeAppend(a + b + RecipientIsNative, c);
    FreeAppend(a + b + RecipientIsNative + c, d);
    FreeAppend(a + b + RecipientIsNative + c + d, ChangeIsVault);
    FreeAppend(a + b + RecipientIsNative + c + d + ChangeIsVault, IndexedIs(2, OUTPUTVALUE, 0));
  }

  lemma FeesFree(p: Policy)
    requires ValidPolicy(p)
    ensures AllFree(Fees(p)) && |Fees(p)| == 29
  {
    hide AllFree, FeeCompares, FeerateHolds, ComputeFee;
    ComputeFeeFree();
    FeeComparesFree(0, GREATEROREQUAL);
    FeeComparesFree(p.feeCeiling, LESSOREQUAL);
    FeerateFree(p.feerate);
    var b, c := FeeCompares(0, GREATEROREQUAL), FeeCompares(p.feeCeiling, LESSOREQUAL);
    FreeAppend(ComputeFee, b);
    FreeAppend(ComputeFee + b, c);
    FreeAppend(ComputeFee + b + c, FeerateHolds(p.feerate));
  }

  /** All but the last token of the program are free of budget. */
  lemma ProgramFree(key: Bytes, p: Policy, prefix: Bytes)
    requires ValidPolicy(p) && |key| == 33 && 1 < |prefix| <= 75
    ensures var ts := Program(key, p, prefix);
            |ts| == 95 && AllFree(ts[..94]) && Good(ts[94]) && ts[94].op == OP_CHECKSIGFROMSTACK
  {
    hide *;
    ChecksFree(p, prefix);
    SignatureFree(key);
    FreeAppend(Checks(p, prefix), DirectSignature(key)[..3]);
    ProgramIs(key, p, prefix);
    SplitLast(Checks(p, prefix), DirectSignature(key));
  }

  lemma ChecksFree(p: Policy, prefix: Bytes)
    requires ValidPolicy(p) && 1 < |prefix| <= 75
    ensures AllFree(Checks(p, prefix)) && |Checks(p, prefix)| == 91
  {
    hide AllFree, Shape, Outputs, PacketIsExact, Fees;
    ShapeFree();
    OutputsFree(p);
    PacketFree(prefix);
    FeesFree(p);
    FreeAppend(Shape(), Outputs(p));
    FreeAppend(Shape() + Outputs(p), PacketIsExact(prefix));
    FreeAppend(Shape() + Outputs(p) + PacketIsExact(prefix), Fees(p));
  }

  lemma ProgramIs(key: Bytes, p: Policy, prefix: Bytes)
    ensures Program(key, p, prefix) == Checks(p, prefix) + DirectSignature(key)
  {
    hide Shape, Outputs, PacketIsExact, Fees, DirectSignature;
  }

  lemma SplitLast<T>(a: seq<T>, b: seq<T>)
    requires b != []
    ensures (a + b)[..|a| + |b| - 1] == a + b[..|b| - 1]
    ensures (a + b)[|a| + |b| - 1] == b[|b| - 1]
  {
  }

  // ---- the machine's limits cannot interfere ----

  predicate AllGood(ts: seq<Token>) {
    forall t :: t in ts ==> Good(t)
  }

  lemma ProgramGood(key: Bytes, p: Policy, prefix: Bytes)
    requires ValidPolicy(p) && |key| == 33 && 1 < |prefix| <= 75
    ensures AllGood(Program(key, p, prefix)) && |Program(key, p, prefix)| == 95
  {
    ProgramFree(key, p, prefix);
    var ts := Program(key, p, prefix);
    hide Good, Unlimited, Program;
    assert ts == ts[..94] + [ts[94]];
  }

  lemma GoodIsAccepted(ts: seq<Token>)
    requires AllGood(ts)
    ensures Straight(ts) && GoodPushes(ts) && AllModest(ts)
    ensures forall t :: t in ts ==> WellFormed(t)
  {
    hide InstrOf, Control, Modest, MinimalPush, WellFormed;
  }

  lemma {:induction false} EncodedSize(ts: seq<Token>)
    requires AllGood(ts)
    ensures |EncodeTokens(ts)| <= 80 * |ts|
  {
    if ts != [] {
      assert ts[0] in ts;
      EncodedSize(ts[1..]);
    }
  }

  /** Limits are kept for the listed opcodes only, and one more signature check
      is allowed. */
  predicate BudgetAllows(limits: Limits, counts: Counts) {
    && limits.Keys <= DefaultComputeLimits().Keys
    && ChargeTable(limits, counts, OP_CHECKSIGFROMSTACK).Ok?
  }

  lemma {:induction false} OneCharge(limits: Limits, counts: Counts, ts: seq<Token>)
    requires limits.Keys <= DefaultComputeLimits().Keys
    requires ts != [] && AllFree(ts[..|ts| - 1])
    ensures ChargeAll(limits, counts, Ops(ts)) == ChargeTable(limits, counts, Last(ts).op)
    decreases |ts|
  {
    hide Good, ChargeTable;
    assert Ops(ts)[0] == ts[0].op && Ops(ts)[1..] == Ops(ts[1..]);
    if |ts| == 1 {
      assert Ops(ts) == [ts[0].op];
    } else {
      assert ts[..|ts| - 1][0] == ts[0];
      FreeOfCharge(limits, counts, ts[0].op);
      assert ts[1..][..|ts| - 2] == ts[..|ts| - 1][1..];
      OneCharge(limits, counts, ts[1..]);
    }
  }

  lemma FreeOfCharge(limits: Limits, counts: Counts, op: byte)
    requires limits.Keys <= DefaultComputeLimits().Keys && Unlimited(op)
    ensures ChargeTable(limits, counts, op) == Ok(counts)
  {
    hide DefaultComputeLimits;
    assert op !in DefaultComputeLimits().Keys;
  }

  // ---- the main result ----

  lemma OutcomeOfScript(env: Env, script: Bytes, st: State)
    requires script != []
    ensures Outcome(env, [[], script], st) ==
            match RunScript(env, script, st)
            case Err(e) => Err(e)
            case Ok(end) => Verdict(end)
  {
    hide RunScript, Verdict;
    var all: seq<Bytes>, one: seq<Bytes> := [[], script], [script];
    assert all[0] == [] && all[1..] == one && one[0] == script && one[1..] == [];
    assert RunScripts(env, all, st) == RunScripts(env, one, st);
    var r := RunScript(env, script, st);
    if r.Ok? {
      assert RunScripts(env, one, st) == RunScripts(env, [], r.value) == r;
    }
  }

  /** What the arkade script returns when the machine runs it on a stack. */
  lemma EvaluateProgram(env: Env, ts: seq<Token>, w: Items, shared: Counts)
    requires AllGood(ts) && 0 < |ts| <= 95
    ensures Evaluate(env, [], EncodeTokens(ts), w, shared) ==
            match RunTokens(env, 0, ts, NewState(w, shared))
            case Err(e) => Err(e)
            case Ok(end) => if end.cond != [] then Err(UnbalancedConditional) else Verdict(end)
  {
    hide RunTokens, AllGood, RunScripts, Outcome, Truthy;
    GoodIsAccepted(ts);
    TokenizeEncoded(ts);
    EncodedSize(ts);
    var script := EncodeTokens(ts);
    NothingParses();
    assert script != [];
    assert Evaluate(env, [], script, w, shared) == Outcome(env, [[], script], NewState(w, shared));
    OutcomeOfScript(env, script, NewState(w, shared));
  }

  lemma NothingParses()
    ensures Tokenize([]) == Ok([])
  {
  }

  // ---- the main result ----

  /** A successful run computes the fold, and a successful fold runs. */
  lemma ProgramRuns(env: Env, ts: seq<Token>, w: Items, shared: Counts)
    requires AllGood(ts) && ts != [] && |ts| <= 95 && AllFree(ts[..|ts| - 1]) && Last(ts).op == OP_CHECKSIGFROMSTACK
    requires BoundedEnv(env)
    requires BudgetAllows(env.limits, map[]) && BudgetAllows(env.sharedLimits, shared)
    ensures var r := RunTokens(env, 0, ts, NewState(w, shared));
            && (r.Ok? ==> FlowAll(env, ts, w) == Ok(r.value.d) && r.value.cond == [])
            && (FlowAll(env, ts, w).Ok? && |w| == 1 && |w[0]| == 64 ==> r.Ok?)
  {
    hide RunTokens, FlowAll, BoundedEnv, AllGood, AllFree, Good, StepToken, ChargeAll, ChargeTable, Ops;
    var st := NewState(w, shared);
    GoodIsAccepted(ts);
    if RunTokens(env, 0, ts, st).Ok? {
      RunIsFlow(env, 0, ts, st);
    } else if FlowAll(env, ts, w).Ok? && |w| == 1 && |w[0]| == 64 {
      OneCharge(env.limits, map[], ts);
      OneCharge(env.sharedLimits, shared, ts);
      FlowIsRun(env, 0, ts, st);
    }
  }

  /** The machine accepts the authorization script exactly when the transaction
      meets the policy and the stack is one valid signature over it. */
  lemma AcceptsExactlyPolicy(env: Env, key: Bytes, p: Policy, prefix: Bytes, w: Items, shared: Counts)
    requires ValidPolicy(p) && |key| == 33 && 1 < |prefix| <= 75
    requires BoundedEnv(env)
    requires BudgetAllows(env.limits, map[]) && BudgetAllows(env.sharedLimits, shared)
    ensures Evaluate(env, [], BuildScript(key, p, prefix), w, shared).Ok?
            <==> |w| == 1 && PolicyHolds(env, p, prefix) && SignatureHolds(env, key, w[0])
  {
    hide RunTokens, FlowAll, Program, PolicyHolds, AllGood, AllFree, Truthy, Good, StepToken, Evaluate;
    var ts := Program(key, p, prefix);
    ProgramGood(key, p, prefix);
    ProgramFree(key, p, prefix);
    EvaluateProgram(env, ts, w, shared);
    ProgramFlow(env, key, p, prefix, w);
    ProgramRuns(env, ts, w, shared);
  }
}