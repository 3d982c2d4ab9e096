/** The longer pieces of the authorization script: scripts, packet, fees and
    signature. */
module VaultPieces {
  import opened Common
  import opened ScriptErrors
  import opened Numbers
  import opened NumberCodec
  import opened Tokenizers
  import opened Stacks
  import opened Instructions
  import opened Transactions
  import opened ScriptVM
  import opened VmInvariants
  import opened StraightLine
  import opened VaultScript
  import opened VaultFlows
  import Int64

  const DUP: byte := 0x76
  const DROP: byte := 0x75
  const SWAP: byte := 0x7c
  const CAT: byte := 0x7e
  const SHA256: byte := 0xa8
  const INPUTSCRIPT: byte := 0xca
  const INPUTVALUE: byte := 0xc9

  // ---- single opcodes ----

  lemma StackOpcodes()
    ensures InstrOf(DUP) == StackInstr(Dup(1)) && InstrOf(DROP) == StackInstr(Drop(1))
    ensures InstrOf(SWAP) == StackInstr(Swap(1)) && InstrOf(CAT) == SpliceInstr(Cat)
    ensures InstrOf(SHA256) == HashInstr(Sha256) && InstrOf(OP_0) == PushEmpty
  {
  }

  lemma InspectOpcodes()
    ensures InstrOf(OUTPUTSCRIPT) == InspectInstr(OutputScript) && InstrOf(INPUTSCRIPT) == InspectInstr(InputScript)
    ensures InstrOf(0xcd) == InspectInstr(CurrentIndex) && InstrOf(0xd6) == InspectInstr(TxWeight)
    ensures InstrOf(0xf4) == InspectPacket && InstrOf(0xf6) == Sighash
    ensures InstrOf(OP_CHECKSIGFROMSTACK) == CheckSigFromStack
  {
  }

  lemma ArithmeticOpcodes()
    ensures InstrOf(0x93) == BinaryInstr(Add) && InstrOf(0x94) == BinaryInstr(Sub)
    ensures InstrOf(0x95) == BinaryInstr(Mul) && InstrOf(0x96) == BinaryInstr(Div)
  {
  }

  /** The function behind an opcode of each family the script uses. */
  lemma FlowFamily(env: Env, t: Token, s: Items)
    ensures InstrOf(t.op).StackInstr? ==> Flow(env, t, s) == Arrange(InstrOf(t.op).sop, s)
    ensures InstrOf(t.op).SpliceInstr? ==> Flow(env, t, s) == Splice(InstrOf(t.op).bop, s)
    ensures InstrOf(t.op).HashInstr? ==> Flow(env, t, s) == Hashed(env, InstrOf(t.op).hop, s)
    ensures InstrOf(t.op).InspectInstr? ==> Flow(env, t, s) == Inspect(env, InstrOf(t.op).iop, s)
    ensures InstrOf(t.op).InspectPacket? ==> Flow(env, t, s) == InspectPackets(env, s)
    ensures InstrOf(t.op).Sighash? ==> Flow(env, t, s) == PushSighash(env, BLANK_CODE_SEP, s)
    ensures InstrOf(t.op).CheckSigFromStack? ==> Flow(env, t, s) == CheckStackSig(env, s)
  {
    hide InstrOf, Arrange, Splice, Hashed, Inspect, InspectPackets, PushSighash, CheckStackSig;
    hide Unary, Binary, WithinRange, Shifted, ToFixed, ToMinimal, Digested, Verified, EqualVerified, NumEqualVerified;
  }

  lemma FlowDup(env: Env, s: Items, x: Bytes)
    ensures Flow(env, Op(DUP), s + [x]) == Ok(s + [x, x])
  {
    StackOpcodes();
    FlowFamily(env, Op(DUP), s + [x]);
    hide InstrOf, Flow;
    assert Top(s + [x], 1) == [x];
    assert s + [x] + [x] == s + [x, x];
  }

  lemma FlowDrop(env: Env, s: Items, x: Bytes)
    ensures Flow(env, Op(DROP), s + [x]) == Ok(s)
  {
    StackOpcodes();
    FlowFamily(env, Op(DROP), s + [x]);
    hide InstrOf, Flow;
    assert Below(s + [x], 1) == s;
  }

  lemma FlowSwap(env: Env, s: Items, x: Bytes, y: Bytes)
    ensures Flow(env, Op(SWAP), s + [x, y]) == Ok(s + [y, x])
  {
    StackOpcodes();
    FlowFamily(env, Op(SWAP), s + [x, y]);
    hide InstrOf, Flow;
    var t := s + [x, y];
    assert Below(t, 2) + Top(t, 1) + Below(t, 1)[|t| - 2..] == s + [y, x];
  }

  lemma FlowCat(env: Env, s: Items, x: Bytes, y: Bytes)
    ensures Flow(env, Op(CAT), s + [x, y]) ==
            if |x| + |y| > MAX_ELEMENT_SIZE then Err(ElementTooBig) else Ok(s + [x + y])
  {
    StackOpcodes();
    FlowFamily(env, Op(CAT), s + [x, y]);
    hide InstrOf, Flow;
    var t := s + [x, y];
    assert t[..|t| - 1] == s + [x] && (s + [x])[..|s|] == s;
  }

  lemma FlowSha256(env: Env, s: Items, x: Bytes)
    ensures Flow(env, Op(SHA256), s + [x]) == Ok(s + [env.hash(Sha256, x)])
  {
    StackOpcodes();
    FlowFamily(env, Op(SHA256), s + [x]);
    hide InstrOf, Flow;
    assert (s + [x])[..|s|] == s;
  }

  // ---- output and input scripts ----

  /** What introspection shows of a script: a program and its version, or a hash
      and -1. */
  function ShownItem(env: Env, script: Bytes): Bytes {
    if IsWitnessProgram(script) then WitnessProgram(script) else env.hash(Sha256, script)
  }

  function ShownVersion(script: Bytes): int {
    if IsWitnessProgram(script) then WitnessVersion(script) else -1
  }

  lemma ShownVersionFits(script: Bytes)
    ensures -1 <= ShownVersion(script) <= 16 && Word(ShownVersion(script))
  {
  }

  lemma FlowOutputScript(env: Env, s: Items, i: int)
    requires 0 <= i <= 16
    ensures var r := Flow(env, Op(OUTPUTSCRIPT), s + [Encode(i)]);
            if i < |env.tx.outs| then
              var script := env.tx.outs[i].pkScript;
              r == Ok(s + [ShownItem(env, script), Encode(ShownVersion(script))])
            else r.Err?
  {
    InspectOpcodes();
    FlowFamily(env, Op(OUTPUTSCRIPT), s + [Encode(i)]);
    PopSmallIndex(s, i, |env.tx.outs|);
    hide Encode, PopIndex, InstrOf, IsWitnessProgram, WitnessProgram, WitnessVersion, Flow;
  }

  /** The current input's script, found through its index. */
  lemma FlowInputScript(env: Env, s: Items)
    requires |env.tx.ins| == 1 && env.txIdx == 0
    ensures var r := FlowAll(env, [Op(0xcd), Op(INPUTSCRIPT)], s);
            match env.fetchVtxoScript(env.tx.ins[0].prevOut)
            case None => r.Err?
            case Some(script) => r == Ok(s + [ShownItem(env, script), Encode(ShownVersion(script))])
  {
    hide Encode, PopIndex, InstrOf, IsWitnessProgram, WitnessProgram, WitnessVersion, Flow;
    InspectOpcodes();
    FlowFamily(env, Op(0xcd), s);
    FlowFamily(env, Op(INPUTSCRIPT), s + [Encode(0)]);
    PopSmallIndex(s, 0, 1);
    var ts := [Op(0xcd), Op(INPUTSCRIPT)];
    Whole(env, ts, s);
    Peel(env, ts, 0, s);
    Peel(env, ts, 1, s + [Encode(0)]);
    if env.fetchVtxoScript(env.tx.ins[0].prevOut).Some? {
      var script := env.fetchVtxoScript(env.tx.ins[0].prevOut).value;
      Whole(env, ts, s + [ShownItem(env, script), Encode(ShownVersion(script))]);
    }
  }

  lemma RecipientFlow(env: Env, s: Items)
    requires |env.tx.outs| > 0
    ensures var r := FlowAll(env, RecipientIsNative, s);
            if IsWitnessProgram(env.tx.outs[0].pkScript) then r == Ok(s) else r.Err?
  {
    var script := env.tx.outs[0].pkScript;
    var x, v := ShownItem(env, script), ShownVersion(script);
    ShownVersionFits(script);
    FlowInt(env, 0, s);
    FlowOutputScript(env, s, 0);
    FlowInt(env, 0, s + [x, Encode(v)]);
    WordFits(v);
    WordFits(0);
    FlowCompare(env, GREATEROREQUAL, s + [x], v, 0);
    FlowDrop(env, s, x);
    var holds := v >= 0;
    assert holds == IsWitnessProgram(script);
    hide Flow, Encode, IsWitnessProgram, ShownItem, ShownVersion;
    var ts := RecipientIsNative;
    var s2, s3 := s + [x, Encode(v)], s + [x] + [Encode(v), Encode(0)];
    assert s2 + [Encode(0)] == s3;
    Whole(env, ts, s);
    Peel(env, ts, 0, s);
    Peel(env, ts, 1, s + [Encode(0)]);
    Peel(env, ts, 2, s2);
    assert ts[3..] == [Op(GREATEROREQUAL), Op(VERIFY)] + [Op(DROP)];
    FlowAppend(env, [Op(GREATEROREQUAL), Op(VERIFY)], [Op(DROP)], s3);
    FlowOne(env, Op(DROP), s + [x]);
  }

  /** The change shows version one, then the current input does, then they match. */
  lemma ChangeFlow(env: Env, s: Items)
    requires |env.tx.ins| == 1 && env.txIdx == 0 && |env.tx.outs| > 1
    ensures var r := FlowAll(env, ChangeIsVault, s);
            var vtxo := env.fetchVtxoScript(env.tx.ins[0].prevOut);
            if vtxo.Some? && SameTaproot(env.tx.outs[1].pkScript, vtxo.value) then r == Ok(s) else r.Err?
  {
    hide Flow, FlowAll, Encode, IsWitnessProgram, ShownItem, ShownVersion, SameTaproot;
    var script, vtxo := env.tx.outs[1].pkScript, env.fetchVtxoScript(env.tx.ins[0].prevOut);
    var x, v := ShownItem(env, script), ShownVersion(script);
    ShownVersionFits(script);
    FlowInt(env, 1, s);
    FlowOutputScript(env, s, 1);
    FlowInt(env, 1, s + [x, Encode(v)]);
    FlowEqualVerify(env, s + [x], Encode(v), Encode(1));
    EncodeInjective(v, 1);
    FlowInputScript(env, s + [x]);
    ChangeSplit(env, s);
    var ts := ChangeIsVault[..4];
    if vtxo.Some? {
      SameScripts(env, s, x, vtxo.value);
      VersionOneMatch(env, script, vtxo.value);
    }
    var s2, s3 := s + [x, Encode(v)], s + [x] + [Encode(v), Encode(1)];
    assert s2 + [Encode(1)] == s3;
    Whole(env, ts, s);
    Peel(env, ts, 0, s);
    Peel(env, ts, 1, s + [Encode(1)]);
    Peel(env, ts, 2, s2);
    Peel(env, ts, 3, s3);
    Whole(env, ts, s + [x]);
  }

  lemma ChangeSplit(env: Env, s: Items)
    ensures FlowAll(env, ChangeIsVault, s) ==
            match FlowAll(env, ChangeIsVault[..4], s)
            case Err(e) => Err(e)
            case Ok(s1) =>
              match FlowAll(env, [Op(0xcd), Op(INPUTSCRIPT)], s1)
              case Err(e) => Err(e)
              case Ok(s2) => FlowAll(env, ChangeIsVault[6..], s2)
  {
    hide Flow;
    var ts, us, vs := ChangeIsVault[..4], [Op(0xcd), Op(INPUTSCRIPT)], ChangeIsVault[6..];
    assert ChangeIsVault == ts + (us + vs);
    FlowAppend(env, ts, us + vs, s);
    if FlowAll(env, ts, s).Ok? {
      FlowAppend(env, us, vs, FlowAll(env, ts, s).value);
    }
  }

  lemma SameScripts(env: Env, s: Items, x: Bytes, script: Bytes)
    ensures var r := FlowAll(env, ChangeIsVault[6..], s + [x] + [ShownItem(env, script), Encode(ShownVersion(script))]);
            if ShownVersion(script) == 1 && ShownItem(env, script) == x then r == Ok(s) else r.Err?
  {
    hide Flow, Encode, IsWitnessProgram, ShownItem, ShownVersion;
    var y, v := ShownItem(env, script), ShownVersion(script);
    ShownVersionFits(script);
    var ts := ChangeIsVault[6..];
    FlowInt(env, 1, s + [x] + [y, Encode(v)]);
    FlowEqualVerify(env, s + [x, y], Encode(v), Encode(1));
    EncodeInjective(v, 1);
    FlowEqualVerify(env, s, x, y);
    var s0, s1 := s + [x] + [y, Encode(v)], s + [x, y] + [Encode(v), Encode(1)];
    assert s0 + [Encode(1)] == s1;
    Whole(env, ts, s0);
    Peel(env, ts, 0, s0);
    Peel(env, ts, 1, s1);
    Peel(env, ts, 2, s + [x, y]);
    Whole(env, ts, s);
  }

  lemma VersionOneMatch(env: Env, a: Bytes, b: Bytes)
    ensures ShownVersion(a) == 1 && ShownVersion(b) == 1 && ShownItem(env, b) == ShownItem(env, a)
            <==> SameTaproot(a, b)
  {
    if IsWitnessProgram(a) && IsWitnessProgram(b) {
      WitnessProgramUnique(a, b);
    }
  }

  // ---- the packet output ----

  lemma FlowInspectPacket(env: Env, s: Items)
    ensures var r := Flow(env, Op(0xf4), s + [Encode(PACKET_TYPE as int)]);
            if FindPacket(env.tx, PACKET_TYPE).Err? then r.Err?
            else
              match PacketContent(env.tx)
              case None => r == Ok(s + [[], Encode(BoolNum(false))])
              case Some(c) =>
                if |c| > MAX_ELEMENT_SIZE then r.Err? else r == Ok(s + [c, Encode(BoolNum(true))])
  {
    InspectOpcodes();
    EncodeFits(1);
    DecodeEncode(0);
    ReadSmall(s, 1);
    FlowFamily(env, Op(0xf4), s + [Encode(1)]);
    hide Encode, Flow, InstrOf, FindPacket, PopScriptNum;
  }

  /** The packet's content is present and fits one element. */
  lemma PacketPresent(env: Env, s: Items)
    ensures var r := FlowAll(env, [AddInt(PACKET_TYPE as int), Op(0xf4), Op(VERIFY)], s);
            match PacketContent(env.tx)
            case None => r.Err?
            case Some(c) => if |c| <= MAX_ELEMENT_SIZE then r == Ok(s + [c]) else r.Err?
  {
    hide Flow, Encode, FindPacket;
    var ts := [AddInt(PACKET_TYPE as int), Op(0xf4), Op(VERIFY)];
    FlowInt(env, 1, s);
    FlowInspectPacket(env, s);
    var found := PacketContent(env.tx);
    var present := found.Some?;
    var c := if present then found.value else [];
    FlowVerify(env, s + [c], present);
    Whole(env, ts, s);
    Peel(env, ts, 0, s);
    Peel(env, ts, 1, s + [Encode(1)]);
    assert s + [c] + [Encode(BoolNum(present))] == s + [c, Encode(BoolNum(present))];
    Peel(env, ts, 2, s + [c, Encode(BoolNum(present))]);
    Whole(env, ts, s + [c]);
  }

  /** The prefix goes before the content, and the whole is hashed. */
  lemma PrefixHashed(env: Env, prefix: Bytes, s: Items, c: Bytes)
    requires 1 < |prefix| <= MAX_ELEMENT_SIZE
    ensures FlowAll(env, [AddData(prefix), Op(SWAP), Op(CAT), Op(SHA256)], s + [c]) ==
            if |prefix| + |c| > MAX_ELEMENT_SIZE then Err(ElementTooBig)
            else Ok(s + [env.hash(Sha256, prefix + c)])
  {
    hide Flow, AddData;
    var ts := [AddData(prefix), Op(SWAP), Op(CAT), Op(SHA256)];
    FlowData(env, prefix, s + [c]);
    FlowSwap(env, s, c, prefix);
    FlowCat(env, s, prefix, c);
    FlowSha256(env, s, prefix + c);
    assert s + [c] + [prefix] == s + [c, prefix];
    Whole(env, ts, s + [c]);
    Peel(env, ts, 0, s + [c]);
    Peel(env, ts, 1, s + [c, prefix]);
    Peel(env, ts, 2, s + [prefix, c]);
    Peel(env, ts, 3, s + [prefix + c]);
    Whole(env, ts, s + [env.hash(Sha256, prefix + c)]);
  }

  const LastOutputHash: seq<Token> :=
    [AddInt(2), Op(OUTPUTSCRIPT), AddInt(-1), Op(EQUALVERIFY), Op(EQUALVERIFY)]

  lemma LastOutputFlow(env: Env, s: Items, h: Bytes)
    requires |env.tx.outs| > 2
    ensures var r := FlowAll(env, LastOutputHash, s + [h]);
            var script := env.tx.outs[2].pkScript;
            if !IsWitnessProgram(script) && h == env.hash(Sha256, script) then r == Ok(s) else r.Err?
  {
    var ts, script := LastOutputHash, env.tx.outs[2].pkScript;
    var x, v := ShownItem(env, script), ShownVersion(script);
    ShownVersionFits(script);
    FlowInt(env, 2, s + [h]);
    FlowOutputScript(env, s + [h], 2);
    FlowInt(env, -1, s + [h] + [x, Encode(v)]);
    FlowEqualVerify(env, s + [h, x], Encode(v), Encode(-1));
    EncodeInjective(v, -1);
    FlowEqualVerify(env, s, h, x);
    assert v == -1 <==> !IsWitnessProgram(script);
    assert v == -1 ==> x == env.hash(Sha256, script);
    hide Flow, Encode, IsWitnessProgram, ShownItem, ShownVersion;
    var s2, s3 := s + [h] + [x, Encode(v)], s + [h, x] + [Encode(v), Encode(-1)];
    assert s2 + [Encode(-1)] == s3;
    Whole(env, ts, s + [h]);
    Peel(env, ts, 0, s + [h]);
    Peel(env, ts, 1, s + [h] + [Encode(2)]);
    Peel(env, ts, 2, s2);
    Peel(env, ts, 3, s3);
    Peel(env, ts, 4, s + [h, x]);
    Whole(env, ts, s);
  }

  lemma PacketFlow(env: Env, prefix: Bytes, s: Items)
    requires ShapeHolds(env.tx) && 1 < |prefix| <= MAX_ELEMENT_SIZE
    ensures var r := FlowAll(env, PacketIsExact(prefix), s);
            if PacketHolds(env, prefix) then r == Ok(s) else r.Err?
  {
    hide Flow, FlowAll, IsWitnessProgram, PacketContent;
    PacketPresent(env, s);
    if PacketContent(env.tx).Some? {
      var c := PacketContent(env.tx).value;
      PrefixHashed(env, prefix, s, c);
      LastOutputFlow(env, s, env.hash(Sha256, prefix + c));
    }
    var ts, us, vs := [AddInt(PACKET_TYPE as int), Op(0xf4), Op(VERIFY)],
                      [AddData(prefix), Op(SWAP), Op(CAT), Op(SHA256)], LastOutputHash;
    assert PacketIsExact(prefix) == ts + (us + vs);
    hide LastOutputHash, PacketIsExact;
    FlowAppend(env, ts, us + vs, s);
    if FlowAll(env, ts, s).Ok? {
      FlowAppend(env, us, vs, FlowAll(env, ts, s).value);
    }
  }

  // ---- the fee ----

  /** An opcode applied to the number below and a constant. */
  lemma ConstantFlow(env: Env, op: byte, nop: BinaryOp, s: Items, a: int, k: int, v: int)
    requires InstrOf(op) == BinaryInstr(nop) && Word(a) && Word(k)
    requires BinaryValue(nop, a, k) == Ok(v) && |Encode(v)| <= MAX_ELEMENT_SIZE
    ensures FlowAll(env, [AddInt(k), Op(op)], s + [Encode(a)]) == Ok(s + [Encode(v)])
  {
    hide Flow, Encode, AddInt, InstrOf, BinaryValue;
    WordFits(a);
    WordFits(k);
    FlowInt(env, k, s + [Encode(a)]);
    FlowBinary(env, op, nop, s, a, k);
    var ts := [AddInt(k), Op(op)];
    assert s + [Encode(a)] + [Encode(k)] == s + [Encode(a), Encode(k)];
    Whole(env, ts, s + [Encode(a)]);
    Peel(env, ts, 0, s + [Encode(a)]);
    Peel(env, ts, 1, s + [Encode(a), Encode(k)]);
    Whole(env, ts, s + [Encode(v)]);
  }

  /** An output value subtracted from the number below. */
  lemma SubtractOutput(env: Env, s: Items, i: int, a: int)
    requires 0 <= i <= 16 && Abs(a) <= 0x1_0000_0000_0000_0000
    ensures var ok := i < |env.tx.outs| && MoneyRange(env.tx.outs[i].value);
            Gives(env, [AddInt(i), Op(OUTPUTVALUE), Op(0x94)], s + [Encode(a)],
                  ok, if ok then s + [Encode(a - env.tx.outs[i].value)] else s)
  {
    hide Flow, FlowAll, Encode, AddInt, InstrOf;
    var s0 := s + [Encode(a)];
    var ok := i < |env.tx.outs| && MoneyRange(env.tx.outs[i].value);
    var v := if ok then env.tx.outs[i].value else 0;
    FlowInt(env, i, s0);
    FlowOutputValue(env, s0, i);
    SubtractFlow(env, s, a, v);
    hide *;
    One(env, AddInt(i), s0, true, s0 + [Encode(i)]);
    One(env, Op(OUTPUTVALUE), s0 + [Encode(i)], ok, s0 + [Encode(v)]);
    One(env, Op(0x94), s0 + [Encode(v)], true, s + [Encode(a - v)]);
    ChainThree(env, AddInt(i), Op(OUTPUTVALUE), Op(0x94), s0, s0 + [Encode(i)],
      ok, s0 + [Encode(v)], s + [Encode(a - v)]);
    Dropped(env, [AddInt(i), Op(OUTPUTVALUE), Op(0x94)], s0, ok, s + [Encode(a - v)], s);
  }

  lemma ChainThree(env: Env, a: Token, b: Token, c: Token, s: Items, s1: Items, ok: bool, s2: Items, end: Items)
    requires Gives(env, [a], s, true, s1) && Gives(env, [b], s1, ok, s2) && Gives(env, [c], s2, true, end)
    ensures Gives(env, [a, b, c], s, ok, end)
  {
    hide *;
    Chain(env, [b], [c], s1, ok, s2, true, end);
    Chain(env, [a], [b] + [c], s, true, s1, ok, end);
    assert [a, b, c] == [a] + ([b] + [c]);
  }

  lemma Differ(a: int, b: int)
    ensures BinaryValue(Sub, a, b) == Ok(a - b)
  {
  }

  lemma SubtractFlow(env: Env, s: Items, a: int, v: int)
    requires Abs(a) <= 0x1_0000_0000_0000_0000 && MoneyRange(v)
    ensures Flow(env, Op(0x94), s + [Encode(a)] + [Encode(v)]) == Ok(s + [Encode(a - v)])
  {
    hide Flow, FlowAll, Encode, InstrOf, BinaryValue;
    NearWordFits(a);
    NearWordFits(v);
    NearWordFits(a - v);
    hide *;
    ArithmeticOpcodes();
    Differ(a, v);
    FlowBinary(env, 0x94, Sub, s, a, v);
    assert s + [Encode(a)] + [Encode(v)] == s + [Encode(a), Encode(v)];
  }

  lemma NearWordFits(n: int)
    requires Abs(n) <= 0x2_0000_0000_0000_0000
    ensures |Encode(n)| <= MAX_ELEMENT_SIZE
  {
    EncodeLength(n, 10);
    TopBits(8);
    Int64.Words();
    ScaleByte(128, 8 * 7);
    ScaleByte(128, 8 * 8);
  }

  predicate ValuesInRange(env: Env)
    requires ShapeHolds(env.tx)
  {
    && env.fetchPrevOut(env.tx.ins[0].prevOut).Some?
    && MoneyRange(env.fetchPrevOut(env.tx.ins[0].prevOut).value.value)
    && MoneyRange(env.tx.outs[0].value) && MoneyRange(env.tx.outs[1].value)
  }

  /** The value the only input spends. */
  lemma PrevValueFlow(env: Env, s: Items)
    requires ShapeHolds(env.tx)
    ensures var prev := env.fetchPrevOut(env.tx.ins[0].prevOut);
            var ok := prev.Some? && MoneyRange(prev.value.value);
            Gives(env, [AddInt(0), Op(INPUTVALUE)], s, ok, s + [Encode(if ok then prev.value.value else 0)])
  {
    FlowInt(env, 0, s);
    FlowInputValue(env, s, 0);
    hide Flow, FlowAll, Encode, AddInt, MoneyRange;
    assert [AddInt(0), Op(INPUTVALUE)] == [AddInt(0)] + [Op(INPUTVALUE)];
    FlowAppend(env, [AddInt(0)], [Op(INPUTVALUE)], s);
    FlowOne(env, AddInt(0), s);
    FlowOne(env, Op(INPUTVALUE), s + [Encode(0)]);
  }

  lemma TwoSubtractions(env: Env, s: Items, v: int)
    requires ShapeHolds(env.tx) && MoneyRange(v)
    ensures var x, y := env.tx.outs[0].value, env.tx.outs[1].value;
            Gives(env, ComputeFee[2..], s + [Encode(v)], MoneyRange(x) && MoneyRange(y), s + [Encode(v - x - y)])
  {
    hide Flow, FlowAll, Encode, AddInt;
    var x, y := env.tx.outs[0].value, env.tx.outs[1].value;
    var us, vs := [AddInt(0), Op(OUTPUTVALUE), Op(0x94)], [AddInt(1), Op(OUTPUTVALUE), Op(0x94)];
    assert ComputeFee[2..] == us + vs;
    SubtractOutput(env, s, 0, v);
    Ignored(env, us, s + [Encode(v)], MoneyRange(x), s, s + [Encode(v - x)]);
    if MoneyRange(x) {
      SubtractOutput(env, s, 1, v - x);
      Ignored(env, vs, s + [Encode(v - x)], MoneyRange(y), s, s + [Encode(v - x - y)]);
    }
    hide *;
    Chain(env, us, vs, s + [Encode(v)], MoneyRange(x), s + [Encode(v - x)],
          MoneyRange(y), s + [Encode(v - x - y)]);
  }

  /** Where the run stops, the final stack is immaterial. */
  lemma Ignored(env: Env, ts: seq<Token>, s: Items, ok: bool, old': Items, end: Items)
    requires Gives(env, ts, s, ok, if ok then end else old')
    ensures Gives(env, ts, s, ok, end)
  {
  }

  lemma ComputeFeeFlow(env: Env, s: Items)
    requires ShapeHolds(env.tx)
    ensures Gives(env, ComputeFee, s, ValuesInRange(env), if ValuesInRange(env) then s + [Encode(Fee(env))] else s)
  {
    var prev := env.fetchPrevOut(env.tx.ins[0].prevOut);
    var ok1 := prev.Some? && MoneyRange(prev.value.value);
    var ok2 := MoneyRange(env.tx.outs[0].value) && MoneyRange(env.tx.outs[1].value);
    var v := if ok1 then prev.value.value else 0;
    var end := s + [Encode(v - env.tx.outs[0].value - env.tx.outs[1].value)];
    PrevValueFlow(env, s);
    assert MoneyRange(v);
    TwoSubtractions(env, s, v);
    assert ComputeFee == [AddInt(0), Op(INPUTVALUE)] + ComputeFee[2..];
    assert ValuesInRange(env) == (ok1 && ok2);
    assert ValuesInRange(env) ==> end == s + [Encode(Fee(env))];
    hide *;
    Chain(env, [AddInt(0), Op(INPUTVALUE)], ComputeFee[2..], s, ok1, s + [Encode(v)], ok2, end);
    Dropped(env, ComputeFee, s, ok1 && ok2, end, s);
  }

  lemma Dropped(env: Env, ts: seq<Token>, s: Items, ok: bool, end: Items, other: Items)
    requires Gives(env, ts, s, ok, end)
    ensures Gives(env, ts, s, ok, if ok then end else other)
  {
  }

  lemma FeeComparesFlow(env: Env, n: int, cmp: byte, s: Items, fee: int)
    requires Word(n) && Abs(fee) <= 0x2_0000_0000_0000_0000 && (cmp == GREATEROREQUAL || cmp == LESSOREQUAL)
    ensures var r := FlowAll(env, FeeCompares(n, cmp), s + [Encode(fee)]);
            if (if cmp == GREATEROREQUAL then fee >= n else fee <= n) then r == Ok(s + [Encode(fee)]) else r.Err?
  {
    var ts := FeeCompares(n, cmp);
    var f := Encode(fee);
    FlowDup(env, s, f);
    FlowInt(env, n, s + [f, f]);
    WordFits(n);
    NearWordFits(fee);
    FlowCompare(env, cmp, s + [f], fee, n);
    hide Flow, Encode, AddInt;
    Whole(env, ts, s + [f]);
    Peel(env, ts, 0, s + [f]);
    Peel(env, ts, 1, s + [f, f]);
    assert s + [f, f] + [Encode(n)] == s + [f] + [f, Encode(n)];
    assert ts[2..] == [Op(cmp), Op(VERIFY)];
  }

  /** The size in virtual bytes is computed without overflow. */
  lemma VBytesFlow(env: Env, s: Items)
    requires WireWidths(env.tx)
    ensures Word(VBytes(env.tx))
    ensures FlowAll(env, [Op(0xd6), AddInt(ROUTINE_WITNESS_BYTES),
      Op(0x93), AddInt(3), Op(0x93), AddInt(4), Op(0x96)], s)
            == Ok(s + [Encode(VBytes(env.tx))])
  {
    hide Flow, FlowAll, Encode, AddInt, InstrOf;
    var w := StrippedSize(env.tx) * 4;
    FlowWeight(env, s);
    ArithmeticOpcodes();
    WordFits(w + ROUTINE_WITNESS_BYTES);
    WordFits(w + ROUTINE_WITNESS_BYTES + 3);
    WordFits(VBytes(env.tx));
    assert BinaryValue(Div, w + ROUTINE_WITNESS_BYTES + 3, 4) == Ok(VBytes(env.tx));
    ConstantFlow(env, 0x93, Add, s, w, ROUTINE_WITNESS_BYTES, w + ROUTINE_WITNESS_BYTES);
    ConstantFlow(env, 0x93, Add, s, w + ROUTINE_WITNESS_BYTES, 3, w + ROUTINE_WITNESS_BYTES + 3);
    ConstantFlow(env, 0x96, Div, s, w + ROUTINE_WITNESS_BYTES + 3, 4, VBytes(env.tx));
    hide StrippedSize, VBytes, BinaryValue;
    var ts, us, vs := [AddInt(ROUTINE_WITNESS_BYTES), Op(0x93)], [AddInt(3), Op(0x93)], [AddInt(4), Op(0x96)];
    assert [Op(0xd6), AddInt(ROUTINE_WITNESS_BYTES), Op(0x93), AddInt(3), Op(0x93), AddInt(4), Op(0x96)]
           == [Op(0xd6)] + (ts + (us + vs));
    FlowOne(env, Op(0xd6), s);
    FlowAppend(env, [Op(0xd6)], ts + (us + vs), s);
    FlowAppend(env, ts, us + vs, s + [Encode(w)]);
    FlowAppend(env, us, vs, s + [Encode(w + ROUTINE_WITNESS_BYTES)]);
  }

  lemma FlowWeight(env: Env, s: Items)
    requires WireWidths(env.tx)
    ensures Flow(env, Op(0xd6), s) == Ok(s + [Encode(StrippedSize(env.tx) * 4)])
  {
    hide Encode, Flow, InstrOf, StrippedSize;
    InspectOpcodes();
    FlowFamily(env, Op(0xd6), s);
    WordFits(StrippedSize(env.tx) * 4);
  }

  /** The fee is at most the feerate times the size, and leaves the stack. */
  lemma FeerateFlow(env: Env, feerate: int, s: Items, fee: int)
    requires WireWidths(env.tx) && Word(feerate) && Abs(fee) <= 0x2_0000_0000_0000_0000
    ensures var r := FlowAll(env, FeerateHolds(feerate), s + [Encode(fee)]);
            if fee <= feerate * VBytes(env.tx) then r == Ok(s) else r.Err?
  {
    hide Flow, FlowAll, Encode, AddInt, VBytes;
    var f, v := Encode(fee), VBytes(env.tx);
    FlowDup(env, s, f);
    VBytesFlow(env, s + [f, f]);
    LimitFlow(env, feerate, s, fee, v);
    var ts := [Op(0xd6), AddInt(ROUTINE_WITNESS_BYTES), Op(0x93), AddInt(3), Op(0x93), AddInt(4), Op(0x96)];
    var us := [AddInt(feerate), Op(0x95), Op(LESSOREQUAL), Op(VERIFY), Op(DROP)];
    assert FeerateHolds(feerate) == [Op(DUP)] + (ts + us);
    FlowOne(env, Op(DUP), s + [f]);
    FlowAppend(env, [Op(DUP)], ts + us, s + [f]);
    FlowAppend(env, ts, us, s + [f, f]);
  }

  /** The size times the feerate bounds the fee. */
  lemma LimitFlow(env: Env, feerate: int, s: Items, fee: int, v: int)
    requires Word(v) && Word(feerate) && Abs(fee) <= 0x2_0000_0000_0000_0000
    ensures var r := FlowAll(env, [AddInt(feerate), Op(0x95), Op(LESSOREQUAL), Op(VERIFY), Op(DROP)],
                             s + [Encode(fee), Encode(fee)] + [Encode(v)]);
            if fee <= feerate * v then r == Ok(s) else r.Err?
  {
    hide Flow, Encode, AddInt, FlowAll;
    var f, limit := Encode(fee), v * feerate;
    ProductFits(v, feerate);
    MultiplyFlow(env, feerate, s + [f, f], v);
    NearWordFits(fee);
    FlowCompare(env, LESSOREQUAL, s + [f], fee, limit);
    FlowDrop(env, s, f);
    assert limit == feerate * v;
    var us, vs := [AddInt(feerate), Op(0x95)], [Op(LESSOREQUAL), Op(VERIFY)];
    assert [AddInt(feerate), Op(0x95), Op(LESSOREQUAL), Op(VERIFY), Op(DROP)] == us + (vs + [Op(DROP)]);
    FlowAppend(env, us, vs + [Op(DROP)], s + [f, f] + [Encode(v)]);
    assert s + [f, f] + [Encode(limit)] == s + [f] + [f, Encode(limit)];
    FlowAppend(env, vs, [Op(DROP)], s + [f] + [f, Encode(limit)]);
    FlowOne(env, Op(DROP), s + [f]);
  }

  lemma MultiplyFlow(env: Env, feerate: int, s: Items, v: int)
    requires Word(v) && Word(feerate)
    ensures FlowAll(env, [AddInt(feerate), Op(0x95)], s + [Encode(v)]) == Ok(s + [Encode(v * feerate)])
  {
    ArithmeticOpcodes();
    ProductFits(v, feerate);
    assert BinaryValue(Mul, v, feerate) == Ok(v * feerate);
    ConstantFlow(env, 0x95, Mul, s, v, feerate, v * feerate);
  }

  // ---- the direct signature ----

  lemma FlowSighash(env: Env, s: Items)
    ensures Flow(env, Op(0xf6), s + [[]]) ==
            match env.sighash(0, BLANK_CODE_SEP)
            case Ok(digest) => Ok(s + [digest])
            case Err(e) => Err(e)
  {
    InspectOpcodes();
    FlowFamily(env, Op(0xf6), s + [[]]);
    EncodeFits(0);
    DecodeEncode(0);
    ReadSmall(s, 0);
    hide Encode, Flow, InstrOf, PopScriptNum;
  }

  lemma FlowCheckSig(env: Env, s: Items, digest: Bytes, key: Bytes)
    requires |key| == 33
    ensures var r := Flow(env, Op(OP_CHECKSIGFROMSTACK), s + [digest, [0x11] + key]);
            if s == [] then r.Err?
            else if Last(s) == [] then r == Ok(s[..|s| - 1] + [[]])
            else if env.validKey(EcdsaSecp256r1, key) && SchemeVerifies(env, EcdsaSecp256r1, key, digest, Last(s))
            then r == Ok(s[..|s| - 1] + [Encode(1)])
            else r.Err?
  {
    hide Encode, Flow, InstrOf, SchemeVerifies;
    InspectOpcodes();
    var full: Bytes := [0x11] + key;
    var t := s + [digest, full];
    FlowFamily(env, Op(OP_CHECKSIGFROMSTACK), t);
    assert t[..|t| - 1] == s + [digest] && (s + [digest])[..|s|] == s;
    assert full[1..] == key;
  }

  /** The signature piece leaves one true item exactly when the starting stack was
      one valid signature. */
  lemma SignatureFlow(env: Env, key: Bytes, s: Items)
    requires |key| == 33
    ensures var r := FlowAll(env, DirectSignature(key), s);
            (r.Ok? && |r.value| == 1 && Truthy(r.value[0])) <==> |s| == 1 && SignatureHolds(env, key, s[0])
  {
    hide Flow, Encode, AddData;
    var ts, full := DirectSignature(key), [0x11] + key;
    FlowPushEmpty(env, s);
    FlowSighash(env, s);
    var hashed := env.sighash(0, BLANK_CODE_SEP);
    var digest := if hashed.Ok? then hashed.value else [];
    FlowData(env, full, s + [digest]);
    FlowCheckSig(env, s, digest, key);
    TruthyEncode(1);
    Whole(env, ts, s);
    Peel(env, ts, 0, s);
    Peel(env, ts, 1, s + [[]]);
    if hashed.Ok? {
      Peel(env, ts, 2, s + [digest]);
      assert s + [digest] + [full] == s + [digest, full];
      Peel(env, ts, 3, s + [digest, full]);
      if s != [] {
        Whole(env, ts, s[..|s| - 1] + [[]]);
        Whole(env, ts, s[..|s| - 1] + [Encode(1)]);
      }
    }
  }

  lemma FlowPushEmpty(env: Env, s: Items)
    ensures Flow(env, Op(OP_0), s) == Ok(s + [[]])
  {
  }
}
