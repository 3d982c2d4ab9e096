/** The vault's authorization script: the program, in the source's order, and the
    policy it states. */
module VaultScript {
  import opened Common
  import opened ScriptErrors
  import opened Numbers
  import opened NumberCodec
  import opened Tokenizers
  import opened Stacks
  import opened Instructions
  import opened Transactions
  import opened ScriptVM
  import opened ComputeLimits
  import opened VmInvariants
  import opened StraightLine

  const ROUTINE_WITNESS_BYTES: int := 399
  const PACKET_TYPE: byte := 0x01
  const MAX_INT64: int := 0x7fff_ffff_ffff_ffff

  datatype Policy = Policy(dust: int, cap: int, feeCeiling: int, feerate: int)

  /** AuthorizationPolicy.validate, on int64 fields. */
  predicate ValidPolicy(p: Policy) {
    && 0 < p.dust <= p.cap <= MAX_INT64
    && 0 <= p.feeCeiling <= MAX_INT64
    && 0 < p.feerate <= MAX_INT64
  }

  // ---- the script builder ----

  /** AddData: the canonical push of some bytes. */
  function AddData(data: Bytes): Token {
    if data == [] || data == [0] then Token(OP_0, [])
    else if |data| == 1 && data[0] <= 16 then Token(0x50 + data[0], [])
    else if |data| == 1 && data[0] == 0x81 then Token(OP_1NEGATE, [])
    else if |data| <= 75 then Token(|data| as byte, data)
    else if |data| <= 0xff then Token(OP_PUSHDATA1, data)
    else if |data| <= 0xffff then Token(OP_PUSHDATA2, data)
    else Token(OP_PUSHDATA4, data)
  }

  /** AddInt64. */
  function AddInt(n: int): Token {
    if n == 0 then Token(OP_0, [])
    else if n == -1 || 1 <= n <= 16 then Token((0x50 + n) as byte, [])
    else AddData(Encode(n))
  }

  function Op(op: byte): Token {
    Token(op, [])
  }

  const EQUALVERIFY: byte := 0x88
  const GREATEROREQUAL: byte := 0xa2
  const LESSOREQUAL: byte := 0xa1
  const VERIFY: byte := 0x69
  const OUTPUTVALUE: byte := 0xcf
  const OUTPUTSCRIPT: byte := 0xd1

  // ---- the program, in the source's order ----

  /** A transaction field equals a constant. */
  function FieldIs(op: byte, n: int): seq<Token> {
    [Op(op), AddInt(n), Op(EQUALVERIFY)]
  }

  /** An indexed field equals a constant. */
  function IndexedIs(i: int, op: byte, n: int): seq<Token> {
    [AddInt(i), Op(op), AddInt(n), Op(EQUALVERIFY)]
  }

  /** An output value compares with a constant. */
  function ValueCompares(i: int, n: int, cmp: byte): seq<Token> {
    [AddInt(i), Op(OUTPUTVALUE), AddInt(n), Op(cmp), Op(VERIFY)]
  }

  const RecipientIsNative: seq<Token> :=
    [AddInt(0), Op(OUTPUTSCRIPT), AddInt(0), Op(GREATEROREQUAL), Op(VERIFY), Op(0x75)]

  const ChangeIsVault: seq<Token> :=
    [AddInt(1), Op(OUTPUTSCRIPT), AddInt(1), Op(EQUALVERIFY),
     Op(0xcd), Op(0xca), AddInt(1), Op(EQUALVERIFY), Op(EQUALVERIFY)]

  function PacketIsExact(prefix: Bytes): seq<Token> {
    [AddInt(PACKET_TYPE as int), Op(0xf4), Op(VERIFY), AddData(prefix), Op(0x7c), Op(0x7e), Op(0xa8),
     AddInt(2), Op(OUTPUTSCRIPT), AddInt(-1), Op(EQUALVERIFY), Op(EQUALVERIFY)]
  }

  const ComputeFee: seq<Token> :=
    [AddInt(0), Op(0xc9), AddInt(0), Op(OUTPUTVALUE), Op(0x94), AddInt(1), Op(OUTPUTVALUE), Op(0x94)]

  /** The fee, kept on top, compares with a constant. */
  function FeeCompares(n: int, cmp: byte): seq<Token> {
    [Op(0x76), AddInt(n), Op(cmp), Op(VERIFY)]
  }

  function FeerateHolds(feerate: int): seq<Token> {
    [Op(0x76), Op(0xd6), AddInt(ROUTINE_WITNESS_BYTES), Op(0x93), AddInt(3), Op(0x93), AddInt(4), Op(0x96),
     AddInt(feerate), Op(0x95), Op(LESSOREQUAL), Op(VERIFY), Op(0x75)]
  }

  function DirectSignature(key: Bytes): seq<Token> {
    [Op(OP_0), Op(0xf6), AddData([0x11] + key), Op(OP_CHECKSIGFROMSTACK)]
  }

  function Shape(): seq<Token> {
    FieldIs(0xd2, 2) + FieldIs(0xd3, 0) + FieldIs(0xd4, 1) + IndexedIs(0, 0xcb, MAX_SEQUENCE)
  }

  function Outputs(p: Policy): seq<Token> {
    ValueCompares(0, p.dust, GREATEROREQUAL) + ValueCompares(0, p.cap, LESSOREQUAL) + RecipientIsNative
    + FieldIs(0xd5, 3) + ValueCompares(1, p.dust, GREATEROREQUAL) + ChangeIsVault + IndexedIs(2, OUTPUTVALUE, 0)
  }

  function Fees(p: Policy): seq<Token> {
    ComputeFee + FeeCompares(0, GREATEROREQUAL) + FeeCompares(p.feeCeiling, LESSOREQUAL) + FeerateHolds(p.feerate)
  }

  /** buildAuthorizationScript, as tokens and as bytes. */
  function Program(key: Bytes, p: Policy, prefix: Bytes): seq<Token> {
    Shape() + Outputs(p) + PacketIsExact(prefix) + Fees(p) + DirectSignature(key)
  }

  function BuildScript(key: Bytes, p: Policy, prefix: Bytes): Bytes {
    EncodeTokens(Program(key, p, prefix))
  }

  // ---- the policy ----

  /** Both are version-one programs and they are the same program. */
  predicate SameTaproot(s: Bytes, t: Bytes) {
    IsWitnessProgram(s) && WitnessVersion(s) == 1 && s == t
  }

  predicate MoneyRange(v: int) {
    0 <= v <= MAX_SATOSHI
  }

  predicate ShapeHolds(tx: Tx) {
    && tx.version == 2 && tx.lockTime == 0
    && |tx.ins| == 1 && tx.ins[0].sequence == MAX_SEQUENCE
    && |tx.outs| == 3
  }

  predicate OutputsHold(env: Env, p: Policy)
    requires ShapeHolds(env.tx)
  {
    var outs := env.tx.outs;
    && p.dust <= outs[0].value <= p.cap && MoneyRange(outs[0].value)
    && IsWitnessProgram(outs[0].pkScript)
    && p.dust <= outs[1].value && MoneyRange(outs[1].value)
    && env.fetchVtxoScript(env.tx.ins[0].prevOut).Some?
    && SameTaproot(outs[1].pkScript, env.fetchVtxoScript(env.tx.ins[0].prevOut).value)
    && outs[2].value == 0
  }

  /** The packet's content, when it is found and readable. */
  function PacketContent(tx: Tx): Option<Bytes> {
    var found := FindPacket(tx, PACKET_TYPE);
    if found.Ok? then found.value else None
  }

  /** The last output hashes like the prefix followed by the packet's content. */
  predicate PacketHolds(env: Env, prefix: Bytes)
    requires ShapeHolds(env.tx)
  {
    var script := env.tx.outs[2].pkScript;
    match PacketContent(env.tx)
    case None => false
    case Some(content) =>
      && |prefix| + |content| <= MAX_ELEMENT_SIZE
      && !IsWitnessProgram(script)
      && env.hash(Sha256, prefix + content) == env.hash(Sha256, script)
  }

  function Fee(env: Env): int
    requires ShapeHolds(env.tx) && env.fetchPrevOut(env.tx.ins[0].prevOut).Some?
  {
    env.fetchPrevOut(env.tx.ins[0].prevOut).value.value - env.tx.outs[0].value - env.tx.outs[1].value
  }

  /** Virtual bytes of the routine spend, rounded up. */
  function VBytes(tx: Tx): int {
    (StrippedSize(tx) * 4 + ROUTINE_WITNESS_BYTES + 3) / 4
  }

  predicate FeesHold(env: Env, p: Policy)
    requires ShapeHolds(env.tx)
  {
    && env.fetchPrevOut(env.tx.ins[0].prevOut).Some?
    && MoneyRange(env.fetchPrevOut(env.tx.ins[0].prevOut).value.value)
    && 0 <= Fee(env) <= p.feeCeiling
    && Fee(env) <= p.feerate * VBytes(env.tx)
  }

  /** A 64-byte signature over this transaction's default sighash. */
  predicate SignatureHolds(env: Env, key: Bytes, sig: Bytes) {
    && env.sighash(0, BLANK_CODE_SEP).Ok?
    && |env.sighash(0, BLANK_CODE_SEP).value| == 32 && |sig| == 64
    && env.validKey(EcdsaSecp256r1, key)
    && env.verifySig(EcdsaSecp256r1, key, env.sighash(0, BLANK_CODE_SEP).value, sig)
  }

  predicate PolicyHolds(env: Env, p: Policy, prefix: Bytes) {
    ShapeHolds(env.tx) && OutputsHold(env, p) && PacketHolds(env, prefix) && FeesHold(env, p)
  }
}
