/** The meaning of a script: what each opcode does to the machine state, what a
    token does once conditionals, budgets and stack limits are taken into
    account, and what a list of scripts returns. */
module ScriptVM {
  import opened Common
  import opened ScriptErrors
  import opened Numbers
  import opened Tokenizers
  import opened Stacks
  import opened Instructions
  import opened Transactions
  import opened NumberCodec
  import Int64
  import ExtensionFormat

  const MAX_ELEMENT_SIZE: nat := 520
  const MAX_STACK_SIZE: nat := 1000
  const MAX_STACK_BYTES: nat := 131072
  const BLANK_CODE_SEP: nat := 0xffff_ffff

  datatype SigScheme = SchnorrSecp256k1 | EcdsaSecp256k1 | EcdsaSecp256r1

  /** What the machine reads but never changes. Hashes, point checks, signature
      checks and the opcodes kept abstract are functions of their operands. */
  datatype Env = Env(
    tx: Tx,
    txIdx: nat,
    fetchPrevOut: OutPoint -> Option<TxOut>,
    fetchVtxoScript: OutPoint -> Option<Bytes>,
    hash: (HashOp, Bytes) -> Bytes,
    sighash: (int, nat) -> Result<Bytes, ErrorCode>,
    validKey: (SigScheme, Bytes) -> bool,
    verifySig: (SigScheme, Bytes, Bytes, Bytes) -> bool,
    other: (byte, Items, Items) -> Result<(Items, Items), ErrorCode>,
    limits: map<byte, int>,
    sharedLimits: map<byte, int>)

  datatype Cond = CondFalse | CondTrue | CondSkip

  datatype State = State(
    d: Items,
    a: Items,
    cond: seq<Cond>,
    codeSep: nat,
    counts: map<byte, nat>,
    sharedCounts: map<byte, nat>)

  type StateResult = Result<State, ErrorCode>

  function NewState(stack: Items, sharedCounts: map<byte, nat>): State {
    State(stack, [], [], BLANK_CODE_SEP, map[], sharedCounts)
  }

  // ---- numbers on the stack ----

  function PushNumber(s: Items, n: int): StackResult {
    match PushedNumber(n)
    case Ok(b) => Ok(s + [b])
    case Err(e) => Err(e)
  }

  function PopNumber(s: Items): Result<(Items, int), ErrorCode> {
    var (rest, x) :- Pop(s);
    var n :- ReadNumber(x);
    Ok((rest, n))
  }

  function PopScriptNum(s: Items): Result<(Items, int), ErrorCode> {
    var (rest, x) :- Pop(s);
    var n :- ReadScriptNum(x);
    Ok((rest, n))
  }

  function BoolNum(b: bool): int {
    if b then 1 else 0
  }

  function UnaryValue(op: UnaryOp, n: int): int {
    match op
    case Inc => n + 1
    case Dec => n - 1
    case Double => n + n
    case Halve => Int64.TruncDiv(n, 2)
    case Negate => -n
    case AbsValue => Abs(n)
    case Not => BoolNum(n == 0)
    case NotZero => BoolNum(n != 0)
  }

  function BinaryValue(op: BinaryOp, a: int, b: int): Result<int, ErrorCode> {
    match op
    case Add => Ok(a + b)
    case Sub => Ok(a - b)
    case Mul => Ok(a * b)
    case Div => if b == 0 then Err(DivisionByZero) else Ok(Int64.TruncDiv(a, b))
    case Mod => if b == 0 then Err(ModuloByZero) else Ok(Int64.TruncMod(a, b))
    case BoolAnd => Ok(BoolNum(a != 0 && b != 0))
    case BoolOr => Ok(BoolNum(a != 0 || b != 0))
    case NumEqual => Ok(BoolNum(a == b))
    case NumNotEqual => Ok(BoolNum(a != b))
    case LessThan => Ok(BoolNum(a < b))
    case GreaterThan => Ok(BoolNum(a > b))
    case LessOrEqual => Ok(BoolNum(a <= b))
    case GreaterOrEqual => Ok(BoolNum(a >= b))
    case Min => Ok(if a < b then a else b)
    case Max => Ok(if a > b then a else b)
  }

  function Unary(op: UnaryOp, s: Items): StackResult {
    var (rest, n) :- PopNumber(s);
    PushNumber(rest, UnaryValue(op, n))
  }

  function Binary(op: BinaryOp, s: Items): StackResult {
    var (s1, b) :- PopNumber(s);
    var (s2, a) :- PopNumber(s1);
    var v :- BinaryValue(op, a, b);
    PushNumber(s2, v)
  }

  function WithinRange(s: Items): StackResult {
    var (s1, max) :- PopNumber(s);
    var (s2, min) :- PopNumber(s1);
    var (s3, x) :- PopNumber(s2);
    PushNumber(s3, BoolNum(min <= x < max))
  }

  function Shifted(left: bool, s: Items): StackResult {
    var (s1, shift) :- PopScriptNum(s);
    if shift < 0 then Err(InvalidIndex)
    else
      var (s2, x) :- PopNumber(s1);
      ScaleGrows(1, shift, shift);
      PushNumber(s2, if left then x * Pow2(shift) else x / Pow2(shift))
  }

  function ToFixed(s: Items): StackResult {
    var (s1, size) :- PopScriptNum(s);
    if size < 0 || size > MAX_ELEMENT_SIZE then Err(NumberTooBig)
    else
      var (s2, n) :- PopNumber(s1);
      if |Encode(n)| > size then Err(NumberTooBig) else Ok(s2 + [Fixed(n, size)])
  }

  function ToMinimal(s: Items): StackResult {
    var (s1, b) :- Pop(s);
    if |b| > MAX_ELEMENT_SIZE then Err(NumberTooBig) else Ok(s1 + [Encode(Decode(b))])
  }

  // ---- stack and byte operations ----

  function Arrange(op: StackOp, s: Items): StackResult {
    match op
    case Drop(n) => Dropped(s, n)
    case Dup(n) => Dupped(s, n)
    case Over(n) => Overed(s, n)
    case Rot(n) => Rotated(s, n)
    case Swap(n) => Swapped(s, n)
    case IfDup => if s == [] then Err(InvalidStackOperation)
                  else Ok(if Truthy(Last(s)) then s + [Last(s)] else s)
    case Depth => Ok(s + [Encode(|s|)])
    case Nip => if |s| < 2 then Err(InvalidStackOperation) else Ok(Nipped(s, 1))
    case Pick => var (s1, n) :- PopScriptNum(s); Picked(s1, n)
    case Roll => var (s1, n) :- PopScriptNum(s); Rolled(s1, n)
    case TuckTop => Tucked(s)
    case Size => if s == [] then Err(InvalidStackOperation) else Ok(s + [Encode(|Last(s)|)])
  }

  /** A byte-wise operation on two strings of one length. */
  function Combine(op: Int64.BitOp, x: Bytes, y: Bytes): (r: Bytes)
    requires |x| == |y|
    ensures |r| == |x|
  {
    if x == [] then [] else [CombineByte(op, x[0], y[0])] + Combine(op, x[1..], y[1..])
  }

  function CombineByte(op: Int64.BitOp, x: byte, y: byte): byte {
    WidthBounds();
    Int64.TopBit(op, x as nat, y as nat, 8);
    Int64.Bitwise(op, x as nat, y as nat, 8) as byte
  }

  function Inverted(x: Bytes): (r: Bytes)
    ensures |r| == |x|
  {
    if x == [] then [] else [255 - x[0]] + Inverted(x[1..])
  }

  function CombineTop(op: Int64.BitOp, s: Items): StackResult {
    var (s1, y) :- Pop(s);
    var (s2, x) :- Pop(s1);
    if |x| != |y| then Err(InvalidStackOperation) else Ok(s2 + [Combine(op, x, y)])
  }

  function Splice(op: SpliceOp, s: Items): StackResult {
    match op
    case Cat =>
      var (s1, y) :- Pop(s);
      var (s2, x) :- Pop(s1);
      if |x| + |y| > MAX_ELEMENT_SIZE then Err(ElementTooBig) else Ok(s2 + [x + y])
    case Substr =>
      var (s1, size) :- PopScriptNum(s);
      var (s2, begin) :- PopScriptNum(s1);
      var (s3, x) :- Pop(s2);
      if begin < 0 || size < 0 || begin + size > |x| then Err(InvalidIndex)
      else Ok(s3 + [x[begin..begin + size]])
    case Left =>
      var (s1, n) :- PopScriptNum(s);
      var (s2, x) :- Pop(s1);
      if n < 0 || n > |x| then Err(InvalidIndex) else Ok(s2 + [x[..n]])
    case Right =>
      var (s1, n) :- PopScriptNum(s);
      var (s2, x) :- Pop(s1);
      if n < 0 || n > |x| then Err(InvalidIndex) else Ok(s2 + [x[|x| - n..]])
    case Invert =>
      var (s1, x) :- Pop(s);
      Ok(s1 + [Inverted(x)])
    case ByteAnd => CombineTop(Int64.And, s)
    case ByteOr => CombineTop(Int64.Or, s)
    case ByteXor => CombineTop(Int64.Xor, s)
    case Equal =>
      var (s1, y) :- Pop(s);
      var (s2, x) :- Pop(s1);
      Ok(s2 + [if x == y then [1] else []])
    case ReverseBytes =>
      var (s1, x) :- Pop(s);
      Ok(s1 + [Reversed(x)])
  }

  function Verified(s: Items, e: ErrorCode): StackResult {
    var (s1, x) :- Pop(s);
    if Truthy(x) then Ok(s1) else Err(e)
  }

  // ---- hashes ----

  function HashOf(env: Env, op: HashOp, x: Bytes): Bytes {
    match op
    case Hash160 => env.hash(Ripemd160, env.hash(Sha256, x))
    case Hash256 => env.hash(Sha256, env.hash(Sha256, x))
    case _ => env.hash(op, x)
  }

  function DigestKind(n: int): Option<HashOp> {
    if n == 1 then Some(Sha256)
    else if n == 2 then Some(Sha1)
    else if n == 3 then Some(Ripemd160)
    else if n == 4 then Some(Keccak256)
    else if n == 5 then Some(Sha3)
    else None
  }

  function Hashed(env: Env, op: HashOp, s: Items): StackResult {
    var (s1, x) :- Pop(s);
    Ok(s1 + [HashOf(env, op, x)])
  }

  function Digested(env: Env, s: Items): StackResult {
    var (s1, kind) :- PopScriptNum(s);
    var (s2, x) :- Pop(s1);
    match DigestKind(kind)
    case None => Err(InvalidStackOperation)
    case Some(h) => Ok(s2 + [env.hash(h, x)])
  }

  // ---- introspection ----

  function PopIndex(s: Items, count: nat): (r: Result<(Items, int), ErrorCode>)
    ensures r.Ok? ==> 0 <= r.value.1 < count
  {
    var (s1, i) :- PopScriptNum(s);
    if i < 0 || i >= count then Err(InvalidIndex) else Ok((s1, i))
  }

  function PushSatoshi(s: Items, value: int): StackResult {
    if value < 0 || value > MAX_SATOSHI then Err(InvalidStackOperation) else PushNumber(s, value)
  }

  /** A witness program and its version, or the script's hash and -1. */
  function PushScript(env: Env, s: Items, script: Bytes): Items {
    if IsWitnessProgram(script) then s + [WitnessProgram(script), Encode(WitnessVersion(script))]
    else s + [env.hash(Sha256, script), Encode(-1)]
  }

  function Inspect(env: Env, op: InspectOp, s: Items): StackResult {
    var tx := env.tx;
    match op
    case InputOutpoint =>
      var (s1, i) :- PopIndex(s, |tx.ins|);
      Ok(s1 + [tx.ins[i].prevOut.hash, Encode(tx.ins[i].prevOut.index)])
    case InputValue =>
      var (s1, i) :- PopIndex(s, |tx.ins|);
      (match env.fetchPrevOut(tx.ins[i].prevOut)
       case None => Err(InvalidIndex)
       case Some(out) => PushSatoshi(s1, out.value))
    case InputScript =>
      var (s1, i) :- PopIndex(s, |tx.ins|);
      (match env.fetchVtxoScript(tx.ins[i].prevOut)
       case None => Err(InvalidIndex)
       case Some(script) => Ok(PushScript(env, s1, script)))
    case InputSequence =>
      var (s1, i) :- PopIndex(s, |tx.ins|);
      PushNumber(s1, tx.ins[i].sequence)
    case CurrentIndex => Ok(s + [Encode(env.txIdx)])
    case OutputValue =>
      var (s1, i) :- PopIndex(s, |tx.outs|);
      PushSatoshi(s1, tx.outs[i].value)
    case OutputScript =>
      var (s1, i) :- PopIndex(s, |tx.outs|);
      Ok(PushScript(env, s1, tx.outs[i].pkScript))
    case TxVersion => PushNumber(s, tx.version)
    case TxLockTime => PushNumber(s, tx.lockTime)
    case NumInputs => Ok(s + [Encode(|tx.ins|)])
    case NumOutputs => Ok(s + [Encode(|tx.outs|)])
    case TxWeight => PushNumber(s, StrippedSize(tx) * 4)
  }

  function InspectPackets(env: Env, s: Items): StackResult {
    var (s1, typ) :- PopScriptNum(s);
    if typ < 0 || typ > 255 then Err(InvalidStackOperation)
    else
      var content :- FindPacket(env.tx, typ as byte);
      match content
      case None => Ok(s1 + [[], []])
      case Some(c) => if |c| > MAX_ELEMENT_SIZE then Err(ElementTooBig) else Ok(s1 + [c, Encode(1)])
  }

  // ---- signatures ----

  predicate ValidSighashType(flag: int) {
    flag in {0, 1, 2, 3, 0x81, 0x82, 0x83}
  }

  function PushSighash(env: Env, codeSep: nat, s: Items): StackResult {
    var (s1, flag) :- PopScriptNum(s);
    if flag < 0 || flag > 0xff then Err(NumberTooBig)
    else if !ValidSighashType(flag) then Err(InvalidSigHashType)
    else if flag % 0x80 == 3 && env.txIdx >= |env.tx.outs| then Err(InvalidSigHashType)
    else
      var digest :- env.sighash(flag, codeSep);
      Ok(s1 + [digest])
  }

  function SchemeOf(env: Env, key: Bytes): Result<(SigScheme, Bytes), ErrorCode> {
    if key == [] then Err(PubKeyRejected)
    else if |key| == 32 then
      if env.validKey(SchnorrSecp256k1, key) then Ok((SchnorrSecp256k1, key)) else Err(PubKeyRejected)
    else if |key| != 34 then Err(PubKeyRejected)
    else if key[0] == 0x10 && env.validKey(EcdsaSecp256k1, key[1..]) then Ok((EcdsaSecp256k1, key[1..]))
    else if key[0] == 0x11 && env.validKey(EcdsaSecp256r1, key[1..]) then Ok((EcdsaSecp256r1, key[1..]))
    else Err(PubKeyRejected)
  }

  predicate SchemeVerifies(env: Env, scheme: SigScheme, key: Bytes, msg: Bytes, sig: Bytes) {
    && (scheme == SchnorrSecp256k1 || (|msg| == 32 && |sig| == 64))
    && env.verifySig(scheme, key, msg, sig)
  }

  function CheckStackSig(env: Env, s: Items): StackResult {
    var (s1, key) :- Pop(s);
    var (s2, msg) :- Pop(s1);
    var (s3, sig) :- Pop(s2);
    if sig == [] then Ok(s3 + [[]])
    else
      var (scheme, pub) :- SchemeOf(env, key);
      if SchemeVerifies(env, scheme, pub, msg, sig) then Ok(s3 + [Encode(1)]) else Err(NullFail)
  }

  // ---- control ----

  predicate Executing(cond: seq<Cond>) {
    cond == [] || Last(cond) == CondTrue
  }

  /** popIfBool: the condition must be empty or the single byte 1. */
  function PopIfBool(s: Items): Result<(Items, bool), ErrorCode> {
    var (s1, x) :- Pop(s);
    if |x| > 1 || (|x| == 1 && x[0] != 1) then Err(MinimalIf) else Ok((s1, x == [1]))
  }

  function EnterIf(branch: bool, st: State): StateResult {
    if Executing(st.cond) then
      var (s1, b) :- PopIfBool(st.d);
      Ok(st.(d := s1, cond := st.cond + [if b == branch then CondTrue else CondFalse]))
    else
      Ok(st.(cond := st.cond + [CondSkip]))
  }

  function Flip(c: Cond): Cond {
    match c
    case CondTrue => CondFalse
    case CondFalse => CondTrue
    case CondSkip => CondSkip
  }

  function TakeElse(st: State): StateResult {
    if st.cond == [] then Err(UnbalancedConditional)
    else Ok(st.(cond := st.cond[..|st.cond| - 1] + [Flip(Last(st.cond))]))
  }

  function LeaveIf(st: State): StateResult {
    if st.cond == [] then Err(UnbalancedConditional)
    else Ok(st.(cond := st.cond[..|st.cond| - 1]))
  }

  // ---- one opcode ----

  /** Lifts a change of the data stack to the state. */
  function OnStack(st: State, r: StackResult): StateResult {
    match r
    case Ok(s) => Ok(st.(d := s))
    case Err(e) => Err(e)
  }

  /** Opcodes that touch more than the data stack. */
  predicate Control(i: Instr) {
    i.If? || i.Else? || i.EndIf? || i.ToAltStack? || i.FromAltStack? || i.CodeSeparator? || i.Other?
  }

  function ControlEffect(env: Env, pos: nat, op: byte, st: State): StateResult
    requires Control(InstrOf(op))
  {
    match InstrOf(op)
    case If(branch) => EnterIf(branch, st)
    case Else => TakeElse(st)
    case EndIf => LeaveIf(st)
    case ToAltStack =>
      var (s1, x) :- Pop(st.d);
      Ok(st.(d := s1, a := st.a + [x]))
    case FromAltStack =>
      var (s1, x) :- Pop(st.a);
      Ok(st.(a := s1, d := st.d + [x]))
    case CodeSeparator => Ok(st.(codeSep := pos))
    case Other =>
      var (d, a) :- env.other(op, st.d, st.a);
      Ok(st.(d := d, a := a))
  }

  function StackEffect(env: Env, codeSep: nat, i: Instr, data: Bytes, s: Items): StackResult
    requires !Control(i)
  {
    match i
    case PushEmpty => Ok(s + [[]])
    case PushData => Ok(s + [data])
    case PushNum(n) => Ok(s + [Encode(n)])
    case Nop => Ok(s)
    case Verify => Verified(s, VerifyFailed)
    case Return => Err(EarlyReturn)
    case StackInstr(sop) => Arrange(sop, s)
    case SpliceInstr(bop) => Splice(bop, s)
    case EqualVerify => EqualVerified(s)
    case UnaryInstr(uop) => Unary(uop, s)
    case BinaryInstr(nop) => Binary(nop, s)
    case NumEqualVerify => NumEqualVerified(s)
    case Within => WithinRange(s)
    case ShiftLeft => Shifted(true, s)
    case ShiftRight => Shifted(false, s)
    case Num2Bin => ToFixed(s)
    case Bin2Num => ToMinimal(s)
    case HashInstr(hop) => Hashed(env, hop, s)
    case Digest => Digested(env, s)
    case InspectInstr(iop) => Inspect(env, iop, s)
    case InspectPacket => InspectPackets(env, s)
    case Sighash => PushSighash(env, codeSep, s)
    case CheckSigFromStack => CheckStackSig(env, s)
    case Reserved => Err(ReservedOpcode)
    case UpgradableNop => Err(DiscourageUpgradableNOPs)
  }

  /** opfunc: pos is the tokenizer's opcode position. */
  function Effect(env: Env, pos: nat, op: byte, data: Bytes, st: State): StateResult {
    if Control(InstrOf(op)) then ControlEffect(env, pos, op, st)
    else OnStack(st, StackEffect(env, st.codeSep, InstrOf(op), data, st.d))
  }

  function EqualVerified(s: Items): StackResult {
    var s1 :- Splice(Equal, s);
    Verified(s1, ErrorCode.EqualVerify)
  }

  function NumEqualVerified(s: Items): StackResult {
    var s1 :- Binary(NumEqual, s);
    Verified(s1, ErrorCode.NumEqualVerify)
  }

  // ---- one token ----

  /** checkMinimalDataPush. */
  predicate MinimalPush(op: byte, data: Bytes) {
    if data == [] then op == OP_0
    else if |data| == 1 && 1 <= data[0] <= 16 then op == OP_1 + data[0] - 1
    else if |data| == 1 && data[0] == 0x81 then op == OP_1NEGATE
    else if |data| <= 75 then op as int == |data|
    else if |data| <= 255 then op == OP_PUSHDATA1
    else if |data| <= 65535 then op == OP_PUSHDATA2
    else true
  }

  function CountOf(counts: map<byte, nat>, op: byte): nat {
    if op in counts then counts[op] else 0
  }

  /** One charge against a table of limits: opcodes outside it are free. */
  function ChargeTable(limits: map<byte, int>, counts: map<byte, nat>, op: byte)
    : Result<map<byte, nat>, ErrorCode>
  {
    if op !in limits then Ok(counts)
    else if CountOf(counts, op) + 1 > limits[op] then Err(ScriptTooBig)
    else Ok(counts[op := CountOf(counts, op) + 1])
  }

  function Charge(env: Env, op: byte, st: State): StateResult {
    var counts :- ChargeTable(env.limits, st.counts, op);
    var shared :- ChargeTable(env.sharedLimits, st.sharedCounts, op);
    Ok(st.(counts := counts, sharedCounts := shared))
  }

  function ExecuteOpcode(env: Env, pos: nat, t: Token, st: State): StateResult {
    if t.op == OP_VERIF || t.op == OP_VERNOTIF then Err(ReservedOpcode)
    else if |t.data| > MAX_ELEMENT_SIZE then Err(ElementTooBig)
    else if !Executing(st.cond) && !Conditional(t.op) then Ok(st)
    else if Executing(st.cond) && t.op <= OP_PUSHDATA4 && !MinimalPush(t.op, t.data) then Err(MinimalData)
    else
      var charged :- Charge(env, t.op, st);
      Effect(env, pos, t.op, t.data, charged)
  }

  function ByteSize(s: Items): nat {
    if s == [] then 0 else ByteSize(s[..|s| - 1]) + |Last(s)|
  }

  predicate WithinLimits(st: State) {
    |st.d| + |st.a| <= MAX_STACK_SIZE && ByteSize(st.d) + ByteSize(st.a) <= MAX_STACK_BYTES
  }

  /** Step, up to the end-of-script bookkeeping. */
  function StepToken(env: Env, pos: nat, t: Token, st: State): StateResult {
    var next :- ExecuteOpcode(env, pos, t, st);
    if WithinLimits(next) then Ok(next) else Err(StackOverflow)
  }

  // ---- scripts ----

  function RunTokens(env: Env, pos: nat, ts: seq<Token>, st: State): StateResult
    decreases |ts|
  {
    if ts == [] then Ok(st)
    else
      var next :- StepToken(env, pos, ts[0], st);
      RunTokens(env, pos + 1, ts[1..], next)
  }

  lemma RunFirst(env: Env, pos: nat, ts: seq<Token>, st: State)
    requires ts != []
    ensures RunTokens(env, pos, ts, st) ==
            match StepToken(env, pos, ts[0], st)
            case Ok(next) => RunTokens(env, pos + 1, ts[1..], next)
            case Err(e) => Err(e)
  {
    hide StepToken;
  }

  /** A script ends with no open conditional; its alternate stack is dropped. */
  function EndScript(st: State): StateResult {
    if st.cond != [] then Err(UnbalancedConditional) else Ok(st.(a := []))
  }

  function RunScript(env: Env, script: Bytes, st: State): StateResult {
    var ts :- Tokenize(script);
    var end :- RunTokens(env, 0, ts, st);
    EndScript(end)
  }

  function RunScripts(env: Env, scripts: seq<Bytes>, st: State): StateResult {
    if scripts == [] then Ok(st)
    else if scripts[0] == [] then RunScripts(env, scripts[1..], st)
    else
      var next :- RunScript(env, scripts[0], st);
      RunScripts(env, scripts[1..], next)
  }

  /** CheckErrorCondition(true): exactly one true item is left. */
  function Verdict(st: State): Result<(), ErrorCode> {
    if |st.d| != 1 then Err(CleanStack)
    else if Truthy(st.d[0]) then Ok(())
    else Err(EvalFalse)
  }

  /** The result of executing scripts from a starting state. */
  function Outcome(env: Env, scripts: seq<Bytes>, st: State): Result<(), ErrorCode> {
    var end :- RunScripts(env, scripts, st);
    Verdict(end)
  }

  // ---- running lists of tokens in pieces ----

  lemma {:induction false} RunAppend(env: Env, pos: nat, ts: seq<Token>, us: seq<Token>, st: State)
    ensures RunTokens(env, pos, ts + us, st) ==
            match RunTokens(env, pos, ts, st)
            case Ok(mid) => RunTokens(env, pos + |ts|, us, mid)
            case Err(e) => Err(e)
    decreases |ts|
  {
    hide StepToken;
    if ts == [] {
      assert ts + us == us;
    } else {
      assert (ts + us)[1..] == ts[1..] + us;
      if StepToken(env, pos, ts[0], st).Ok? {
        RunAppend(env, pos + 1, ts[1..], us, StepToken(env, pos, ts[0], st).value);
      }
    }
  }
}
