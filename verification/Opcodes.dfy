/** The opcode functions over the data stack object, following the source's
    order of pops, checks and pushes; each is proved to compute its meaning. */
module Opcodes {
  import opened Common
  import opened ScriptErrors
  import opened Int64
  import opened Numbers
  import opened BigNums
  import opened NumberCodec
  import opened Stacks
  import opened Instructions
  import opened Transactions
  import SVM = ScriptVM

  type OpResult = Result<(), ErrorCode>

  /** The stack after an opcode, and its error, are what the meaning says. */
  ghost predicate Applied(r: OpResult, now: Items, meaning: StackResult) {
    match meaning
    case Ok(s) => r.Ok? && now == s
    case Err(e) => r == Err(e)
  }

  // ---- numbers ----

  /** The number a one-operand opcode pushes. */
  method Operate(op: UnaryOp, n: BigNum) returns (v: BigNum)
    ensures v.Value() == SVM.UnaryValue(op, n.Value())
  {
    match op {
      case Inc => v := n.Add(Small(1));
      case Dec => v := n.Sub(Small(1));
      case Double => v := n.Add(n);
      case Halve =>
        var q := n.Div(Small(2));
        v := q.value;
      case Negate => v := n.Negate();
      case AbsValue => v := n.AbsoluteValue();
      case Not => v := if n.IsZero() then Small(1) else Small(0);
      case NotZero => v := if n.IsZero() then Small(0) else Small(1);
    }
  }

  method UnaryOpcode(dstack: Stack, op: UnaryOp) returns (r: OpResult)
    modifies dstack
    ensures Applied(r, dstack.stk, SVM.Unary(op, old(dstack.stk)))
  {
    hide SVM.UnaryValue;
    var popped := dstack.PopBigNum();
    if popped.Err? {
      return Err(popped.error);
    }
    var v := Operate(op, popped.value);
    r := dstack.PushBigNum(v);
  }

  /** Pops the top number, then the one below it. */
  method PopPair(dstack: Stack) returns (r: Result<(BigNum, BigNum), ErrorCode>)
    modifies dstack
    ensures match SVM.PopNumber(old(dstack.stk))
            case Err(e) => r == Err(e)
            case Ok((s1, b)) =>
              match SVM.PopNumber(s1)
              case Err(e) => r == Err(e)
              case Ok((s2, a)) =>
                r.Ok? && r.value.0.Value() == a && r.value.1.Value() == b && dstack.stk == s2
  {
    var b := dstack.PopBigNum();
    if b.Err? {
      return Err(b.error);
    }
    var a := dstack.PopBigNum();
    if a.Err? {
      return Err(a.error);
    }
    return Ok((a.value, b.value));
  }

  method Calculate(op: BinaryOp, a: BigNum, b: BigNum) returns (r: Result<BigNum, ErrorCode>)
    ensures match SVM.BinaryValue(op, a.Value(), b.Value())
            case Ok(v) => r.Ok? && r.value.Value() == v
            case Err(e) => r == Err(e)
  {
    var v;
    match op {
      case Add => v := a.Add(b);
      case Sub => v := a.Sub(b);
      case Mul => v := a.Mul(b);
      case Div => return a.Div(b);
      case Mod => return a.Mod(b);
      case BoolAnd => v := Truth(!a.IsZero() && !b.IsZero());
      case BoolOr => v := Truth(!a.IsZero() || !b.IsZero());
      case NumEqual => v := Truth(a.Cmp(b) == 0);
      case NumNotEqual => v := Truth(a.Cmp(b) != 0);
      case LessThan => v := Truth(a.Cmp(b) < 0);
      case GreaterThan => v := Truth(a.Cmp(b) > 0);
      case LessOrEqual => v := Truth(a.Cmp(b) <= 0);
      case GreaterOrEqual => v := Truth(a.Cmp(b) >= 0);
      case Min => v := if a.Cmp(b) < 0 then a else b;
      case Max => v := if a.Cmp(b) > 0 then a else b;
    }
    return Ok(v);
  }

  function Truth(b: bool): BigNum {
    if b then Small(1) else Small(0)
  }

  method BinaryOpcode(dstack: Stack, op: BinaryOp) returns (r: OpResult)
    modifies dstack
    ensures Applied(r, dstack.stk, SVM.Binary(op, old(dstack.stk)))
  {
    var popped := PopPair(dstack);
    if popped.Err? {
      return Err(popped.error);
    }
    var (a, b) := popped.value;
    var v := Calculate(op, a, b);
    if v.Err? {
      return Err(v.error);
    }
    r := dstack.PushBigNum(v.value);
  }

  method WithinOpcode(dstack: Stack) returns (r: OpResult)
    modifies dstack
    ensures Applied(r, dstack.stk, SVM.WithinRange(old(dstack.stk)))
  {
    var popped := PopPair(dstack);
    if popped.Err? {
      return Err(popped.error);
    }
    var (minVal, maxVal) := popped.value;
    var x := dstack.PopBigNum();
    if x.Err? {
      return Err(x.error);
    }
    var inside := x.value.Cmp(minVal) >= 0 && x.value.Cmp(maxVal) < 0;
    r := dstack.PushBigNum(Truth(inside));
  }

  /** A floored quotient is the Euclidean one for a positive divisor. */
  lemma FloorIsQuotient(x: int, p: int, q: int)
    requires p > 0 && q * p <= x < (q + 1) * p
    ensures q == x / p
  {
    var e := x / p;
    assert x == e * p + x % p;
    if q < e {
      Distribute(e - q - 1, q + 1, p);
      ProductSign(e - q - 1, p);
      assert false;
    } else if q > e {
      Distribute(q - e - 1, e + 1, p);
      Distribute(e, 1, p);
      ProductSign(q - e - 1, p);
      assert false;
    }
  }

  lemma ProductSign(a: nat, b: nat)
    ensures a * b >= 0
  {
  }

  method ShiftOpcode(dstack: Stack, left: bool) returns (r: OpResult)
    modifies dstack
    ensures Applied(r, dstack.stk, SVM.Shifted(left, old(dstack.stk)))
  {
    var shiftNum := dstack.PopInt();
    if shiftNum.Err? {
      return Err(shiftNum.error);
    }
    var shift := shiftNum.value;
    if shift < 0 {
      return Err(InvalidIndex);
    }
    var x := dstack.PopBigNum();
    if x.Err? {
      return Err(x.error);
    }
    if left {
      var result := x.value.Lshift(shift);
      if result.Err? {
        return Err(result.error);
      }
      r := dstack.PushBigNum(result.value);
    } else {
      var result := x.value.Rshift(shift);
      ScaleGrows(1, shift, shift);
      FloorIsQuotient(x.value.Value(), Pow2(shift), result.Value());
      r := dstack.PushBigNum(result);
    }
  }

  method Num2BinOpcode(dstack: Stack) returns (r: OpResult)
    modifies dstack
    ensures Applied(r, dstack.stk, SVM.ToFixed(old(dstack.stk)))
  {
    var size := dstack.PopInt();
    if size.Err? {
      return Err(size.error);
    }
    if size.value < 0 || size.value > MAX_BIGNUM_LEN {
      return Err(NumberTooBig);
    }
    var num := dstack.PopBigNum();
    if num.Err? {
      return Err(num.error);
    }
    var out := FixedBytes(num.value, size.value);
    if out.Err? {
      return Err(NumberTooBig);
    }
    dstack.PushByteArray(out.value);
    return Ok(());
  }

  method Bin2NumOpcode(dstack: Stack) returns (r: OpResult)
    modifies dstack
    ensures Applied(r, dstack.stk, SVM.ToMinimal(old(dstack.stk)))
  {
    var b := dstack.PopByteArray();
    if b.Err? {
      return Err(b.error);
    }
    if |b.value| > MAX_BIGNUM_LEN {
      return Err(NumberTooBig);
    }
    var out := MinimallyEncode(b.value);
    dstack.PushByteArray(out);
    return Ok(());
  }

  // ---- stack arrangement ----

  method StackOpcode(dstack: Stack, op: StackOp) returns (r: OpResult)
    requires op.Drop? || op.Dup? || op.Over? || op.Rot? || op.Swap? ==> op.n <= 3
    requires Representable(dstack.stk)
    modifies dstack
    ensures Applied(r, dstack.stk, SVM.Arrange(op, old(dstack.stk)))
  {
    match op {
      case Drop(n) => r := dstack.DropN(n);
      case Dup(n) => r := dstack.DupN(n);
      case Over(n) => r := dstack.OverN(n);
      case Rot(n) => r := dstack.RotN(n);
      case Swap(n) => r := dstack.SwapN(n);
      case IfDup => r := IfDupOpcode(dstack);
      case Depth =>
        dstack.PushInt(|dstack.stk|);
        r := Ok(());
      case Nip =>
        var so := dstack.NipN(1);
        r := if so.Err? then Err(so.error) else Ok(());
      case Pick => r := PickRollOpcode(dstack, true);
      case Roll => r := PickRollOpcode(dstack, false);
      case TuckTop => r := dstack.Tuck();
      case Size => r := SizeOpcode(dstack);
    }
  }

  method IfDupOpcode(dstack: Stack) returns (r: OpResult)
    modifies dstack
    ensures Applied(r, dstack.stk, SVM.Arrange(IfDup, old(dstack.stk)))
  {
    var so := dstack.PeekByteArray(0);
    if so.Err? {
      return Err(so.error);
    }
    var truth := AsBool(so.value);
    if truth {
      dstack.PushByteArray(so.value);
    }
    return Ok(());
  }

  method SizeOpcode(dstack: Stack) returns (r: OpResult)
    requires Representable(dstack.stk)
    modifies dstack
    ensures Applied(r, dstack.stk, SVM.Arrange(Size, old(dstack.stk)))
  {
    var so := dstack.PeekByteArray(0);
    if so.Err? {
      return Err(so.error);
    }
    dstack.PushInt(|so.value|);
    return Ok(());
  }

  method PickRollOpcode(dstack: Stack, pick: bool) returns (r: OpResult)
    modifies dstack
    ensures Applied(r, dstack.stk, SVM.Arrange(if pick then Pick else Roll, old(dstack.stk)))
  {
    var val := dstack.PopInt();
    if val.Err? {
      return Err(val.error);
    }
    if pick {
      r := dstack.PickN(val.value);
    } else {
      r := dstack.RollN(val.value);
    }
  }

  // ---- byte strings ----

  method CatOpcode(dstack: Stack) returns (r: OpResult)
    modifies dstack
    ensures Applied(r, dstack.stk, SVM.Splice(Cat, old(dstack.stk)))
  {
    var x2 := dstack.PopByteArray();
    if x2.Err? {
      return Err(x2.error);
    }
    var x1 := dstack.PopByteArray();
    if x1.Err? {
      return Err(x1.error);
    }
    if |x1.value| + |x2.value| > SVM.MAX_ELEMENT_SIZE {
      return Err(ElementTooBig);
    }
    dstack.PushByteArray(x1.value + x2.value);
    return Ok(());
  }

  method SubstrOpcode(dstack: Stack) returns (r: OpResult)
    modifies dstack
    ensures Applied(r, dstack.stk, SVM.Splice(Substr, old(dstack.stk)))
  {
    var size := dstack.PopInt();
    if size.Err? {
      return Err(size.error);
    }
    var begin := dstack.PopInt();
    if begin.Err? {
      return Err(begin.error);
    }
    var x := dstack.PopByteArray();
    if x.Err? {
      return Err(x.error);
    }
    var b: int, n: int := begin.value, size.value;
    if b < 0 || n < 0 || b + n > |x.value| {
      return Err(InvalidIndex);
    }
    dstack.PushByteArray(x.value[b..b + n]);
    return Ok(());
  }

  /** OP_LEFT and OP_RIGHT. */
  method SideOpcode(dstack: Stack, op: SpliceOp) returns (r: OpResult)
    requires op == Left || op == Right
    modifies dstack
    ensures Applied(r, dstack.stk, SVM.Splice(op, old(dstack.stk)))
  {
    var n := dstack.PopInt();
    if n.Err? {
      return Err(n.error);
    }
    var x := dstack.PopByteArray();
    if x.Err? {
      return Err(x.error);
    }
    if n.value < 0 || n.value > |x.value| {
      return Err(InvalidIndex);
    }
    dstack.PushByteArray(if op == Left then x.value[..n.value] else x.value[|x.value| - n.value..]);
    return Ok(());
  }

  method InvertBytes(x: Bytes) returns (result: Bytes)
    ensures result == SVM.Inverted(x)
  {
    result := [];
    for i := 0 to |x|
      invariant SVM.Inverted(x) == result + SVM.Inverted(x[i..])
    {
      result := result + [255 - x[i]];
      assert x[i..][1..] == x[i + 1..];
    }
  }

  method CombineBytes(op: BitOp, x: Bytes, y: Bytes) returns (result: Bytes)
    requires |x| == |y|
    ensures result == SVM.Combine(op, x, y)
  {
    hide SVM.CombineByte;
    result := [];
    for i := 0 to |x|
      invariant SVM.Combine(op, x, y) == result + SVM.Combine(op, x[i..], y[i..])
    {
      result := result + [SVM.CombineByte(op, x[i], y[i])];
      assert x[i..][1..] == x[i + 1..] && y[i..][1..] == y[i + 1..];
    }
  }

  method CombineOpcode(dstack: Stack, op: BitOp) returns (r: OpResult)
    modifies dstack
    ensures Applied(r, dstack.stk, SVM.CombineTop(op, old(dstack.stk)))
  {
    var x2 := dstack.PopByteArray();
    if x2.Err? {
      return Err(x2.error);
    }
    var x1 := dstack.PopByteArray();
    if x1.Err? {
      return Err(x1.error);
    }
    if |x1.value| != |x2.value| {
      return Err(InvalidStackOperation);
    }
    var result := CombineBytes(op, x1.value, x2.value);
    dstack.PushByteArray(result);
    return Ok(());
  }

  /** The reversal loop writes a fresh buffer from the far end. */
  method ReverseOf(buf: Bytes) returns (result: Bytes)
    ensures result == Reversed(buf)
  {
    var out := new byte[|buf|];
    for i := 0 to |buf|
      invariant forall j :: 0 <= j < i ==> out[|buf| - 1 - j] == buf[j]
    {
      out[|buf| - 1 - i] := buf[i];
    }
    result := out[..];
    assert forall k :: 0 <= k < |buf| ==> result[k] == out[|buf| - 1 - (|buf| - 1 - k)];
  }

  /** OP_INVERT and OP_REVERSEBYTES. */
  method RewriteOpcode(dstack: Stack, op: SpliceOp) returns (r: OpResult)
    requires op == Invert || op == ReverseBytes
    modifies dstack
    ensures Applied(r, dstack.stk, SVM.Splice(op, old(dstack.stk)))
  {
    var x := dstack.PopByteArray();
    if x.Err? {
      return Err(x.error);
    }
    var result;
    if op == Invert {
      result := InvertBytes(x.value);
    } else {
      result := ReverseOf(x.value);
    }
    dstack.PushByteArray(result);
    return Ok(());
  }

  method EqualOpcode(dstack: Stack) returns (r: OpResult)
    modifies dstack
    ensures Applied(r, dstack.stk, SVM.Splice(Equal, old(dstack.stk)))
  {
    var a := dstack.PopByteArray();
    if a.Err? {
      return Err(a.error);
    }
    var b := dstack.PopByteArray();
    if b.Err? {
      return Err(b.error);
    }
    dstack.PushBool(a.value == b.value);
    return Ok(());
  }

  method SpliceOpcode(dstack: Stack, op: SpliceOp) returns (r: OpResult)
    modifies dstack
    ensures Applied(r, dstack.stk, SVM.Splice(op, old(dstack.stk)))
  {
    match op {
      case Cat => r := CatOpcode(dstack);
      case Substr => r := SubstrOpcode(dstack);
      case Left => r := SideOpcode(dstack, op);
      case Right => r := SideOpcode(dstack, op);
      case Invert => r := RewriteOpcode(dstack, op);
      case ByteAnd => r := CombineOpcode(dstack, And);
      case ByteOr => r := CombineOpcode(dstack, Or);
      case ByteXor => r := CombineOpcode(dstack, Xor);
      case Equal => r := EqualOpcode(dstack);
      case ReverseBytes => r := RewriteOpcode(dstack, op);
    }
  }

  /** abstractVerify. */
  method AbstractVerify(dstack: Stack, c: ErrorCode) returns (r: OpResult)
    modifies dstack
    ensures Applied(r, dstack.stk, SVM.Verified(old(dstack.stk), c))
  {
    var verified := dstack.PopBool();
    if verified.Err? {
      return Err(verified.error);
    }
    if !verified.value {
      return Err(c);
    }
    return Ok(());
  }

  method EqualVerifyOpcode(dstack: Stack) returns (r: OpResult)
    modifies dstack
    ensures Applied(r, dstack.stk, SVM.EqualVerified(old(dstack.stk)))
  {
    r := EqualOpcode(dstack);
    if r.Ok? {
      r := AbstractVerify(dstack, ErrorCode.EqualVerify);
    }
  }

  method NumEqualVerifyOpcode(dstack: Stack) returns (r: OpResult)
    modifies dstack
    ensures Applied(r, dstack.stk, SVM.NumEqualVerified(old(dstack.stk)))
  {
    r := BinaryOpcode(dstack, NumEqual);
    if r.Ok? {
      r := AbstractVerify(dstack, ErrorCode.NumEqualVerify);
    }
  }

  // ---- hashes ----

  method HashOpcode(env: SVM.Env, dstack: Stack, op: HashOp) returns (r: OpResult)
    modifies dstack
    ensures Applied(r, dstack.stk, SVM.Hashed(env, op, old(dstack.stk)))
  {
    var buf := dstack.PopByteArray();
    if buf.Err? {
      return Err(buf.error);
    }
    dstack.PushByteArray(SVM.HashOf(env, op, buf.value));
    return Ok(());
  }

  method DigestOpcode(env: SVM.Env, dstack: Stack) returns (r: OpResult)
    modifies dstack
    ensures Applied(r, dstack.stk, SVM.Digested(env, old(dstack.stk)))
  {
    var hashType := dstack.PopInt();
    if hashType.Err? {
      return Err(hashType.error);
    }
    var buf := dstack.PopByteArray();
    if buf.Err? {
      return Err(buf.error);
    }
    var kind := SVM.DigestKind(hashType.value);
    if kind.None? {
      return Err(InvalidStackOperation);
    }
    dstack.PushByteArray(env.hash(kind.value, buf.value));
    return Ok(());
  }

  // ---- introspection ----

  method PopIndex(dstack: Stack, count: nat) returns (r: Result<nat, ErrorCode>)
    modifies dstack
    ensures match SVM.PopIndex(old(dstack.stk), count)
            case Ok((s, i)) => r == Ok(i) && dstack.stk == s
            case Err(e) => r == Err(e)
  {
    var index := dstack.PopInt();
    if index.Err? {
      return Err(index.error);
    }
    if index.value < 0 {
      return Err(InvalidIndex);
    }
    if index.value >= count {
      return Err(InvalidIndex);
    }
    return Ok(index.value);
  }

  method PushSatoshiValue(dstack: Stack, value: int) returns (r: OpResult)
    modifies dstack
    ensures Applied(r, dstack.stk, SVM.PushSatoshi(old(dstack.stk), value))
  {
    if value < 0 || value > MAX_SATOSHI {
      return Err(InvalidStackOperation);
    }
    r := dstack.PushBigNum(FromUint64(value));
  }

  method PushScriptPubKey(env: SVM.Env, dstack: Stack, script: Bytes)
    modifies dstack
    ensures dstack.stk == SVM.PushScript(env, old(dstack.stk), script)
  {
    if IsWitnessProgram(script) {
      dstack.PushByteArray(WitnessProgram(script));
      dstack.PushInt(WitnessVersion(script));
    } else {
      dstack.PushByteArray(env.hash(Sha256, script));
      dstack.PushInt(-1);
    }
  }

  /** The opcodes that look at an input. */
  method InspectInputOpcode(env: SVM.Env, dstack: Stack, op: InspectOp) returns (r: OpResult)
    requires WireWidths(env.tx)
    requires op.InputOutpoint? || op.InputValue? || op.InputScript? || op.InputSequence?
    modifies dstack
    ensures Applied(r, dstack.stk, SVM.Inspect(env, op, old(dstack.stk)))
  {
    var index := PopIndex(dstack, |env.tx.ins|);
    if index.Err? {
      return Err(index.error);
    }
    var txIn := env.tx.ins[index.value];
    match op {
      case InputOutpoint =>
        dstack.PushByteArray(txIn.prevOut.hash);
        dstack.PushInt(txIn.prevOut.index);
        r := Ok(());
      case InputValue =>
        var prevOut := env.fetchPrevOut(txIn.prevOut);
        if prevOut.None? {
          return Err(InvalidIndex);
        }
        r := PushSatoshiValue(dstack, prevOut.value.value);
      case InputScript =>
        var script := env.fetchVtxoScript(txIn.prevOut);
        if script.None? {
          return Err(InvalidIndex);
        }
        PushScriptPubKey(env, dstack, script.value);
        r := Ok(());
      case InputSequence =>
        r := dstack.PushBigNum(FromUint64(txIn.sequence));
    }
  }

  /** The opcodes that look at an output. */
  method InspectOutputOpcode(env: SVM.Env, dstack: Stack, op: InspectOp) returns (r: OpResult)
    requires op.OutputValue? || op.OutputScript?
    modifies dstack
    ensures Applied(r, dstack.stk, SVM.Inspect(env, op, old(dstack.stk)))
  {
    var index := PopIndex(dstack, |env.tx.outs|);
    if index.Err? {
      return Err(index.error);
    }
    if op == OutputValue {
      r := PushSatoshiValue(dstack, env.tx.outs[index.value].value);
    } else {
      PushScriptPubKey(env, dstack, env.tx.outs[index.value].pkScript);
      r := Ok(());
    }
  }

  method InspectOpcode(env: SVM.Env, dstack: Stack, op: InspectOp) returns (r: OpResult)
    requires WireWidths(env.tx) && env.txIdx < |env.tx.ins|
    modifies dstack
    ensures Applied(r, dstack.stk, SVM.Inspect(env, op, old(dstack.stk)))
  {
    match op {
      case InputOutpoint => r := InspectInputOpcode(env, dstack, op);
      case InputValue => r := InspectInputOpcode(env, dstack, op);
      case InputScript => r := InspectInputOpcode(env, dstack, op);
      case InputSequence => r := InspectInputOpcode(env, dstack, op);
      case OutputValue => r := InspectOutputOpcode(env, dstack, op);
      case OutputScript => r := InspectOutputOpcode(env, dstack, op);
      case CurrentIndex =>
        dstack.PushInt(env.txIdx);
        r := Ok(());
      case TxVersion => r := dstack.PushBigNum(Small(env.tx.version));
      case TxLockTime => r := dstack.PushBigNum(FromUint64(env.tx.lockTime));
      case NumInputs =>
        dstack.PushInt(|env.tx.ins|);
        r := Ok(());
      case NumOutputs =>
        dstack.PushInt(|env.tx.outs|);
        r := Ok(());
      case TxWeight => r := dstack.PushBigNum(FromUint64(StrippedSize(env.tx) * 4));
    }
  }

  method InspectPacketOpcode(env: SVM.Env, dstack: Stack) returns (r: OpResult)
    modifies dstack
    ensures Applied(r, dstack.stk, SVM.InspectPackets(env, old(dstack.stk)))
  {
    var packetType := dstack.PopInt();
    if packetType.Err? {
      return Err(packetType.error);
    }
    if packetType.value < 0 || packetType.value > 255 {
      return Err(InvalidStackOperation);
    }
    var content := FindPacket(env.tx, packetType.value as byte);
    if content.Err? {
      return Err(content.error);
    }
    if content.value.None? {
      dstack.PushByteArray([]);
      dstack.PushInt(0);
      return Ok(());
    }
    if |content.value.value| > SVM.MAX_ELEMENT_SIZE {
      return Err(ElementTooBig);
    }
    dstack.PushByteArray(content.value.value);
    dstack.PushInt(1);
    return Ok(());
  }

  // ---- signatures ----

  method SighashOpcode(env: SVM.Env, codeSep: nat, dstack: Stack) returns (r: OpResult)
    modifies dstack
    ensures Applied(r, dstack.stk, SVM.PushSighash(env, codeSep, old(dstack.stk)))
  {
    var hashType := dstack.PopInt();
    if hashType.Err? {
      return Err(hashType.error);
    }
    var flag: int := hashType.value;
    if flag < 0 || flag > 0xff {
      return Err(NumberTooBig);
    }
    if !SVM.ValidSighashType(flag) {
      return Err(InvalidSigHashType);
    }
    // the any-one-can-pay bit stripped, SINGLE needs an output at this index
    if flag % 0x80 == 3 && env.txIdx >= |env.tx.outs| {
      return Err(InvalidSigHashType);
    }
    var sigHash := env.sighash(flag, codeSep);
    if sigHash.Err? {
      return Err(sigHash.error);
    }
    dstack.PushByteArray(sigHash.value);
    return Ok(());
  }

  method CheckSigFromStackOpcode(env: SVM.Env, dstack: Stack) returns (r: OpResult)
    modifies dstack
    ensures Applied(r, dstack.stk, SVM.CheckStackSig(env, old(dstack.stk)))
  {
    var pubKey := dstack.PopByteArray();
    if pubKey.Err? {
      return Err(pubKey.error);
    }
    var message := dstack.PopByteArray();
    if message.Err? {
      return Err(message.error);
    }
    var signature := dstack.PopByteArray();
    if signature.Err? {
      return Err(signature.error);
    }
    if signature.value == [] {
      dstack.PushByteArray([]);
      return Ok(());
    }
    var scheme := SVM.SchemeOf(env, pubKey.value);
    if scheme.Err? {
      return Err(scheme.error);
    }
    if !SVM.SchemeVerifies(env, scheme.value.0, scheme.value.1, message.value, signature.value) {
      return Err(NullFail);
    }
    dstack.PushInt(1);
    return Ok(());
  }
}
