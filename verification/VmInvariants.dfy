/** What every run of the machine keeps: stack limits, element sizes, budgets. */
module VmInvariants {
  import opened Common
  import opened ScriptErrors
  import opened Numbers
  import opened NumberCodec
  import opened Tokenizers
  import opened Stacks
  import opened Instructions
  import opened Transactions
  import opened ScriptVM
  import opened ComputeLimits

  ghost predicate Bounded(s: Items) {
    forall x :: x in s ==> |x| <= MAX_ELEMENT_SIZE
  }

  /** The abstract parts return elements of bounded size. */
  ghost predicate BoundedEnv(env: Env) {
    && WireWidths(env.tx) && env.txIdx < |env.tx.ins|
    && (forall i :: i in env.tx.ins ==> |i.prevOut.hash| <= MAX_ELEMENT_SIZE)
    && (forall h, x :: |env.hash(h, x)| <= MAX_ELEMENT_SIZE)
    && (forall f, c :: env.sighash(f, c).Ok? ==> |env.sighash(f, c).value| <= MAX_ELEMENT_SIZE)
    && (forall op, d, a :: Bounded(d) && Bounded(a) && env.other(op, d, a).Ok? ==>
          Bounded(env.other(op, d, a).value.0) && Bounded(env.other(op, d, a).value.1))
  }

  ghost predicate BoundedResult(r: StackResult) {
    r.Ok? ==> Bounded(r.value)
  }

  /** A machine-sized number needs few bytes. */
  lemma EncodeFits(n: int)
    requires Abs(n) < 0x8000_0000
    ensures |Encode(n)| <= 4
  {
    EncodeLength(n, 4);
    ScaleByte(128, 0);
    ScaleByte(128, 8);
    ScaleByte(128, 16);
  }

  lemma PopBounded(s: Items)
    requires Bounded(s)
    ensures Pop(s).Ok? ==> Bounded(Pop(s).value.0) && |Pop(s).value.1| <= MAX_ELEMENT_SIZE
  {
  }

  lemma PushNumberBounded(s: Items, n: int)
    requires Bounded(s)
    ensures BoundedResult(PushNumber(s, n))
  {
  }

  lemma ArrangeBounded(op: StackOp, s: Items)
    requires Bounded(s) && |s| < 0x8000_0000
    ensures BoundedResult(Arrange(op, s))
  {
    hide ReadScriptNum, Encode, Truthy;
    match op
    case Depth => EncodeFits(|s|);
    case Size =>
      if s != [] {
        EncodeFits(|Last(s)|);
      }
    case Pick => PopBounded(s);
    case Roll => PopBounded(s);
    case _ =>
  }

  lemma SpliceBounded(op: SpliceOp, s: Items)
    requires Bounded(s)
    ensures BoundedResult(Splice(op, s))
  {
    hide ReadScriptNum, Combine, Inverted, Reversed;
    PopBounded(s);
    if Pop(s).Ok? {
      PopBounded(Pop(s).value.0);
      if Pop(Pop(s).value.0).Ok? {
        PopBounded(Pop(Pop(s).value.0).value.0);
      }
    }
  }

  lemma NumericBounded(uop: UnaryOp, nop: BinaryOp, left: bool, s: Items)
    requires Bounded(s)
    ensures BoundedResult(Unary(uop, s)) && BoundedResult(Binary(nop, s))
    ensures BoundedResult(WithinRange(s)) && BoundedResult(Shifted(left, s))
  {
    hide ReadNumber, ReadScriptNum, UnaryValue, BinaryValue, PushedNumber, PushNumber;
    forall rest: Items, n | Bounded(rest)
      ensures BoundedResult(PushNumber(rest, n))
    {
      PushNumberBounded(rest, n);
    }
  }

  lemma WidthBounded(s: Items)
    requires Bounded(s)
    ensures BoundedResult(ToFixed(s)) && BoundedResult(ToMinimal(s))
  {
    hide ReadNumber, ReadScriptNum, Fixed, Encode, Decode;
    forall n, size: nat | |Encode(n)| <= size
      ensures |Fixed(n, size)| == size
    {
      DecodeFixed(n, size);
    }
    PopBounded(s);
    if Pop(s).Ok? {
      MinimisingIsSafe(Pop(s).value.1);
    }
  }

  lemma PushScriptBounded(env: Env, s: Items, script: Bytes)
    requires Bounded(s) && BoundedEnv(env)
    ensures Bounded(PushScript(env, s, script))
  {
    EncodeFits(-1);
    assert |env.hash(Sha256, script)| <= MAX_ELEMENT_SIZE;
    if IsWitnessProgram(script) {
      EncodeFits(WitnessVersion(script));
    }
  }

  lemma PopIndexBounded(s: Items, count: nat)
    requires Bounded(s)
    ensures PopIndex(s, count).Ok? ==> Bounded(PopIndex(s, count).value.0)
  {
    PopBounded(s);
  }

  lemma InspectBounded(env: Env, op: InspectOp, s: Items)
    requires Bounded(s) && BoundedEnv(env)
    ensures BoundedResult(Inspect(env, op, s))
  {
    hide ReadScriptNum, Encode, PushedNumber, PushScript, PopIndex, PushNumber;
    var ins, outs := PopIndex(s, |env.tx.ins|), PopIndex(s, |env.tx.outs|);
    PopIndexBounded(s, |env.tx.ins|);
    PopIndexBounded(s, |env.tx.outs|);
    forall rest: Items, n | Bounded(rest)
      ensures BoundedResult(PushNumber(rest, n))
    {
      PushNumberBounded(rest, n);
    }
    forall rest: Items, script | Bounded(rest)
      ensures Bounded(PushScript(env, rest, script))
    {
      PushScriptBounded(env, rest, script);
    }
    match op
    case InputOutpoint =>
      if ins.Ok? {
        var i := env.tx.ins[ins.value.1];
        assert i in env.tx.ins;
        EncodeFitsWide(i.prevOut.index);
      }
    case CurrentIndex => EncodeFits(env.txIdx);
    case NumInputs => EncodeFits(|env.tx.ins|);
    case NumOutputs => EncodeFits(|env.tx.outs|);
    case _ =>
  }

  lemma EncodeFitsWide(n: int)
    requires Abs(n) <= 0xffff_ffff
    ensures |Encode(n)| <= 5
  {
    EncodeLength(n, 5);
    ScaleByte(128, 0);
    ScaleByte(128, 8);
    ScaleByte(128, 16);
    ScaleByte(128, 24);
  }

  lemma OtherStackBounded(env: Env, codeSep: nat, i: Instr, data: Bytes, s: Items)
    requires Bounded(s) && BoundedEnv(env) && |data| <= MAX_ELEMENT_SIZE && !Control(i)
    requires i.PushEmpty? || i.PushData? || i.PushNum? || i.Nop? || i.Verify? || i.EqualVerify?
             || i.NumEqualVerify? || i.HashInstr? || i.Digest? || i.InspectPacket? || i.Sighash? || i.CheckSigFromStack?
    requires i.PushNum? ==> -1 <= i.n <= 16
    ensures BoundedResult(StackEffect(env, codeSep, i, data, s))
  {
    hide ReadScriptNum, Encode, PushedNumber, PushNumber, FindPacket, Truthy, SchemeOf, SchemeVerifies, Binary, Splice;
    PopBounded(s);
    EncodeFits(1);
    match i
    case PushNum(n) => EncodeFits(n);
    case EqualVerify =>
      SpliceBounded(Equal, s);
      VerifiedBounded(Splice(Equal, s), ErrorCode.EqualVerify);
    case NumEqualVerify =>
      NumericBounded(Inc, NumEqual, true, s);
      VerifiedBounded(Binary(NumEqual, s), ErrorCode.NumEqualVerify);
    case Digest =>
      if PopScriptNum(s).Ok? {
        PopBounded(PopScriptNum(s).value.0);
      }
    case CheckSigFromStack =>
      if Pop(s).Ok? {
        PopBounded(Pop(s).value.0);
        if Pop(Pop(s).value.0).Ok? {
          PopBounded(Pop(Pop(s).value.0).value.0);
        }
      }
    case _ =>
  }

  lemma VerifiedBounded(r: StackResult, e: ErrorCode)
    requires BoundedResult(r)
    ensures r.Ok? ==> BoundedResult(Verified(r.value, e))
  {
    if r.Ok? {
      PopBounded(r.value);
    }
  }

  lemma StackEffectBounded(env: Env, codeSep: nat, i: Instr, data: Bytes, s: Items)
    requires Bounded(s) && BoundedEnv(env) && |data| <= MAX_ELEMENT_SIZE && !Control(i)
    requires |s| < 0x8000_0000 && (i.PushNum? ==> -1 <= i.n <= 16)
    ensures BoundedResult(StackEffect(env, codeSep, i, data, s))
  {
    hide Unary, Binary, WithinRange, Shifted, ToFixed, ToMinimal, Arrange, Splice, Inspect, Bounded;
    match i
    case StackInstr(sop) => ArrangeBounded(sop, s);
    case SpliceInstr(bop) => SpliceBounded(bop, s);
    case UnaryInstr(uop) => NumericBounded(uop, Add, true, s);
    case BinaryInstr(nop) => NumericBounded(Inc, nop, true, s);
    case Within => NumericBounded(Inc, Add, true, s);
    case ShiftLeft => NumericBounded(Inc, Add, true, s);
    case ShiftRight => NumericBounded(Inc, Add, false, s);
    case Num2Bin => WidthBounded(s);
    case Bin2Num => WidthBounded(s);
    case InspectInstr(iop) => InspectBounded(env, iop, s);
    case Return =>
    case Reserved =>
    case UpgradableNop =>
    case _ => OtherStackBounded(env, codeSep, i, data, s);
  }

  ghost predicate BoundedState(st: State) {
    Bounded(st.d) && Bounded(st.a)
  }

  lemma ControlBounded(env: Env, pos: nat, op: byte, st: State)
    requires BoundedState(st) && BoundedEnv(env) && Control(InstrOf(op))
    ensures ControlEffect(env, pos, op, st).Ok? ==> BoundedState(ControlEffect(env, pos, op, st).value)
  {
    hide InstrOf;
    PopBounded(st.d);
    PopBounded(st.a);
  }

  lemma PushNumRange(op: byte)
    ensures InstrOf(op).PushNum? ==> -1 <= InstrOf(op).n <= 16
  {
  }

  lemma EffectBounded(env: Env, pos: nat, op: byte, data: Bytes, st: State)
    requires BoundedState(st) && BoundedEnv(env) && |data| <= MAX_ELEMENT_SIZE && |st.d| < 0x8000_0000
    ensures Effect(env, pos, op, data, st).Ok? ==> BoundedState(Effect(env, pos, op, data, st).value)
  {
    PushNumRange(op);
    hide InstrOf, StackEffect, ControlEffect, Bounded;
    if Control(InstrOf(op)) {
      ControlBounded(env, pos, op, st);
    } else {
      StackEffectBounded(env, st.codeSep, InstrOf(op), data, st.d);
    }
  }

  /** After every successful step the stacks are within both limits and every
      element is at most 520 bytes. */
  lemma StepBounded(env: Env, pos: nat, t: Token, st: State)
    requires BoundedState(st) && BoundedEnv(env) && |st.d| < 0x8000_0000
    requires StepToken(env, pos, t, st).Ok?
    ensures BoundedState(StepToken(env, pos, t, st).value)
    ensures WithinLimits(StepToken(env, pos, t, st).value)
  {
    hide Effect, Charge, WithinLimits, MinimalPush, BoundedState;
    ChargeKeepsStacks(env, t.op, st);
    if Charge(env, t.op, st).Ok? {
      EffectBounded(env, pos, t.op, t.data, Charge(env, t.op, st).value);
    }
  }

  lemma ChargeKeepsStacks(env: Env, op: byte, st: State)
    ensures Charge(env, op, st).Ok? ==>
              var next := Charge(env, op, st).value; next.d == st.d && (BoundedState(st) ==> BoundedState(next))
  {
  }

  /** The same over every nonempty run. */
  lemma {:induction false} RunBounded(env: Env, pos: nat, ts: seq<Token>, st: State)
    requires BoundedState(st) && BoundedEnv(env) && |st.d| < 0x8000_0000
    requires RunTokens(env, pos, ts, st).Ok?
    ensures BoundedState(RunTokens(env, pos, ts, st).value)
    ensures ts != [] ==> WithinLimits(RunTokens(env, pos, ts, st).value)
    decreases |ts|
  {
    hide StepToken, BoundedState, BoundedEnv, ByteSize;
    if ts != [] {
      StepBounded(env, pos, ts[0], st);
      var next := StepToken(env, pos, ts[0], st).value;
      RunBounded(env, pos + 1, ts[1..], next);
    }
  }

  // ---- budgets ----

  /** The opcodes of a run that are charged: those executed, and conditionals
      wherever they stand. */
  function Charged(env: Env, pos: nat, ts: seq<Token>, st: State): seq<byte>
    decreases |ts|
  {
    if ts == [] || StepToken(env, pos, ts[0], st).Err? then []
    else
      (if Executing(st.cond) || Conditional(ts[0].op) then [ts[0].op] else [])
      + Charged(env, pos + 1, ts[1..], StepToken(env, pos, ts[0], st).value)
  }

  lemma EffectKeepsCounts(env: Env, pos: nat, op: byte, data: Bytes, st: State)
    ensures Effect(env, pos, op, data, st).Ok? ==>
              var next := Effect(env, pos, op, data, st).value;
              next.counts == st.counts && next.sharedCounts == st.sharedCounts
  {
    hide StackEffect, InstrOf;
  }

  lemma StepCharges(env: Env, pos: nat, t: Token, st: State)
    requires StepToken(env, pos, t, st).Ok?
    ensures var next := StepToken(env, pos, t, st).value;
            if Executing(st.cond) || Conditional(t.op) then
              && ChargeTable(env.limits, st.counts, t.op) == Ok(next.counts)
              && ChargeTable(env.sharedLimits, st.sharedCounts, t.op) == Ok(next.sharedCounts)
            else next.counts == st.counts && next.sharedCounts == st.sharedCounts
  {
    hide Effect, ChargeTable, WithinLimits, MinimalPush;
    if Charge(env, t.op, st).Ok? {
      EffectKeepsCounts(env, pos, t.op, t.data, Charge(env, t.op, st).value);
    }
  }

  lemma {:induction false} RunCharges(env: Env, pos: nat, ts: seq<Token>, st: State)
    requires RunTokens(env, pos, ts, st).Ok?
    ensures var end := RunTokens(env, pos, ts, st).value;
            && ChargeAll(env.limits, st.counts, Charged(env, pos, ts, st)) == Ok(end.counts)
            && ChargeAll(env.sharedLimits, st.sharedCounts, Charged(env, pos, ts, st)) == Ok(end.sharedCounts)
    decreases |ts|
  {
    hide StepToken, ChargeTable;
    if ts != [] {
      StepCharges(env, pos, ts[0], st);
      var next := StepToken(env, pos, ts[0], st).value;
      RunCharges(env, pos + 1, ts[1..], next);
      var ops, rest := Charged(env, pos, ts, st), Charged(env, pos + 1, ts[1..], next);
      if Executing(st.cond) || Conditional(ts[0].op) {
        assert ops == [ts[0].op] + rest && ops[0] == ts[0].op && ops[1..] == rest;
      } else {
        assert ops == rest;
      }
    }
  }

  /** In one input no limited opcode runs more often than its limit, and the
      shared counters grow by exactly what was run. */
  lemma InputWithinBudget(env: Env, ts: seq<Token>, stack: Items, shared: Counts, op: byte)
    requires RunTokens(env, 0, ts, NewState(stack, shared)).Ok?
    ensures var ran := Occurrences(op, Charged(env, 0, ts, NewState(stack, shared)));
            var after := RunTokens(env, 0, ts, NewState(stack, shared)).value.sharedCounts;
            && (op in env.limits && ran > 0 ==> ran <= env.limits[op])
            && (op in env.sharedLimits ==> CountOf(after, op) == CountOf(shared, op) + ran)
            && (op in env.sharedLimits && ran > 0 ==> CountOf(after, op) <= env.sharedLimits[op])
  {
    hide RunTokens, StepToken;
    var st := NewState(stack, shared);
    var ops := Charged(env, 0, ts, st);
    RunCharges(env, 0, ts, st);
    ChargeAllExact(env.limits, map[], ops);
    ChargeAllExact(env.sharedLimits, shared, ops);
  }

  /** One input of a request: its environment, token list and starting stack. */
  datatype InputRun = InputRun(env: Env, ts: seq<Token>, stack: Items)

  /** The shared counters after the inputs of a request, if all of them run. */
  function AfterRequest(runs: seq<InputRun>, shared: Counts): Result<Counts, ErrorCode>
    decreases |runs|
  {
    if runs == [] then Ok(shared)
    else
      var end :- RunTokens(runs[0].env, 0, runs[0].ts, NewState(runs[0].stack, shared));
      AfterRequest(runs[1..], end.sharedCounts)
  }

  /** How often an opcode is charged over a whole request. */
  function RequestOccurrences(op: byte, runs: seq<InputRun>, shared: Counts): nat
    decreases |runs|
  {
    if runs == [] then 0
    else
      var r := runs[0];
      var st := NewState(r.stack, shared);
      match RunTokens(r.env, 0, r.ts, st)
      case Err(_) => 0
      case Ok(end) =>
        Occurrences(op, Charged(r.env, 0, r.ts, st)) + RequestOccurrences(op, runs[1..], end.sharedCounts)
  }

  /** Over a whole request the total stays within the aggregate limit. */
  lemma {:induction false} RequestWithinBudget(runs: seq<InputRun>, limits: Limits, shared: Counts, op: byte)
    requires forall r :: r in runs ==> r.env.sharedLimits == limits
    requires op in limits && CountOf(shared, op) <= limits[op]
    requires AfterRequest(runs, shared).Ok?
    ensures CountOf(shared, op) + RequestOccurrences(op, runs, shared) <= limits[op]
    ensures CountOf(AfterRequest(runs, shared).value, op) == CountOf(shared, op) + RequestOccurrences(op, runs, shared)
    decreases |runs|
  {
    hide RunTokens, StepToken, Charged;
    if runs != [] {
      var r := runs[0];
      InputWithinBudget(r.env, r.ts, r.stack, shared, op);
      var end := RunTokens(r.env, 0, r.ts, NewState(r.stack, shared)).value;
      RequestWithinBudget(runs[1..], limits, end.sharedCounts, op);
    }
  }
}
