/** Scripts without conditionals or alternate stack: their effect is a fold over
    the data stack, and the machine's extra checks are bounded by the script. */
module StraightLine {
  import opened Common
  import opened ScriptErrors
  import opened Tokenizers
  import opened Stacks
  import opened Instructions
  import opened ScriptVM
  import opened ComputeLimits
  import opened VmInvariants
  import opened Numbers
  import opened NumberCodec
  import opened Transactions

  predicate Straight(ts: seq<Token>) {
    forall t :: t in ts ==> !Control(InstrOf(t.op)) && t.op != OP_VERIF && t.op != OP_VERNOTIF
  }

  /** Every push is minimal and fits one element. */
  predicate GoodPushes(ts: seq<Token>) {
    forall t :: t in ts ==> |t.data| <= MAX_ELEMENT_SIZE && (t.op <= OP_PUSHDATA4 ==> MinimalPush(t.op, t.data))
  }

  function Flow(env: Env, t: Token, s: Items): StackResult {
    if Control(InstrOf(t.op)) then Err(OtherOpcode)
    else StackEffect(env, BLANK_CODE_SEP, InstrOf(t.op), t.data, s)
  }

  function FlowAll(env: Env, ts: seq<Token>, s: Items): StackResult
    decreases |ts|
  {
    if ts == [] then Ok(s)
    else
      var next :- Flow(env, ts[0], s);
      FlowAll(env, ts[1..], next)
  }

  function Ops(ts: seq<Token>): seq<byte> {
    if ts == [] then [] else [ts[0].op] + Ops(ts[1..])
  }

  lemma {:induction false} FlowAppend(env: Env, ts: seq<Token>, us: seq<Token>, s: Items)
    ensures FlowAll(env, ts + us, s) ==
            match FlowAll(env, ts, s)
            case Ok(mid) => FlowAll(env, us, mid)
            case Err(e) => Err(e)
    decreases |ts|
  {
    hide Flow;
    if ts == [] {
      assert ts + us == us;
    } else {
      assert (ts + us)[1..] == ts[1..] + us;
      if Flow(env, ts[0], s).Ok? {
        FlowAppend(env, ts[1..], us, Flow(env, ts[0], s).value);
      }
    }
  }

  lemma FlowOne(env: Env, t: Token, s: Items)
    ensures FlowAll(env, [t], s) == Flow(env, t, s)
  {
    hide Flow;
    if Flow(env, t, s).Ok? {
      assert [t][1..] == [];
    }
  }

  /** What one successful step of the machine did to the data stack. */
  lemma StepIsFlow(env: Env, pos: nat, t: Token, st: State)
    requires Straight([t]) && st.cond == [] && st.codeSep == BLANK_CODE_SEP
    ensures StepToken(env, pos, t, st).Ok? ==>
              && Flow(env, t, st.d).Ok?
              && var next := StepToken(env, pos, t, st).value;
                 next.d == Flow(env, t, st.d).value && next.a == st.a
                 && next.cond == [] && next.codeSep == BLANK_CODE_SEP
  {
    hide StackEffect, InstrOf, ChargeTable, WithinLimits, MinimalPush;
    assert t in [t];
  }

  /** A successful run computes the fold. */
  lemma {:induction false} RunIsFlow(env: Env, pos: nat, ts: seq<Token>, st: State)
    requires Straight(ts) && st.cond == [] && st.codeSep == BLANK_CODE_SEP
    requires RunTokens(env, pos, ts, st).Ok?
    ensures FlowAll(env, ts, st.d) == Ok(RunTokens(env, pos, ts, st).value.d)
    ensures RunTokens(env, pos, ts, st).value.cond == []
    decreases |ts|
  {
    hide StepToken, Flow;
    if ts != [] {
      StepIsFlow(env, pos, ts[0], st);
      RunIsFlow(env, pos + 1, ts[1..], StepToken(env, pos, ts[0], st).value);
    }
  }

  // ---- when the machine's own limits cannot interfere ----

  /** Instructions that leave the stack at most one item taller. */
  predicate Modest(i: Instr) {
    || i.PushEmpty? || i.PushData? || i.PushNum? || i.Verify? || i.EqualVerify? || i.BinaryInstr?
    || i.HashInstr? || i.InspectInstr? || i.InspectPacket? || i.Sighash? || i.CheckSigFromStack?
    || (i.StackInstr? && (i.sop == Dup(1) || i.sop == Drop(1) || i.sop == Swap(1)))
    || (i.SpliceInstr? && i.bop == Cat)
  }

  lemma InspectGrowth(env: Env, op: InspectOp, s: Items)
    requires Inspect(env, op, s).Ok?
    ensures |Inspect(env, op, s).value| <= |s| + 1
  {
    hide ReadScriptNum, PushedNumber, Encode, IsWitnessProgram;
  }

  lemma ModestGrowth(env: Env, codeSep: nat, i: Instr, data: Bytes, s: Items)
    requires Modest(i) && StackEffect(env, codeSep, i, data, s).Ok?
    ensures |StackEffect(env, codeSep, i, data, s).value| <= |s| + 1
  {
    hide ReadNumber, ReadScriptNum, PushedNumber, BinaryValue, Encode, Truthy;
    hide FindPacket, SchemeOf, SchemeVerifies, HashOf;
    match i
    case InspectInstr(iop) => InspectGrowth(env, iop, s);
    case StackInstr(sop) => hide Inspect, Splice, Binary;
    case BinaryInstr(nop) => hide Inspect, Splice, Arrange;
    case _ => hide Arrange, Inspect, Binary;
  }

  lemma {:induction false} BoundedBytes(s: Items)
    requires Bounded(s)
    ensures ByteSize(s) <= MAX_ELEMENT_SIZE * |s|
  {
    if s != [] {
      BoundedBytes(s[..|s| - 1]);
      assert Last(s) in s;
    }
  }

  /** The items one element each of which the machine's byte limit always admits. */
  const SAFE_DEPTH: nat := 252

  lemma SmallWithinLimits(st: State)
    requires Bounded(st.d) && |st.d| <= SAFE_DEPTH && st.a == []
    ensures WithinLimits(st)
  {
    BoundedBytes(st.d);
  }

  lemma FlowIsStep(env: Env, pos: nat, t: Token, st: State)
    requires Straight([t]) && GoodPushes([t]) && Modest(InstrOf(t.op)) && BoundedEnv(env)
    requires st.cond == [] && st.codeSep == BLANK_CODE_SEP && st.a == []
    requires Bounded(st.d) && |st.d| < SAFE_DEPTH
    requires ChargeTable(env.limits, st.counts, t.op).Ok?
    requires ChargeTable(env.sharedLimits, st.sharedCounts, t.op).Ok?
    requires Flow(env, t, st.d).Ok?
    ensures StepToken(env, pos, t, st).Ok?
    ensures var next := StepToken(env, pos, t, st).value;
            && next.d == Flow(env, t, st.d).value && next.a == [] && next.cond == []
            && next.codeSep == BLANK_CODE_SEP && Bounded(next.d) && |next.d| <= |st.d| + 1
            && Ok(next.counts) == ChargeTable(env.limits, st.counts, t.op)
            && Ok(next.sharedCounts) == ChargeTable(env.sharedLimits, st.sharedCounts, t.op)
  {
    assert t in [t];
    ModestGrowth(env, BLANK_CODE_SEP, InstrOf(t.op), t.data, st.d);
    PushNumRange(t.op);
    hide StackEffect, InstrOf, ChargeTable, WithinLimits, MinimalPush, Bounded;
    StackEffectBounded(env, BLANK_CODE_SEP, InstrOf(t.op), t.data, st.d);
    SmallWithinLimits(st.(d := Flow(env, t, st.d).value,
                          counts := ChargeTable(env.limits, st.counts, t.op).value,
                          sharedCounts := ChargeTable(env.sharedLimits, st.sharedCounts, t.op).value));
  }

  predicate AllModest(ts: seq<Token>) {
    forall t :: t in ts ==> Modest(InstrOf(t.op))
  }

  /** A short straight-line script that folds successfully also runs. */
  lemma {:induction false} FlowIsRun(env: Env, pos: nat, ts: seq<Token>, st: State)
    requires Straight(ts) && GoodPushes(ts) && AllModest(ts) && BoundedEnv(env)
    requires st.cond == [] && st.codeSep == BLANK_CODE_SEP && st.a == []
    requires Bounded(st.d) && |st.d| + |ts| <= SAFE_DEPTH
    requires ChargeAll(env.limits, st.counts, Ops(ts)).Ok?
    requires ChargeAll(env.sharedLimits, st.sharedCounts, Ops(ts)).Ok?
    requires FlowAll(env, ts, st.d).Ok?
    ensures RunTokens(env, pos, ts, st).Ok?
    decreases |ts|
  {
    hide StepToken, Flow, ChargeTable, Bounded, Modest, InstrOf, BoundedEnv, MinimalPush;
    if ts != [] {
      assert ts[0] in ts;
      assert Ops(ts)[1..] == Ops(ts[1..]) && Ops(ts)[0] == ts[0].op;
      FlowIsStep(env, pos, ts[0], st);
      FlowIsRun(env, pos + 1, ts[1..], StepToken(env, pos, ts[0], st).value);
    }
  }
}
