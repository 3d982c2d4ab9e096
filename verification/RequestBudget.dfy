/** The request-wide budget over whole runs of the machine: it changes nothing but
    its own counters, and for up to four inputs it never gets in the way. */
module RequestBudget {
  import opened Common
  import opened ScriptErrors
  import opened Tokenizers
  import opened Instructions
  import opened ScriptVM
  import opened ComputeLimits
  import opened VmInvariants

  /** The machine without a request-wide budget. */
  function Unshared(env: Env): Env {
    env.(sharedLimits := map[])
  }

  lemma EffectIgnoresCounters(env: Env, pos: nat, op: byte, data: Bytes, st: State, shared: Counts)
    ensures Effect(env, pos, op, data, st.(sharedCounts := shared)) ==
            match Effect(Unshared(env), pos, op, data, st)
            case Ok(next) => Ok(next.(sharedCounts := shared))
            case Err(e) => Err(e)
  {
    hide InstrOf;
    StackEffectIgnores(env, st.codeSep, InstrOf(op), data, st.d);
    hide StackEffect;
  }

  lemma StackEffectIgnores(env: Env, codeSep: nat, i: Instr, data: Bytes, s: seq<Bytes>)
    ensures !Control(i) ==> StackEffect(env, codeSep, i, data, s) == StackEffect(Unshared(env), codeSep, i, data, s)
  {
    hide Arrange, Splice, Unary, Binary, WithinRange, Shifted;
    hide ToFixed, ToMinimal, Verified, EqualVerified, NumEqualVerified;
    match i
    case InspectInstr(iop) => InspectIgnores(env, iop, s);
    case _ => hide Inspect;
  }

  lemma InspectIgnores(env: Env, op: InspectOp, s: seq<Bytes>)
    ensures Inspect(env, op, s) == Inspect(Unshared(env), op, s)
  {
    hide PopIndex, PushNumber;
  }

  /** A step with the shared budget is the step without it, and one shared charge. */
  lemma StepShares(env: Env, pos: nat, t: Token, st: State, shared: Counts)
    requires StepToken(Unshared(env), pos, t, st).Ok?
    ensures var ops := if Executing(st.cond) || Conditional(t.op) then [t.op] else [];
            ChargeAll(env.sharedLimits, shared, ops).Ok? ==>
              StepToken(env, pos, t, st.(sharedCounts := shared))
              == Ok(StepToken(Unshared(env), pos, t, st).value
                  .(sharedCounts := ChargeAll(env.sharedLimits, shared, ops).value))
  {
    hide Effect, ChargeTable, MinimalPush, ByteSize;
    OneChargeAll(env.sharedLimits, shared, t.op);
    NoCharge(st.sharedCounts, t.op);
    if ChargeTable(env.limits, st.counts, t.op).Ok? && ChargeTable(env.sharedLimits, shared, t.op).Ok? {
      var counts := ChargeTable(env.limits, st.counts, t.op).value;
      EffectIgnoresCounters(env, pos, t.op, t.data, st.(counts := counts),
        ChargeTable(env.sharedLimits, shared, t.op).value);
    }
  }

  lemma OneChargeAll(limits: Limits, counts: Counts, op: byte)
    ensures ChargeAll(limits, counts, [op]) == ChargeTable(limits, counts, op)
    ensures ChargeAll(limits, counts, []) == Ok(counts)
  {
    hide ChargeTable;
    assert [op][1..] == [];
  }

  lemma NoCharge(counts: Counts, op: byte)
    ensures ChargeTable(map[], counts, op) == Ok(counts)
  {
  }

  lemma {:induction false} ChargeAppend(limits: Limits, counts: Counts, xs: seq<byte>, ys: seq<byte>)
    ensures ChargeAll(limits, counts, xs + ys) ==
            match ChargeAll(limits, counts, xs)
            case Ok(mid) => ChargeAll(limits, mid, ys)
            case Err(e) => Err(e)
    decreases |xs|
  {
    hide ChargeTable;
    if xs == [] {
      assert xs + ys == ys;
    } else {
      assert (xs + ys)[1..] == xs[1..] + ys;
      if ChargeTable(limits, counts, xs[0]).Ok? {
        ChargeAppend(limits, ChargeTable(limits, counts, xs[0]).value, xs[1..], ys);
      }
    }
  }

  /** A run that goes through without the shared budget goes through with it, as
      long as the budget admits the opcodes the run is charged for. */
  lemma {:induction false} RunShares(env: Env, pos: nat, ts: seq<Token>, st: State, shared: Counts)
    requires RunTokens(Unshared(env), pos, ts, st).Ok?
    requires ChargeAll(env.sharedLimits, shared, Charged(Unshared(env), pos, ts, st)).Ok?
    ensures var charged := ChargeAll(env.sharedLimits, shared, Charged(Unshared(env), pos, ts, st)).value;
            RunTokens(env, pos, ts, st.(sharedCounts := shared))
            == Ok(RunTokens(Unshared(env), pos, ts, st).value.(sharedCounts := charged))
    decreases |ts|
  {
    hide StepToken, ChargeTable, Conditional, Unshared;
    if ts != [] {
      var ops := if Executing(st.cond) || Conditional(ts[0].op) then [ts[0].op] else [];
      var next := StepToken(Unshared(env), pos, ts[0], st).value;
      ChargeAppend(env.sharedLimits, shared, ops, Charged(Unshared(env), pos + 1, ts[1..], next));
      StepShares(env, pos, ts[0], st, shared);
      RunShares(env, pos + 1, ts[1..], next, ChargeAll(env.sharedLimits, shared, ops).value);
    }
  }

  /** The opcodes each input of a request is charged for. */
  function ChargedInputs(runs: seq<InputRun>): (r: seq<seq<byte>>)
    ensures |r| == |runs|
    ensures forall i :: 0 <= i < |r| ==>
              r[i] == Charged(Unshared(runs[i].env), 0, runs[i].ts, NewState(runs[i].stack, map[]))
  {
    if runs == [] then []
    else [Charged(Unshared(runs[0].env), 0, runs[0].ts, NewState(runs[0].stack, map[]))] + ChargedInputs(runs[1..])
  }

  /** Every input runs within its own limits. */
  ghost predicate EachRuns(runs: seq<InputRun>) {
    forall r :: r in runs ==> RunTokens(Unshared(r.env), 0, r.ts, NewState(r.stack, map[])).Ok?
  }

  lemma {:induction false} RequestShares(runs: seq<InputRun>, limits: Limits, shared: Counts)
    requires EachRuns(runs) && forall r :: r in runs ==> r.env.sharedLimits == limits
    requires ChargeAll(limits, shared, Flatten(ChargedInputs(runs))).Ok?
    ensures AfterRequest(runs, shared).Ok?
    decreases |runs|
  {
    hide RunTokens, Charged, ChargeTable, Unshared;
    if runs != [] {
      var r := runs[0];
      assert r in runs;
      var first, rest := ChargedInputs(runs)[0], ChargedInputs(runs[1..]);
      assert ChargedInputs(runs)[1..] == rest;
      ChargeAppend(limits, shared, first, Flatten(rest));
      RunShares(r.env, 0, r.ts, NewState(r.stack, map[]), shared);
      RequestShares(runs[1..], limits, ChargeAll(limits, shared, first).value);
    }
  }

  /** Up to four inputs that each run within their limits run together: the shared
      budget refuses nothing, as long as no limit saturates. */
  lemma RequestNeverRefused(runs: seq<InputRun>, limits: Limits, shared: Limits)
    requires |runs| <= REQUEST_INPUT_BUDGET && EachRuns(runs)
    requires forall r :: r in runs ==> r.env.limits == limits && r.env.sharedLimits == shared
    requires shared.Keys == limits.Keys && forall op :: op in limits ==> shared[op] == Scaled(limits[op])
    requires forall op :: op in limits ==> limits[op] <= MAX_INT / REQUEST_INPUT_BUDGET
    ensures AfterRequest(runs, map[]).Ok?
  {
    hide RunTokens, Charged, ChargeTable, ChargeAll;
    var inputs := ChargedInputs(runs);
    forall i | 0 <= i < |inputs|
      ensures ChargeAll(limits, map[], inputs[i]).Ok?
    {
      var r := runs[i];
      assert r in runs;
      RunCharges(Unshared(r.env), 0, r.ts, NewState(r.stack, map[]));
    }
    SharedBudgetSuffices(limits, shared, inputs);
    RequestShares(runs, shared, map[]);
  }
}
