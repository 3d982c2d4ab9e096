/** The script engine: the object that steps through scripts token by token,
    proved to return the outcome the scripts denote. */
module Engines {
  import opened Common
  import opened ScriptErrors
  import opened Numbers
  import opened Tokenizers
  import opened Stacks
  import opened Instructions
  import opened Transactions
  import opened Opcodes
  import opened ComputeLimits
  import opened NumberCodec
  import opened BigNums
  import SVM = ScriptVM

  const MAX_SCRIPT_SIZE: nat := 10_000

  /** What is still to come: the rest of the current script, then the scripts
      after it, then the verdict. */
  function Continue(env: SVM.Env, scripts: seq<Bytes>, idx: nat, rest: Bytes, pos: nat, st: SVM.State)
    : Result<(), ErrorCode>
  {
    if idx >= |scripts| then SVM.Verdict(st)
    else
      var ts :- Tokenize(rest);
      var end :- SVM.RunTokens(env, pos, ts, st);
      var closed :- SVM.EndScript(end);
      SVM.Outcome(env, scripts[idx + 1..], closed)
  }

  /** The steps still to take: one per token. */
  function TokenCount(script: Bytes): nat {
    match Tokenize(script)
    case Ok(ts) => |ts|
    case Err(_) => 0
  }

  function TotalTokens(scripts: seq<Bytes>): nat {
    if scripts == [] then 0 else TokenCount(scripts[0]) + TotalTokens(scripts[1..])
  }

  class Engine {
    const env: SVM.Env
    const scripts: seq<Bytes>
    const dstack: Stack
    const astack: Stack
    const budget: ComputeBudget
    var scriptIdx: nat
    var opcodeIdx: nat
    var tokenizer: ScriptTokenizer
    var condStack: seq<SVM.Cond>
    var codeSepPos: nat
    var opCounts: Counts

    /** The parts an opcode function relies on. */
    ghost predicate Wired()
      reads this, dstack
    {
      && dstack != astack
      && budget.limits == env.sharedLimits
      && WireWidths(env.tx) && env.txIdx < |env.tx.ins|
      && Representable(dstack.stk)
    }

    ghost predicate Valid0()
      reads this, dstack
    {
      && Wired()
      && |scripts| == 2
      && (forall i :: 0 <= i < |scripts| ==> Tokenize(scripts[i]).Ok?)
    }

    ghost predicate Valid()
      reads this, dstack, tokenizer
    {
      && Valid0()
      && tokenizer.Valid()
      && (scriptIdx < |scripts| ==>
            && tokenizer.err == None && !tokenizer.Done()
            && tokenizer.opcodePos >= -1
            && Tokenize(tokenizer.Rest()).Ok?)
    }

    /** The machine state as a value. */
    ghost function Now(): SVM.State
      reads this, dstack, astack, budget
    {
      SVM.State(dstack.stk, astack.stk, condStack, codeSepPos, opCounts, budget.opCounts)
    }

    ghost function Pending(): Result<(), ErrorCode>
      requires Valid()
      reads this, dstack, astack, budget, tokenizer
    {
      Continue(env, scripts, scriptIdx,
               if scriptIdx < |scripts| then tokenizer.Rest() else [],
               if scriptIdx < |scripts| then tokenizer.opcodePos + 1 else 0, Now())
    }

    ghost function StepsLeft(): nat
      requires Valid()
      reads this, dstack, astack, budget, tokenizer
    {
      if scriptIdx >= |scripts| then 0
      else TokenCount(tokenizer.Rest()) + TotalTokens(scripts[scriptIdx + 1..])
    }

    /** An engine for two scripts that both parse; the first may be empty. */
    constructor (env: SVM.Env, sigScript: Bytes, script: Bytes, startStack: Items, budget: ComputeBudget)
      requires budget.limits == env.sharedLimits
      requires WireWidths(env.tx) && env.txIdx < |env.tx.ins|
      requires Tokenize(sigScript).Ok? && Tokenize(script).Ok?
      requires sigScript != [] || script != []
      requires Representable(startStack)
      ensures Valid() && fresh(dstack) && fresh(astack) && fresh(tokenizer)
      ensures this.env == env && this.budget == budget
      ensures scripts == [sigScript, script]
      ensures Now() == SVM.NewState(startStack, budget.opCounts)
      ensures Pending() == SVM.Outcome(env, [sigScript, script], Now())
      ensures StepsLeft() == TotalTokens(scripts)
    {
      this.env := env;
      this.scripts := [sigScript, script];
      this.budget := budget;
      dstack := new Stack();
      astack := new Stack();
      scriptIdx := if sigScript == [] then 1 else 0;
      opcodeIdx := 0;
      tokenizer := new ScriptTokenizer(0, if sigScript == [] then script else sigScript);
      condStack := [];
      codeSepPos := SVM.BLANK_CODE_SEP;
      opCounts := map[];
      new;
      dstack.stk := startStack;
      assert tokenizer.Rest() == tokenizer.script;
      OutcomeOfTwo(env, sigScript, script, Now());
      CountOfTwo(sigScript, script);
      assert scripts[1..] == [script] && scripts[2..] == [];
    }

    /** isBranchExecuting. */
    predicate BranchExecuting()
      reads this
    {
      if |condStack| == 0 then true else condStack[|condStack| - 1] == SVM.CondTrue
    }

    /** The counters grow even when a limit refuses. */
    method ChargeOpcode(op: byte) returns (r: OpResult)
      requires Wired()
      modifies this`opCounts, budget
      ensures match SVM.Charge(env, op, old(Now()))
              case Ok(st) => r.Ok? && Now() == st
              case Err(e) => r == Err(e)
      ensures var count := SVM.CountOf(old(opCounts), op) + 1;
              r.Err? ==>
                if op in env.limits && count > env.limits[op] then
                  opCounts == old(opCounts)[op := count] && budget.opCounts == old(budget.opCounts)
                else
                  && opCounts == (if op in env.limits then old(opCounts)[op := count] else old(opCounts))
                  && budget.opCounts == old(budget.opCounts)[op := SVM.CountOf(old(budget.opCounts), op) + 1]
    {
      if op in env.limits {
        opCounts := opCounts[op := SVM.CountOf(opCounts, op) + 1];
        if opCounts[op] > env.limits[op] {
          return Err(ScriptTooBig);
        }
      }
      r := budget.Charge(op);
    }

    /** opcodeIf and opcodeNotIf. */
    method IfOpcode(branch: bool) returns (r: OpResult)
      requires Wired()
      modifies this`condStack, dstack
      ensures match SVM.EnterIf(branch, old(Now()))
              case Ok(st) => r.Ok? && Now() == st
              case Err(e) => r == Err(e)
    {
      var condVal := SVM.CondFalse;
      if BranchExecuting() {
        var so := dstack.PopByteArray();
        if so.Err? {
          return Err(so.error);
        }
        if |so.value| > 1 {
          return Err(MinimalIf);
        }
        if |so.value| == 1 && so.value[0] != 1 {
          return Err(MinimalIf);
        }
        var ok := AsBool(so.value);
        assert so.value == [] || so.value == [1];
        assert ok <==> so.value == [1] by {
          if so.value == [1] {
            assert so.value[0] != 0;
          }
        }
        if ok == branch {
          condVal := SVM.CondTrue;
        }
      } else {
        condVal := SVM.CondSkip;
      }
      condStack := condStack + [condVal];
      return Ok(());
    }

    method ElseOpcode() returns (r: OpResult)
      modifies this`condStack
      ensures match SVM.TakeElse(old(Now()))
              case Ok(st) => r.Ok? && Now() == st
              case Err(e) => r == Err(e)
    {
      if |condStack| == 0 {
        return Err(UnbalancedConditional);
      }
      var conditionalIdx := |condStack| - 1;
      match condStack[conditionalIdx] {
        case CondTrue => condStack := condStack[conditionalIdx := SVM.CondFalse];
        case CondFalse => condStack := condStack[conditionalIdx := SVM.CondTrue];
        case CondSkip =>
      }
      return Ok(());
    }

    method EndIfOpcode() returns (r: OpResult)
      modifies this`condStack
      ensures match SVM.LeaveIf(old(Now()))
              case Ok(st) => r.Ok? && Now() == st
              case Err(e) => r == Err(e)
    {
      if |condStack| == 0 {
        return Err(UnbalancedConditional);
      }
      condStack := condStack[..|condStack| - 1];
      return Ok(());
    }

    /** The opcodes that change more than the data stack. */
    method ControlOpcode(op: byte) returns (r: OpResult)
      requires Wired() && SVM.Control(InstrOf(op)) && tokenizer.opcodePos >= 0
      modifies this`condStack, this`codeSepPos, dstack, astack
      ensures match SVM.ControlEffect(env, tokenizer.opcodePos, op, old(Now()))
              case Ok(st) => r.Ok? && Now() == st
              case Err(e) => r == Err(e)
    {
      match InstrOf(op) {
        case If(branch) => r := IfOpcode(branch);
        case Else => r := ElseOpcode();
        case EndIf => r := EndIfOpcode();
        case ToAltStack =>
          var so := dstack.PopByteArray();
          if so.Err? {
            return Err(so.error);
          }
          astack.PushByteArray(so.value);
          r := Ok(());
        case FromAltStack =>
          var so := astack.PopByteArray();
          if so.Err? {
            return Err(so.error);
          }
          dstack.PushByteArray(so.value);
          r := Ok(());
        case CodeSeparator =>
          codeSepPos := tokenizer.opcodePos;
          r := Ok(());
        case Other =>
          var result := env.other(op, dstack.stk, astack.stk);
          if result.Err? {
            return Err(result.error);
          }
          dstack.stk := result.value.0;
          astack.stk := result.value.1;
          r := Ok(());
      }
    }

    /** The opcodes over the data stack alone. */
    method StackOnlyOpcode(i: Instr, data: Bytes) returns (r: OpResult)
      requires Wired() && !SVM.Control(i)
      requires i.StackInstr? && (i.sop.Drop? || i.sop.Dup? || i.sop.Over? || i.sop.Rot? || i.sop.Swap?) ==> i.sop.n <= 3
      requires i.PushNum? ==> -1 <= i.n <= 16
      modifies dstack
      ensures Applied(r, dstack.stk, SVM.StackEffect(env, codeSepPos, i, data, old(dstack.stk)))
    {
      match i {
        case PushEmpty => dstack.PushByteArray([]); r := Ok(());
        case PushData => dstack.PushByteArray(data); r := Ok(());
        case PushNum(n) => dstack.PushInt(n); r := Ok(());
        case Nop => r := Ok(());
        case Verify => r := AbstractVerify(dstack, VerifyFailed);
        case Return => r := Err(EarlyReturn);
        case StackInstr(sop) => r := StackOpcode(dstack, sop);
        case SpliceInstr(bop) => r := SpliceOpcode(dstack, bop);
        case EqualVerify => r := EqualVerifyOpcode(dstack);
        case UnaryInstr(uop) => r := UnaryOpcode(dstack, uop);
        case BinaryInstr(nop) => r := BinaryOpcode(dstack, nop);
        case NumEqualVerify => r := NumEqualVerifyOpcode(dstack);
        case Within => r := WithinOpcode(dstack);
        case ShiftLeft => r := ShiftOpcode(dstack, true);
        case ShiftRight => r := ShiftOpcode(dstack, false);
        case Num2Bin => r := Num2BinOpcode(dstack);
        case Bin2Num => r := Bin2NumOpcode(dstack);
        case HashInstr(hop) => r := HashOpcode(env, dstack, hop);
        case Digest => r := DigestOpcode(env, dstack);
        case InspectInstr(iop) => r := InspectOpcode(env, dstack, iop);
        case InspectPacket => r := InspectPacketOpcode(env, dstack);
        case Sighash => r := SighashOpcode(env, codeSepPos, dstack);
        case CheckSigFromStack => r := CheckSigFromStackOpcode(env, dstack);
        case Reserved => r := Err(ReservedOpcode);
        case UpgradableNop => r := Err(DiscourageUpgradableNOPs);
      }
    }

    method ExecuteOpcode(op: byte, data: Bytes) returns (r: OpResult)
      requires Wired() && tokenizer.opcodePos >= 0
      modifies this`condStack, this`codeSepPos, this`opCounts, dstack, astack, budget
      ensures match SVM.ExecuteOpcode(env, tokenizer.opcodePos, Token(op, data), old(Now()))
              case Ok(st) => r.Ok? && Now() == st
              case Err(e) => r == Err(e)
    {
      if op == OP_VERIF || op == OP_VERNOTIF {
        return Err(ReservedOpcode);
      }
      if |data| > SVM.MAX_ELEMENT_SIZE {
        return Err(ElementTooBig);
      }
      if !BranchExecuting() && !Conditional(op) {
        return Ok(());
      }
      if BranchExecuting() && op <= OP_PUSHDATA4 {
        if !SVM.MinimalPush(op, data) {
          return Err(MinimalData);
        }
      }
      var charged := ChargeOpcode(op);
      if charged.Err? {
        return Err(charged.error);
      }
      if SVM.Control(InstrOf(op)) {
        r := ControlOpcode(op);
      } else {
        InstrBounds(op);
        r := StackOnlyOpcode(InstrOf(op), data);
      }
    }

    /** stackByteSize. */
    method StackByteSize(stack: Stack) returns (total: nat)
      ensures total == SVM.ByteSize(stack.stk)
    {
      total := 0;
      for i := 0 to |stack.stk|
        invariant total == SVM.ByteSize(stack.stk[..i])
      {
        assert stack.stk[..i + 1][..i] == stack.stk[..i];
        total := total + |stack.stk[i]|;
      }
      assert stack.stk[..|stack.stk|] == stack.stk;
    }

    /** The item count and the byte count of both stacks together. */
    method CheckLimits() returns (r: OpResult)
      ensures r == if SVM.WithinLimits(Now()) then Ok(()) else Err(StackOverflow)
    {
      var combinedStackSize := |dstack.stk| + |astack.stk|;
      if combinedStackSize > SVM.MAX_STACK_SIZE {
        return Err(StackOverflow);
      }
      var d := StackByteSize(dstack);
      var a := StackByteSize(astack);
      if d + a > SVM.MAX_STACK_BYTES {
        return Err(StackOverflow);
      }
      return Ok(());
    }

    /** Executes one token: the work of Step before its bookkeeping. */
    method StepOne() returns (r: OpResult, ghost t: Token, ghost size: nat)
      requires Valid() && scriptIdx < |scripts|
      modifies this`condStack, this`codeSepPos, this`opCounts, dstack, astack, budget, tokenizer
      ensures FirstToken(old(tokenizer.Rest())) == Ok((t, size))
      ensures tokenizer.Valid() && tokenizer.script == old(tokenizer.script)
      ensures tokenizer.offset == old(tokenizer.offset) + size
      ensures tokenizer.err == None && tokenizer.opcodePos == old(tokenizer.opcodePos) + 1
      ensures match SVM.StepToken(env, old(tokenizer.opcodePos) + 1, t, old(Now()))
              case Ok(st) => r.Ok? && Now() == st && SVM.WithinLimits(st)
              case Err(e) => r == Err(e)
    {
      hide SVM.ExecuteOpcode, SVM.WithinLimits, FirstToken, Tokenize, TokenCount, TotalTokens;
      TokenizeFirst(tokenizer.Rest());
      t, size := FirstToken(tokenizer.Rest()).value.0, FirstToken(tokenizer.Rest()).value.1;
      var more := tokenizer.Next();
      r := ExecuteOpcode(tokenizer.op, tokenizer.data);
      if r.Ok? {
        r := CheckLimits();
      }
    }

    /** Leaves a finished script: no conditional may straddle scripts, and the
        alternate stack does not survive. */
    method FinishScript() returns (r: Result<bool, ErrorCode>)
      requires Valid0() && tokenizer.Valid() && scriptIdx < |scripts|
      modifies this, astack
      ensures SVM.EndScript(old(Now())).Err? ==> r == Err(SVM.EndScript(old(Now())).error)
      ensures SVM.EndScript(old(Now())).Ok? ==>
                && r.Ok? && Valid()
                && Pending() == SVM.Outcome(env, scripts[old(scriptIdx) + 1..], SVM.EndScript(old(Now())).value)
                && StepsLeft() == TotalTokens(scripts[old(scriptIdx) + 1..])
                && (r.value <==> scriptIdx >= |scripts|)
      ensures tokenizer == old(tokenizer) || fresh(tokenizer)
    {
      hide SVM.RunTokens, SVM.StepToken, SVM.Outcome, SVM.Verdict, Tokenize, TokenCount, TotalTokens, Continue;
      if |condStack| != 0 {
        return Err(UnbalancedConditional);
      }
      astack.stk := [];
      opcodeIdx := 0;
      scriptIdx := scriptIdx + 1;
      OutcomeFrom(env, scripts, scriptIdx, Now());
      if scriptIdx < |scripts| && scripts[scriptIdx] == [] {
        scriptIdx := scriptIdx + 1;
        OutcomeFrom(env, scripts, scriptIdx, Now());
      }
      if scriptIdx >= |scripts| {
        return Ok(true);
      }
      tokenizer := new ScriptTokenizer(0, scripts[scriptIdx]);
      assert tokenizer.Rest() == scripts[scriptIdx];
      return Ok(false);
    }

    /** Executes one instruction and moves the program counter on. */
    method Step() returns (r: Result<bool, ErrorCode>)
      requires Valid() && scriptIdx < |scripts|
      modifies this, dstack, astack, budget, tokenizer
      ensures r.Err? ==> old(Pending()) == Err(r.error)
      ensures r.Ok? ==> Valid() && old(Pending()) == Pending()
      ensures r.Ok? ==> StepsLeft() + 1 == old(StepsLeft())
      ensures r.Ok? ==> (r.value <==> scriptIdx >= |scripts|)
      ensures tokenizer == old(tokenizer) || fresh(tokenizer)
    {
      hide SVM.StepToken, SVM.RunTokens, Tokenize, FirstToken, SVM.Outcome, TotalTokens, TokenCount, Continue;
      hide SVM.WithinLimits, SVM.EndScript;
      ContinueToken(env, scripts, scriptIdx, tokenizer.Rest(), tokenizer.opcodePos + 1, Now());
      var one, t, size := StepOne();
      if one.Err? {
        return Err(one.error);
      }
      LimitsRepresentable(Now());
      Suffix(tokenizer.script, tokenizer.offset - size, size);
      opcodeIdx := opcodeIdx + 1;
      if tokenizer.Done() {
        assert tokenizer.Rest() == [];
        ContinueEnd(env, scripts, scriptIdx, tokenizer.opcodePos + 1, Now());
        r := FinishScript();
      } else {
        r := Ok(false);
      }
    }

    /** A final script leaves exactly one true item; another one leaves a true item
        on top. */
    method CheckErrorCondition(finalScript: bool) returns (r: OpResult)
      requires Valid()
      modifies dstack
      ensures scriptIdx < |scripts| ==> r == Err(ScriptUnfinished)
      ensures scriptIdx >= |scripts| && finalScript ==> r == SVM.Verdict(old(Now()))
      ensures scriptIdx >= |scripts| && !finalScript ==>
                r == if old(dstack.stk) == [] then Err(EmptyStack)
                     else if Truthy(Last(old(dstack.stk))) then Ok(()) else Err(EvalFalse)
    {
      if scriptIdx < |scripts| {
        return Err(ScriptUnfinished);
      }
      if finalScript && |dstack.stk| != 1 {
        return Err(CleanStack);
      } else if |dstack.stk| < 1 {
        return Err(EmptyStack);
      }
      var v := dstack.PopBool();
      if !v.value {
        return Err(EvalFalse);
      }
      return Ok(());
    }

    /** Steps until done: one step per token, and the outcome the scripts denote. */
    method Execute() returns (r: OpResult, ghost steps: nat)
      requires Valid() && scriptIdx < |scripts|
      modifies this, dstack, astack, budget, tokenizer
      ensures r == old(Pending())
      ensures r.Ok? ==> steps == old(StepsLeft())
    {
      var done := false;
      steps := 0;
      while !done
        invariant Valid() && (done <==> scriptIdx >= |scripts|)
        invariant Pending() == old(Pending())
        invariant steps + StepsLeft() == old(StepsLeft())
        invariant tokenizer == old(tokenizer) || fresh(tokenizer)
        decreases StepsLeft(), !done
      {
        var step := Step();
        if step.Err? {
          return Err(step.error), steps;
        }
        done := step.value;
        steps := steps + 1;
      }
      r := CheckErrorCondition(true);
    }
  }

  lemma Suffix(s: Bytes, i: nat, n: nat)
    requires i + n <= |s|
    ensures s[i..][n..] == s[i + n..]
  {
  }

  lemma InstrBounds(op: byte)
    ensures var i := InstrOf(op);
            && (i.StackInstr? && (i.sop.Drop? || i.sop.Dup? || i.sop.Over? || i.sop.Rot? || i.sop.Swap?) ==>
                i.sop.n <= 3)
            && (i.PushNum? ==> -1 <= i.n <= 16)
  {
  }

  lemma {:induction false} ByteSizeBounds(s: Items)
    ensures forall x :: x in s ==> |x| <= SVM.ByteSize(s)
  {
    if s != [] {
      ByteSizeBounds(s[..|s| - 1]);
      assert s == s[..|s| - 1] + [Last(s)];
    }
  }

  lemma LimitsRepresentable(st: SVM.State)
    requires SVM.WithinLimits(st)
    ensures Representable(st.d)
  {
    ByteSizeBounds(st.d);
  }

  lemma TokenizeFirst(s: Bytes)
    requires s != [] && Tokenize(s).Ok?
    ensures FirstToken(s).Ok? && Tokenize(s[FirstToken(s).value.1..]).Ok?
    ensures Tokenize(s).value == [FirstToken(s).value.0] + Tokenize(s[FirstToken(s).value.1..]).value
    ensures TokenCount(s) == 1 + TokenCount(s[FirstToken(s).value.1..])
  {
  }

  /** What is to come, one token at a time. */
  lemma ContinueToken(env: SVM.Env, scripts: seq<Bytes>, idx: nat, rest: Bytes, pos: nat, st: SVM.State)
    requires idx < |scripts| && rest != [] && Tokenize(rest).Ok?
    ensures FirstToken(rest).Ok? && Tokenize(rest[FirstToken(rest).value.1..]).Ok?
    ensures TokenCount(rest) == 1 + TokenCount(rest[FirstToken(rest).value.1..])
    ensures Continue(env, scripts, idx, rest, pos, st) ==
            match SVM.StepToken(env, pos, FirstToken(rest).value.0, st)
            case Ok(next) => Continue(env, scripts, idx, rest[FirstToken(rest).value.1..], pos + 1, next)
            case Err(e) => Err(e)
  {
    TokenizeFirst(rest);
    SVM.RunFirst(env, pos, Tokenize(rest).value, st);
    hide SVM.StepToken, SVM.RunTokens, FirstToken;
    assert Tokenize(rest).value[1..] == Tokenize(rest[FirstToken(rest).value.1..]).value;
  }

  lemma ContinueEnd(env: SVM.Env, scripts: seq<Bytes>, idx: nat, pos: nat, st: SVM.State)
    requires idx < |scripts|
    ensures TokenCount([]) == 0
    ensures Continue(env, scripts, idx, [], pos, st) ==
            match SVM.EndScript(st)
            case Ok(closed) => SVM.Outcome(env, scripts[idx + 1..], closed)
            case Err(e) => Err(e)
  {
    hide SVM.StepToken, FirstToken;
  }

  /** Scripts to come, when the first of them may be empty. */
  lemma OutcomeOfRest(env: SVM.Env, scripts: seq<Bytes>, st: SVM.State)
    ensures scripts == [] ==> SVM.Outcome(env, scripts, st) == SVM.Verdict(st)
    ensures scripts != [] && scripts[0] == [] ==>
              SVM.Outcome(env, scripts, st) == SVM.Outcome(env, scripts[1..], st)
    ensures scripts != [] && scripts[0] != [] ==>
              SVM.Outcome(env, scripts, st) == Continue(env, scripts, 0, scripts[0], 0, st)
  {
  }

  lemma CountOfRest(scripts: seq<Bytes>)
    ensures scripts != [] && scripts[0] == [] ==> TotalTokens(scripts) == TotalTokens(scripts[1..])
  {
  }

  /** The scripts from an index on: none, an empty one first, or one to run. */
  lemma OutcomeFrom(env: SVM.Env, scripts: seq<Bytes>, k: nat, st: SVM.State)
    requires k <= |scripts|
    ensures k == |scripts| ==>
              && SVM.Outcome(env, scripts[k..], st) == Continue(env, scripts, k, [], 0, st)
              && TotalTokens(scripts[k..]) == 0
    ensures k < |scripts| && scripts[k] == [] ==>
              && SVM.Outcome(env, scripts[k..], st) == SVM.Outcome(env, scripts[k + 1..], st)
              && TotalTokens(scripts[k..]) == TotalTokens(scripts[k + 1..])
    ensures k < |scripts| && scripts[k] != [] ==>
              && SVM.Outcome(env, scripts[k..], st) == Continue(env, scripts, k, scripts[k], 0, st)
              && TotalTokens(scripts[k..]) == TokenCount(scripts[k]) + TotalTokens(scripts[k + 1..])
  {
    hide SVM.Verdict, SVM.RunTokens;
    OutcomeOfRest(env, scripts[k..], st);
    CountOfRest(scripts[k..]);
    if k < |scripts| {
      assert scripts[k..][1..] == scripts[k + 1..] && scripts[k..][0] == scripts[k];
    }
    hide SVM.Outcome;
  }

  lemma OutcomeOfTwo(env: SVM.Env, first: Bytes, second: Bytes, st: SVM.State)
    requires first != [] || second != []
    ensures SVM.Outcome(env, [first, second], st) ==
            if first == [] then Continue(env, [first, second], 1, second, 0, st)
            else Continue(env, [first, second], 0, first, 0, st)
  {
    OutcomeOfRest(env, [first, second], st);
    OutcomeOfRest(env, [second], st);
    assert [first, second][1..] == [second] && [second][1..] == [] == [first, second][2..];
  }

  lemma CountOfTwo(first: Bytes, second: Bytes)
    ensures TotalTokens([first, second]) == TokenCount(first) + TokenCount(second)
    ensures TotalTokens([second]) == TokenCount(second)
    ensures first == [] ==> TokenCount(first) == 0
  {
    assert [first, second][1..] == [second];
    assert TotalTokens([second]) == TokenCount(second) + TotalTokens([second][1..]);
  }

  // ---- creating an engine and running a script against a transaction ----

  predicate PushOnly(script: Bytes) {
    match Tokenize(script)
    case Err(_) => false
    case Ok(ts) => forall i :: 0 <= i < |ts| ==> ts[i].op <= 0x60
  }

  /** What NewEngine and Execute return for a signature script and an arkade
      script that is not itself a witness program. */
  function Evaluate(env: SVM.Env, sigScript: Bytes, script: Bytes, startStack: Items, sharedCounts: Counts)
    : Result<(), ErrorCode>
  {
    if sigScript == [] && script == [] then Err(EvalFalse)
    else if !PushOnly(sigScript) then Err(NotPushOnly)
    else if |sigScript| > MAX_SCRIPT_SIZE || |script| > MAX_SCRIPT_SIZE then Err(ScriptTooBig)
    else if Tokenize(script).Err? then Err(Tokenize(script).error)
    else SVM.Outcome(env, [sigScript, script], SVM.NewState(startStack, sharedCounts))
  }

  method IsPushOnlyScript(script: Bytes) returns (ok: bool)
    ensures ok <==> PushOnly(script)
  {
    var tokens := Tokenize(script);
    if tokens.Err? {
      return false;
    }
    for i := 0 to |tokens.value|
      invariant forall j :: 0 <= j < i ==> tokens.value[j].op <= 0x60
    {
      if tokens.value[i].op > 0x60 {
        return false;
      }
    }
    return true;
  }

  /** NewEngine followed by SetStack and Execute. */
  method ExecuteScript(env: SVM.Env, script: Bytes, startStack: Items, budget: ComputeBudget)
    returns (r: OpResult, ghost steps: nat)
    requires budget.limits == env.sharedLimits
    requires WireWidths(env.tx) && env.txIdx < |env.tx.ins|
    requires !IsWitnessProgram(script) && Representable(startStack)
    modifies budget
    ensures r == Evaluate(env, env.tx.ins[env.txIdx].sigScript, script, startStack, old(budget.opCounts))
    ensures r.Ok? ==> steps == TotalTokens([env.tx.ins[env.txIdx].sigScript, script])
  {
    var sigScript := env.tx.ins[env.txIdx].sigScript;
    steps := 0;
    if sigScript == [] && script == [] {
      return Err(EvalFalse), 0;
    }
    var pushOnly := IsPushOnlyScript(sigScript);
    if !pushOnly {
      return Err(NotPushOnly), 0;
    }
    if |sigScript| > MAX_SCRIPT_SIZE || |script| > MAX_SCRIPT_SIZE {
      return Err(ScriptTooBig), 0;
    }
    var parses := CheckScriptParses(0, script);
    if parses.Some? {
      return Err(parses.value), 0;
    }
    var vm := new Engine(env, sigScript, script, startStack, budget);
    r, steps := vm.Execute();
  }
}
