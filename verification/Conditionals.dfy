/** The flat conditional stack refines nested if / notif / else / endif. */
module Conditionals {
  import opened Common
  import opened ScriptErrors
  import opened Tokenizers
  import opened Stacks
  import opened Instructions
  import opened ScriptVM

  const OP_IF: byte := 0x63
  const OP_NOTIF: byte := 0x64
  const OP_ELSE: byte := 0x67
  const OP_ENDIF: byte := 0x68

  // ---- the invariant of the conditional stack ----

  ghost predicate EntryFits(cond: seq<Cond>, i: nat)
    requires i < |cond|
  {
    cond[i] == CondSkip <==> i > 0 && cond[i - 1] != CondTrue
  }

  /** An entry is Skip exactly when the branch around it is not running. */
  ghost predicate CondInvariant(cond: seq<Cond>) {
    forall i :: 0 <= i < |cond| ==> EntryFits(cond, i)
  }

  lemma ExtendInvariant(below: seq<Cond>, top: Cond)
    ensures CondInvariant(below + [top]) <==>
              CondInvariant(below) && (top == CondSkip <==> below != [] && Last(below) != CondTrue)
  {
    var cond := below + [top];
    assert forall i :: 0 <= i < |below| ==> (EntryFits(cond, i) <==> EntryFits(below, i));
    assert EntryFits(cond, |below|) <==> (top == CondSkip <==> below != [] && Last(below) != CondTrue);
  }

  /** The top alone tells whether every enclosing branch is active. */
  lemma {:induction false} TopDecides(cond: seq<Cond>)
    requires CondInvariant(cond)
    ensures Executing(cond) <==> forall i :: 0 <= i < |cond| ==> cond[i] == CondTrue
  {
    if cond != [] {
      var below := cond[..|cond| - 1];
      assert cond == below + [Last(cond)];
      ExtendInvariant(below, Last(cond));
      TopDecides(below);
      if Last(cond) == CondTrue {
        forall i | 0 <= i < |cond|
          ensures cond[i] == CondTrue
        {
          assert i < |below| ==> below[i] == cond[i];
        }
      }
    }
  }

  lemma EnterKeepsInvariant(branch: bool, st: State)
    requires CondInvariant(st.cond) && EnterIf(branch, st).Ok?
    ensures CondInvariant(EnterIf(branch, st).value.cond)
  {
    var next := EnterIf(branch, st).value;
    assert next.cond == st.cond + [Last(next.cond)];
    ExtendInvariant(st.cond, Last(next.cond));
  }

  lemma ElseKeepsInvariant(st: State)
    requires CondInvariant(st.cond) && TakeElse(st).Ok?
    ensures CondInvariant(TakeElse(st).value.cond)
  {
    var below := st.cond[..|st.cond| - 1];
    assert st.cond == below + [Last(st.cond)];
    ExtendInvariant(below, Last(st.cond));
    ExtendInvariant(below, Flip(Last(st.cond)));
  }

  lemma EndIfKeepsInvariant(st: State)
    requires CondInvariant(st.cond) && LeaveIf(st).Ok?
    ensures CondInvariant(LeaveIf(st).value.cond)
  {
    var below := st.cond[..|st.cond| - 1];
    assert st.cond == below + [Last(st.cond)];
    ExtendInvariant(below, Last(st.cond));
  }

  lemma EffectKeepsInvariant(env: Env, pos: nat, op: byte, data: Bytes, st: State)
    requires CondInvariant(st.cond) && Effect(env, pos, op, data, st).Ok?
    ensures CondInvariant(Effect(env, pos, op, data, st).value.cond)
  {
    hide StackEffect, CondInvariant, EnterIf, TakeElse, LeaveIf, InstrOf;
    match InstrOf(op)
    case If(branch) => EnterKeepsInvariant(branch, st);
    case Else => ElseKeepsInvariant(st);
    case EndIf => EndIfKeepsInvariant(st);
    case _ =>
  }

  /** Every token keeps the invariant. */
  lemma StepKeepsCondInvariant(env: Env, pos: nat, t: Token, st: State)
    requires CondInvariant(st.cond) && StepToken(env, pos, t, st).Ok?
    ensures CondInvariant(StepToken(env, pos, t, st).value.cond)
  {
    hide Effect, WithinLimits, MinimalPush, Charge, CondInvariant;
    ChargeKeepsNoCond(env, t.op, st);
    if Charge(env, t.op, st).Ok? {
      var charged := Charge(env, t.op, st).value;
      if Effect(env, pos, t.op, t.data, charged).Ok? {
        EffectKeepsInvariant(env, pos, t.op, t.data, charged);
      }
    }
  }

  /** The invariant holds throughout every run from a fresh state. */
  lemma {:induction false} RunKeepsCondInvariant(env: Env, pos: nat, ts: seq<Token>, st: State)
    requires CondInvariant(st.cond) && RunTokens(env, pos, ts, st).Ok?
    ensures CondInvariant(RunTokens(env, pos, ts, st).value.cond)
    decreases |ts|
  {
    hide StepToken, CondInvariant;
    if ts != [] {
      StepKeepsCondInvariant(env, pos, ts[0], st);
      RunKeepsCondInvariant(env, pos + 1, ts[1..], StepToken(env, pos, ts[0], st).value);
    }
  }

  // ---- structured scripts ----

  datatype Node = Plain(t: Token) | Branch(branch: bool, arms: Arms)
  datatype Block = Nil | Cons(node: Node, rest: Block)
  /** The arms of a conditional, separated by else; there may be several. */
  datatype Arms = One(b: Block) | More(b: Block, rest: Arms)

  predicate PlainNode(n: Node) {
    match n
    case Plain(t) => !Conditional(t.op)
    case Branch(_, arms) => PlainArms(arms)
  }

  predicate PlainBlock(b: Block) {
    match b
    case Nil => true
    case Cons(n, r) => PlainNode(n) && PlainBlock(r)
  }

  predicate PlainArms(a: Arms) {
    match a
    case One(b) => PlainBlock(b)
    case More(b, r) => PlainBlock(b) && PlainArms(r)
  }

  function IfToken(branch: bool): Token {
    Token(if branch then OP_IF else OP_NOTIF, [])
  }

  function FlatNode(n: Node): seq<Token> {
    match n
    case Plain(t) => [t]
    case Branch(branch, arms) => [IfToken(branch)] + FlatArms(arms) + [Token(OP_ENDIF, [])]
  }

  function FlatBlock(b: Block): seq<Token> {
    match b
    case Nil => []
    case Cons(n, r) => FlatNode(n) + FlatBlock(r)
  }

  function FlatArms(a: Arms): seq<Token> {
    match a
    case One(b) => FlatBlock(b)
    case More(b, r) => FlatBlock(b) + [Token(OP_ELSE, [])] + FlatArms(r)
  }

  // ---- the recursive meaning ----

  function Checked(st: State): StateResult {
    if WithinLimits(st) then Ok(st) else Err(StackOverflow)
  }

  /** A conditional opcode is charged wherever it stands. */
  function Tick(env: Env, op: byte, st: State): StateResult {
    var st1 :- Charge(env, op, st);
    Checked(st1)
  }

  /** A token of a branch that does not run. */
  function SkipToken(t: Token, st: State): StateResult {
    if t.op == OP_VERIF || t.op == OP_VERNOTIF then Err(ReservedOpcode)
    else if |t.data| > MAX_ELEMENT_SIZE then Err(ElementTooBig)
    else Checked(st)
  }

  function MeanNode(env: Env, pos: nat, n: Node, active: bool, st: State): StateResult
    decreases n
  {
    match n
    case Plain(t) => if active then StepToken(env, pos, t, st) else SkipToken(t, st)
    case Branch(branch, arms) =>
      var end := pos + 1 + |FlatArms(arms)|;
      var st1 :- Charge(env, IfToken(branch).op, st);
      if active then
        var (d, b) :- PopIfBool(st1.d);
        var st2 :- Checked(st1.(d := d));
        var st3 :- MeanArms(env, pos + 1, arms, true, b == branch, st2);
        Tick(env, OP_ENDIF, st3)
      else
        var st2 :- Checked(st1);
        var st3 :- MeanArms(env, pos + 1, arms, false, false, st2);
        Tick(env, OP_ENDIF, st3)
  }

  function MeanBlock(env: Env, pos: nat, b: Block, active: bool, st: State): StateResult
    decreases b
  {
    match b
    case Nil => Ok(st)
    case Cons(n, r) =>
      var st1 :- MeanNode(env, pos, n, active, st);
      MeanBlock(env, pos + |FlatNode(n)|, r, active, st1)
  }

  /** Arms run alternately: `on` says whether the coming one is the chosen kind. */
  function MeanArms(env: Env, pos: nat, a: Arms, enclosing: bool, on: bool, st: State): StateResult
    decreases a
  {
    match a
    case One(b) => MeanBlock(env, pos, b, enclosing && on, st)
    case More(b, r) =>
      var st1 :- MeanBlock(env, pos, b, enclosing && on, st);
      var st2 :- Tick(env, OP_ELSE, st1);
      MeanArms(env, pos + |FlatBlock(b)| + 1, r, enclosing, !on, st2)
  }

  // ---- the flat machine computes the recursive meaning ----

  /** The result of the meaning, with the enclosing conditionals put back. */
  function Inside(cond: seq<Cond>, r: StateResult): StateResult {
    match r
    case Ok(st) => Ok(st.(cond := cond))
    case Err(e) => Err(e)
  }

  function Entry(enclosing: bool, on: bool): Cond {
    if !enclosing then CondSkip else if on then CondTrue else CondFalse
  }

  /** An opcode that is no conditional does not see the conditional stack. */
  lemma PlainEffect(env: Env, pos: nat, op: byte, data: Bytes, cond: seq<Cond>, st: State)
    requires !Conditional(op)
    ensures Effect(env, pos, op, data, st.(cond := cond)) ==
            match Effect(env, pos, op, data, st)
            case Ok(next) => Ok(next.(cond := cond))
            case Err(e) => Err(e)
  {
    hide StackEffect;
  }

  lemma ChargeIgnoresCond(env: Env, op: byte, cond: seq<Cond>, st: State)
    ensures Charge(env, op, st.(cond := cond)) ==
            match Charge(env, op, st)
            case Ok(next) => Ok(next.(cond := cond))
            case Err(e) => Err(e)
  {
  }

  lemma PlainStep(env: Env, pos: nat, t: Token, cond: seq<Cond>, st: State)
    requires !Conditional(t.op) && st.cond == []
    ensures StepToken(env, pos, t, st.(cond := cond)) ==
            Inside(cond, MeanNode(env, pos, Plain(t), Executing(cond), st))
  {
    hide Effect, MinimalPush, Charge, ByteSize;
    ChargeIgnoresCond(env, t.op, cond, st);
    if Charge(env, t.op, st).Ok? {
      PlainEffect(env, pos, t.op, t.data, cond, Charge(env, t.op, st).value);
    }
  }

  lemma MeaningKeepsNoCond(env: Env, pos: nat, t: Token, st: State)
    requires !Conditional(t.op) && st.cond == []
    ensures StepToken(env, pos, t, st).Ok? ==> StepToken(env, pos, t, st).value.cond == []
  {
    hide StackEffect, MinimalPush, ChargeTable, ByteSize, Tokenize;
  }

  lemma IfStep(env: Env, pos: nat, branch: bool, cond: seq<Cond>, st: State)
    requires st.cond == []
    ensures StepToken(env, pos, IfToken(branch), st.(cond := cond)) ==
            match Charge(env, IfToken(branch).op, st)
            case Err(e) => Err(e)
            case Ok(st1) =>
              if Executing(cond) then
                match PopIfBool(st1.d)
                case Err(e) => Err(e)
                case Ok((d, b)) => Inside(cond + [Entry(true, b == branch)], Checked(st1.(d := d)))
              else Inside(cond + [CondSkip], Checked(st1))
  {
    hide StackEffect, ChargeTable, ByteSize;
  }

  lemma ElseStep(env: Env, pos: nat, enclosing: bool, on: bool, cond: seq<Cond>, st: State)
    requires st.cond == []
    ensures StepToken(env, pos, Token(OP_ELSE, []), st.(cond := cond + [Entry(enclosing, on)])) ==
            Inside(cond + [Entry(enclosing, !on)], Tick(env, OP_ELSE, st))
  {
    hide StackEffect, ChargeTable, ByteSize;
    var c := cond + [Entry(enclosing, on)];
    assert c[..|c| - 1] == cond;
  }

  lemma EndIfStep(env: Env, pos: nat, entry: Cond, cond: seq<Cond>, st: State)
    requires st.cond == []
    ensures StepToken(env, pos, Token(OP_ENDIF, []), st.(cond := cond + [entry])) ==
            Inside(cond, Tick(env, OP_ENDIF, st))
  {
    hide StackEffect, ChargeTable, ByteSize;
    var c := cond + [entry];
    assert c[..|c| - 1] == cond;
  }

  lemma RunOne(env: Env, pos: nat, t: Token, st: State)
    ensures RunTokens(env, pos, [t], st) == StepToken(env, pos, t, st)
  {
    hide StepToken;
    RunFirst(env, pos, [t], st);
  }

  lemma TickKeepsNoCond(env: Env, op: byte, st: State)
    ensures Tick(env, op, st).Ok? ==> Tick(env, op, st).value.cond == st.cond
  {
  }

  /** Running a structured block on the flat machine, in whatever conditional
      context, is its recursive meaning. */
  lemma {:induction false} FlatBlockRefines(env: Env, pos: nat, b: Block, cond: seq<Cond>, st: State)
    requires PlainBlock(b) && st.cond == []
    ensures RunTokens(env, pos, FlatBlock(b), st.(cond := cond)) ==
            Inside(cond, MeanBlock(env, pos, b, Executing(cond), st))
    ensures MeanBlock(env, pos, b, Executing(cond), st).Ok? ==>
              MeanBlock(env, pos, b, Executing(cond), st).value.cond == []
    decreases b
  {
    hide StepToken, RunTokens, MeanNode;
    match b
    case Nil => EmptyRun(env, pos, st.(cond := cond));
    case Cons(n, r) =>
      FlatNodeRefines(env, pos, n, cond, st);
      RunAppend(env, pos, FlatNode(n), FlatBlock(r), st.(cond := cond));
      var first := MeanNode(env, pos, n, Executing(cond), st);
      if first.Ok? {
        FlatBlockRefines(env, pos + |FlatNode(n)|, r, cond, first.value);
      }
  }

  lemma EmptyRun(env: Env, pos: nat, st: State)
    ensures RunTokens(env, pos, [], st) == Ok(st)
  {
  }

  lemma {:induction false} FlatNodeRefines(env: Env, pos: nat, n: Node, cond: seq<Cond>, st: State)
    requires PlainNode(n) && st.cond == []
    ensures RunTokens(env, pos, FlatNode(n), st.(cond := cond)) ==
            Inside(cond, MeanNode(env, pos, n, Executing(cond), st))
    ensures MeanNode(env, pos, n, Executing(cond), st).Ok? ==>
              MeanNode(env, pos, n, Executing(cond), st).value.cond == []
    decreases n
  {
    match n
    case Plain(t) =>
      RunOne(env, pos, t, st.(cond := cond));
      PlainStep(env, pos, t, cond, st);
      MeaningKeepsNoCond(env, pos, t, st);
    case Branch(branch, arms) => FlatBranchRefines(env, pos, branch, arms, cond, st);
  }

  lemma {:induction false} FlatBranchRefines(
      env: Env, pos: nat, branch: bool, arms: Arms, cond: seq<Cond>, st: State)
    requires PlainArms(arms) && st.cond == []
    ensures RunTokens(env, pos, FlatNode(Branch(branch, arms)), st.(cond := cond)) ==
            Inside(cond, MeanNode(env, pos, Branch(branch, arms), Executing(cond), st))
    ensures MeanNode(env, pos, Branch(branch, arms), Executing(cond), st).Ok? ==>
              MeanNode(env, pos, Branch(branch, arms), Executing(cond), st).value.cond == []
    decreases arms, 2
  {
    hide StepToken, RunTokens, MeanArms, Charge, WithinLimits, FlatArms, PopIfBool;
    var ift := IfToken(branch);
    RunThree(env, pos, ift, FlatArms(arms), Token(OP_ENDIF, []), st.(cond := cond));
    IfStep(env, pos, branch, cond, st);
    ChargeKeepsNoCond(env, ift.op, st);
    if Charge(env, ift.op, st).Ok? {
      var st1 := Charge(env, ift.op, st).value;
      if !Executing(cond) {
        AfterIf(env, pos, arms, false, false, cond, st1);
      } else if PopIfBool(st1.d).Ok? {
        var (d, b) := PopIfBool(st1.d).value;
        AfterIf(env, pos, arms, true, b == branch, cond, st1.(d := d));
      }
    }
  }

  /** From the state after the opening opcode to the one after endif. */
  lemma {:induction false} AfterIf(
      env: Env, pos: nat, arms: Arms, enclosing: bool, on: bool, cond: seq<Cond>, st: State)
    requires PlainArms(arms) && st.cond == []
    requires enclosing || !on
    ensures match MeanArms(env, pos + 1, arms, enclosing, on, st)
            case Err(e) =>
              RunTokens(env, pos + 1, FlatArms(arms), st.(cond := cond + [Entry(enclosing, on)])) == Err(e)
            case Ok(st3) =>
              && st3.cond == []
              && RunTokens(env, pos + 1, FlatArms(arms), st.(cond := cond + [Entry(enclosing, on)])).Ok?
              && StepToken(env, pos + 1 + |FlatArms(arms)|, Token(OP_ENDIF, []),
                           RunTokens(env, pos + 1, FlatArms(arms), st.(cond := cond + [Entry(enclosing, on)])).value)
                 == Inside(cond, Tick(env, OP_ENDIF, st3))
              && (Tick(env, OP_ENDIF, st3).Ok? ==> Tick(env, OP_ENDIF, st3).value.cond == [])
    decreases arms, 1
  {
    hide StepToken, RunTokens, MeanArms, FlatArms, Tick, PlainArms;
    FlatArmsRefine(env, pos + 1, arms, enclosing, on, cond, st);
    var inner := MeanArms(env, pos + 1, arms, enclosing, on, st);
    if inner.Ok? {
      EndIfStep(env, pos + 1 + |FlatArms(arms)|, Entry(enclosing, LastArmOn(arms, on)), cond, inner.value);
      TickKeepsNoCond(env, OP_ENDIF, inner.value);
    }
  }

  lemma ChargeKeepsNoCond(env: Env, op: byte, st: State)
    ensures Charge(env, op, st).Ok? ==> Charge(env, op, st).value.cond == st.cond
  {
  }

  /** Running an opening token, a body and a closing token. */
  lemma RunThree(env: Env, pos: nat, first: Token, body: seq<Token>, last: Token, st: State)
    ensures RunTokens(env, pos, [first] + body + [last], st) ==
            match StepToken(env, pos, first, st)
            case Err(e) => Err(e)
            case Ok(s1) =>
              match RunTokens(env, pos + 1, body, s1)
              case Err(e) => Err(e)
              case Ok(s2) => StepToken(env, pos + 1 + |body|, last, s2)
  {
    hide StepToken, RunTokens;
    RunAppend(env, pos, [first] + body, [last], st);
    RunAppend(env, pos, [first], body, st);
    RunOne(env, pos, first, st);
    if StepToken(env, pos, first, st).Ok? {
      var s1 := StepToken(env, pos, first, st).value;
      if RunTokens(env, pos + 1, body, s1).Ok? {
        RunOne(env, pos + 1 + |body|, last, RunTokens(env, pos + 1, body, s1).value);
      }
    }
  }

  /** Whether the last arm is of the chosen kind. */
  function LastArmOn(a: Arms, on: bool): bool {
    match a
    case One(_) => on
    case More(_, r) => LastArmOn(r, !on)
  }

  lemma {:induction false} FlatArmsRefine(
      env: Env, pos: nat, a: Arms, enclosing: bool, on: bool, cond: seq<Cond>, st: State)
    requires PlainArms(a) && st.cond == []
    ensures RunTokens(env, pos, FlatArms(a), st.(cond := cond + [Entry(enclosing, on)])) ==
            Inside(cond + [Entry(enclosing, LastArmOn(a, on))], MeanArms(env, pos, a, enclosing, on, st))
    ensures MeanArms(env, pos, a, enclosing, on, st).Ok? ==>
              MeanArms(env, pos, a, enclosing, on, st).value.cond == []
    decreases a, 0
  {
    hide StepToken, RunTokens, MeanBlock, Tick;
    var inner := cond + [Entry(enclosing, on)];
    assert Executing(inner) <==> enclosing && on;
    match a
    case One(b) => FlatBlockRefines(env, pos, b, inner, st);
    case More(b, r) =>
      FlatBlockRefines(env, pos, b, inner, st);
      var body, elset := FlatBlock(b), Token(OP_ELSE, []);
      RunAppend(env, pos, body + [elset], FlatArms(r), st.(cond := inner));
      RunAppend(env, pos, body, [elset], st.(cond := inner));
      var first := MeanBlock(env, pos, b, enclosing && on, st);
      if first.Ok? {
        RunOne(env, pos + |body|, elset, first.value.(cond := inner));
        ElseStep(env, pos + |body|, enclosing, on, cond, first.value);
        TickKeepsNoCond(env, OP_ELSE, first.value);
        var ticked := Tick(env, OP_ELSE, first.value);
        if ticked.Ok? {
          FlatArmsRefine(env, pos + |body| + 1, r, enclosing, !on, cond, ticked.value);
        }
      }
  }

  /** A whole structured script runs to its recursive meaning and closes. */
  lemma StructuredScript(env: Env, b: Block, st: State)
    requires PlainBlock(b) && st.cond == []
    requires forall t :: t in FlatBlock(b) ==> WellFormed(t)
    ensures RunScript(env, EncodeTokens(FlatBlock(b)), st) ==
            match MeanBlock(env, 0, b, true, st)
            case Ok(end) => Ok(end.(a := []))
            case Err(e) => Err(e)
  {
    hide RunTokens, MeanBlock, StepToken, Tokenize;
    TokenizeEncoded(FlatBlock(b));
    FlatBlockRefines(env, 0, b, [], st);
    assert st.(cond := []) == st;
  }

  // ---- every balanced script is structured ----

  /** The nesting depth after some tokens, from a depth before them; none when an
      else or endif stands outside every conditional. */
  function Nesting(ts: seq<Token>, depth: nat): Option<nat>
    decreases |ts|
  {
    if ts == [] then Some(depth)
    else if ts[0].op == OP_IF || ts[0].op == OP_NOTIF then Nesting(ts[1..], depth + 1)
    else if ts[0].op == OP_ELSE then if depth == 0 then None else Nesting(ts[1..], depth)
    else if ts[0].op == OP_ENDIF then if depth == 0 then None else Nesting(ts[1..], depth - 1)
    else Nesting(ts[1..], depth)
  }

  predicate Balanced(ts: seq<Token>) {
    Nesting(ts, 0) == Some(0)
  }

  /** A conditional opcode carries no data. */
  predicate Bare(ts: seq<Token>) {
    forall i :: 0 <= i < |ts| && Conditional(ts[i].op) ==> ts[i].data == []
  }

  lemma WellFormedIsBare(ts: seq<Token>)
    requires forall t :: t in ts ==> WellFormed(t)
    ensures Bare(ts)
  {
    forall i | 0 <= i < |ts| && Conditional(ts[i].op)
      ensures ts[i].data == []
    {
      assert ts[i] in ts;
      assert OpLength(ts[i].op) == 1;
    }
  }

  /** What starts where no else or endif belongs to the block. */
  predicate BlockEnds(rest: seq<Token>) {
    rest == [] || rest[0] == Token(OP_ELSE, []) || rest[0] == Token(OP_ENDIF, [])
  }

  lemma Regroup(ts: seq<Token>, inside: seq<Token>, closing: seq<Token>)
    requires ts != [] && closing != [] && ts[1..] == inside + closing
    ensures ts == [ts[0]] + inside + [closing[0]] + closing[1..]
  {
    assert ts == [ts[0]] + ts[1..];
    assert closing == [closing[0]] + closing[1..];
  }

  lemma {:induction false} BlockOf(ts: seq<Token>, depth: nat) returns (b: Block, rest: seq<Token>)
    requires Nesting(ts, depth) == Some(0) && Bare(ts)
    ensures ts == FlatBlock(b) + rest && PlainBlock(b) && BlockEnds(rest)
    ensures Nesting(rest, depth) == Some(0) && Bare(rest) && |rest| <= |ts|
    decreases |ts|, 0
  {
    hide FlatArms, PlainArms;
    if BlockEnds(ts) {
      b, rest := Nil, ts;
      assert [] + ts == ts;
    } else if ts[0].op == OP_IF || ts[0].op == OP_NOTIF {
      var arms, closing := ArmsOf(ts[1..], depth + 1);
      var more: Block;
      more, rest := BlockOf(closing[1..], depth);
      var n := Branch(ts[0].op == OP_IF, arms);
      b := Cons(n, more);
      assert FlatNode(n) == [ts[0]] + FlatArms(arms) + [closing[0]];
      Regroup(ts, FlatArms(arms), closing);
      Assoc(FlatNode(n), FlatBlock(more), rest);
    } else {
      var more: Block;
      more, rest := BlockOf(ts[1..], depth);
      b := Cons(Plain(ts[0]), more);
      assert ts == [ts[0]] + (FlatBlock(more) + rest);
    }
  }

  lemma {:induction false} ArmsOf(ts: seq<Token>, depth: nat) returns (a: Arms, rest: seq<Token>)
    requires depth > 0 && Nesting(ts, depth) == Some(0) && Bare(ts)
    ensures ts == FlatArms(a) + rest && PlainArms(a)
    ensures rest != [] && rest[0] == Token(OP_ENDIF, []) && Nesting(rest[1..], depth - 1) == Some(0)
    ensures Bare(rest) && |rest| <= |ts|
    decreases |ts|, 1
  {
    hide FlatBlock, PlainBlock;
    var b, after := BlockOf(ts, depth);
    if after[0] == Token(OP_ENDIF, []) {
      a, rest := One(b), after;
    } else {
      var more: Arms;
      more, rest := ArmsOf(after[1..], depth);
      a := More(b, more);
      calc {
        ts;
        FlatBlock(b) + ([after[0]] + after[1..]);
        FlatBlock(b) + ([Token(OP_ELSE, [])] + (FlatArms(more) + rest));
        FlatArms(a) + rest;
      }
    }
  }

  /** Balanced token lists are flattened trees, */
  lemma BalancedIsStructured(ts: seq<Token>) returns (b: Block)
    requires Balanced(ts) && Bare(ts)
    ensures FlatBlock(b) == ts && PlainBlock(b)
  {
    var rest: seq<Token>;
    b, rest := BlockOf(ts, 0);
    assert rest == [];
    assert FlatBlock(b) + [] == FlatBlock(b);
  }

  lemma {:induction false} NestingAppend(ts: seq<Token>, us: seq<Token>, depth: nat)
    ensures Nesting(ts + us, depth) ==
            match Nesting(ts, depth)
            case None => None
            case Some(d) => Nesting(us, d)
    decreases |ts|
  {
    if ts == [] {
      assert ts + us == us;
    } else {
      assert (ts + us)[1..] == ts[1..] + us;
      var d := if ts[0].op == OP_IF || ts[0].op == OP_NOTIF then depth + 1
               else if ts[0].op == OP_ENDIF && depth > 0 then depth - 1
               else depth;
      NestingAppend(ts[1..], us, d);
    }
  }

  lemma {:induction false} BlockNests(b: Block, depth: nat)
    requires PlainBlock(b)
    ensures Nesting(FlatBlock(b), depth) == Some(depth)
    decreases b, 0
  {
    match b
    case Nil =>
    case Cons(n, r) =>
      NodeNests(n, depth);
      BlockNests(r, depth);
      hide Nesting;
      NestingAppend(FlatNode(n), FlatBlock(r), depth);
  }

  lemma {:induction false} NodeNests(n: Node, depth: nat)
    requires PlainNode(n)
    ensures Nesting(FlatNode(n), depth) == Some(depth)
    decreases n, 0
  {
    match n
    case Plain(t) => assert [t][1..] == [];
    case Branch(branch, arms) =>
      ArmsNest(arms, depth + 1);
      var open, close := [IfToken(branch)], [Token(OP_ENDIF, [])];
      assert open[1..] == [] && close[1..] == [];
      NestingAppend(open + FlatArms(arms), close, depth);
      NestingAppend(open, FlatArms(arms), depth);
  }

  lemma {:induction false} ArmsNest(a: Arms, depth: nat)
    requires PlainArms(a) && depth > 0
    ensures Nesting(FlatArms(a), depth) == Some(depth)
    decreases a, 1
  {
    match a
    case One(b) => BlockNests(b, depth);
    case More(b, r) =>
      BlockNests(b, depth);
      ArmsNest(r, depth);
      var middle := [Token(OP_ELSE, [])];
      assert middle[1..] == [];
      NestingAppend(FlatBlock(b) + middle, FlatArms(r), depth);
      NestingAppend(FlatBlock(b), middle, depth);
  }

  /** and flattened trees are balanced. */
  lemma StructuredIsBalanced(b: Block)
    requires PlainBlock(b)
    ensures Balanced(FlatBlock(b))
  {
    BlockNests(b, 0);
  }

  lemma StepNests(env: Env, pos: nat, t: Token, st: State)
    requires StepToken(env, pos, t, st).Ok?
    ensures Nesting([t], |st.cond|) == Some(|StepToken(env, pos, t, st).value.cond|)
  {
    hide StackEffect, MinimalPush, ChargeTable, ByteSize, Tokenize;
    assert [t][1..] == [];
  }

  /** The conditional stack is as deep as the tokens before it nest. */
  lemma {:induction false} RunNests(env: Env, pos: nat, ts: seq<Token>, st: State)
    requires RunTokens(env, pos, ts, st).Ok?
    ensures Nesting(ts, |st.cond|) == Some(|RunTokens(env, pos, ts, st).value.cond|)
    decreases |ts|
  {
    hide StepToken;
    if ts != [] {
      StepNests(env, pos, ts[0], st);
      assert [ts[0]][1..] == [] && ts == [ts[0]] + ts[1..];
      NestingAppend([ts[0]], ts[1..], |st.cond|);
      RunNests(env, pos + 1, ts[1..], StepToken(env, pos, ts[0], st).value);
    }
  }

  /** A script that runs to its end is balanced. */
  lemma OnlyBalancedRuns(env: Env, script: Bytes, st: State)
    requires st.cond == [] && RunScript(env, script, st).Ok?
    ensures Tokenize(script).Ok? && Balanced(Tokenize(script).value)
  {
    hide RunTokens, StepToken, Tokenize, Nesting;
    RunNests(env, 0, Tokenize(script).value, st);
  }

  /** Every balanced script is the flattening of a tree, and runs to the recursive
      meaning of that tree, errors included. */
  lemma ScriptIsStructured(env: Env, script: Bytes, st: State) returns (b: Block)
    requires st.cond == [] && Tokenize(script).Ok? && Balanced(Tokenize(script).value)
    ensures PlainBlock(b) && Tokenize(script) == Ok(FlatBlock(b))
    ensures RunScript(env, script, st) ==
            match MeanBlock(env, 0, b, true, st)
            case Ok(end) => Ok(end.(a := []))
            case Err(e) => Err(e)
  {
    hide RunTokens, MeanBlock, StepToken, Tokenize, Balanced, FlatBlock, PlainBlock;
    var ts := Tokenize(script).value;
    EncodeTokenized(script);
    WellFormedIsBare(ts);
    b := BalancedIsStructured(ts);
    StructuredScript(env, b, st);
  }
}
