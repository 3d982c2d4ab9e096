/** What the hash, introspection and signature opcodes leave, in terms of the
    transaction and the environment; and what surrounds every opcode. */
module InspectLaws {
  import opened Common
  import opened ScriptErrors
  import opened Numbers
  import opened NumberCodec
  import opened Stacks
  import opened Instructions
  import opened Tokenizers
  import opened Transactions
  import opened ScriptVM
  import opened NumberLaws
  import opened StackLaws
  import opened Engines
  import ExtensionFormat

  // ---- hashes ----

  /** The single and double hashes. */
  lemma Hashes(env: Env, pos: nat, st: State, x: Bytes)
    ensures After(env, pos, 0xa6, st, [x]) == Leaves(st, [env.hash(Ripemd160, x)])
    ensures After(env, pos, 0xa7, st, [x]) == Leaves(st, [env.hash(Sha1, x)])
    ensures After(env, pos, 0xa8, st, [x]) == Leaves(st, [env.hash(Sha256, x)])
    ensures After(env, pos, 0xa9, st, [x]) == Leaves(st, [env.hash(Ripemd160, env.hash(Sha256, x))])
    ensures After(env, pos, 0xaa, st, [x]) == Leaves(st, [env.hash(Sha256, env.hash(Sha256, x))])
  {
    hide Leaves;
    PopLast(st.d, x);
    HashRuns(env, pos, 0xa6, Ripemd160, st, x);
    HashRuns(env, pos, 0xa7, Sha1, st, x);
    HashRuns(env, pos, 0xa8, Sha256, st, x);
    HashRuns(env, pos, 0xa9, Hash160, st, x);
    HashRuns(env, pos, 0xaa, Hash256, st, x);
    hide After;
  }

  lemma HashRuns(env: Env, pos: nat, op: byte, h: HashOp, st: State, x: Bytes)
    requires InstrOf(op) == HashInstr(h)
    ensures After(env, pos, op, st, [x]) == Leaves(st, [HashOf(env, h, x)])
  {
    hide InstrOf, HashOf;
    PopLast(st.d, x);
  }

  /** DIGEST selects the hash by number and refuses the other numbers. */
  lemma Digests(env: Env, pos: nat, st: State, x: Bytes, n: int)
    requires ShortNumber(n)
    ensures After(env, pos, 0xc3, st, [x, Encode(n)]) ==
            if n == 1 then Leaves(st, [env.hash(Sha256, x)])
            else if n == 2 then Leaves(st, [env.hash(Sha1, x)])
            else if n == 3 then Leaves(st, [env.hash(Ripemd160, x)])
            else if n == 4 then Leaves(st, [env.hash(Keccak256, x)])
            else if n == 5 then Leaves(st, [env.hash(Sha3, x)])
            else Err(InvalidStackOperation)
  {
    hide Encode, ShortNumber, ReadScriptNum;
    ReadsBack(n);
    PopTwo(st.d, x, Encode(n));
    PopLast(st.d, x);
  }

  // ---- introspection ----

  lemma InspectRuns(env: Env, pos: nat, op: byte, iop: InspectOp, st: State, operands: Items)
    requires InstrOf(op) == InspectInstr(iop)
    ensures After(env, pos, op, st, operands) ==
            match Inspect(env, iop, st.d + operands)
            case Ok(s) => Ok(st.(d := s))
            case Err(e) => Err(e)
  {
    hide InstrOf, Inspect;
  }

  lemma IndexRead(s: Items, i: int, count: nat)
    requires ShortNumber(i)
    ensures PopIndex(s + [Encode(i)], count) == if 0 <= i < count then Ok((s, i)) else Err(InvalidIndex)
  {
    hide Encode, ShortNumber, ReadScriptNum;
    ReadsBack(i);
    PopLast(s, Encode(i));
  }

  /** An amount on the stack, if it lies in the range of amounts. */
  function LeavesAmount(st: State, value: int): StateResult {
    if 0 <= value <= MAX_SATOSHI then Leaves(st, [Encode(value)]) else Err(InvalidStackOperation)
  }

  lemma AmountFits(value: int)
    requires 0 <= value <= MAX_SATOSHI
    ensures Fits(value)
  {
    EncodeLength(value, 8);
    TopBits(8);
    ScaleByte(1, 0);
    ScaleByte(1, 8);
    ScaleByte(1, 16);
    ScaleByte(1, 24);
    ScaleByte(1, 32);
    ScaleByte(1, 40);
    ScaleByte(1, 48);
  }

  lemma AmountPushed(st: State, value: int)
    ensures PushSatoshi(st.d, value) == match LeavesAmount(st, value) case Ok(next) => Ok(next.d) case Err(e) => Err(e)
  {
    hide Encode;
    if 0 <= value <= MAX_SATOSHI {
      AmountFits(value);
    }
  }

  /** A script on the stack: the program and version of a witness program, for any
      other script its hash and minus one. */
  predicate LeavesScript(env: Env, st: State, script: Bytes, r: StateResult) {
    if 4 <= |script| <= 42 && (script[0] == 0 || 0x51 <= script[0] <= 0x60) && script[1] as int == |script| - 2 then
      r == Leaves(st, [script[2..], if script[0] == 0 then [] else [script[0] - 0x50]])
    else
      r == Leaves(st, [env.hash(Sha256, script), [0x81]])
  }

  lemma ScriptPushed(env: Env, st: State, script: Bytes)
    ensures LeavesScript(env, st, script, Ok(st.(d := PushScript(env, st.d, script))))
  {
    SmallNumbers(0x4f);
    if IsWitnessProgram(script) && script[0] != 0 {
      SmallNumbers(script[0]);
    }
    hide Encode;
    DecodeEncode(0);
  }

  /** Outpoint and sequence of an input. */
  lemma InputFields(env: Env, pos: nat, st: State, i: int)
    requires ShortNumber(i)
    ensures 0 <= i < |env.tx.ins| ==>
              && After(env, pos, 0xc7, st, [Encode(i)]) ==
                 Leaves(st, [env.tx.ins[i].prevOut.hash, Encode(env.tx.ins[i].prevOut.index)])
              && After(env, pos, 0xcb, st, [Encode(i)]) == LeavesNumber(st, env.tx.ins[i].sequence)
    ensures !(0 <= i < |env.tx.ins|) ==>
              && After(env, pos, 0xc7, st, [Encode(i)]) == Err(InvalidIndex)
              && After(env, pos, 0xcb, st, [Encode(i)]) == Err(InvalidIndex)
  {
    hide Encode, ShortNumber, After, PopIndex;
    InspectRuns(env, pos, 0xc7, InputOutpoint, st, [Encode(i)]);
    InspectRuns(env, pos, 0xcb, InputSequence, st, [Encode(i)]);
    hide InstrOf;
    IndexRead(st.d, i, |env.tx.ins|);
  }

  /** Value and script of what an input spends. */
  lemma SpentFields(env: Env, pos: nat, st: State, i: int)
    requires ShortNumber(i) && 0 <= i < |env.tx.ins|
    ensures var prev, script := env.fetchPrevOut(env.tx.ins[i].prevOut), env.fetchVtxoScript(env.tx.ins[i].prevOut);
            && After(env, pos, 0xc9, st, [Encode(i)]) ==
               (if prev.None? then Err(InvalidIndex) else LeavesAmount(st, prev.value.value))
            && (if script.None? then After(env, pos, 0xca, st, [Encode(i)]) == Err(InvalidIndex)
                else LeavesScript(env, st, script.value, After(env, pos, 0xca, st, [Encode(i)])))
  {
    hide Encode, ShortNumber, After, PopIndex, PushSatoshi, LeavesAmount, PushScript, LeavesScript;
    InspectRuns(env, pos, 0xc9, InputValue, st, [Encode(i)]);
    InspectRuns(env, pos, 0xca, InputScript, st, [Encode(i)]);
    hide InstrOf;
    IndexRead(st.d, i, |env.tx.ins|);
    var prev, script := env.fetchPrevOut(env.tx.ins[i].prevOut), env.fetchVtxoScript(env.tx.ins[i].prevOut);
    if prev.Some? {
      AmountState(st, prev.value.value);
    }
    if script.Some? {
      ScriptPushed(env, st, script.value);
    }
  }

  lemma AmountState(st: State, value: int)
    ensures LeavesAmount(st, value) ==
            match PushSatoshi(st.d, value) case Ok(s) => Ok(st.(d := s)) case Err(e) => Err(e)
  {
    AmountPushed(st, value);
    hide Encode, PushSatoshi;
  }

  /** An input index out of range. */
  lemma NoSuchInput(env: Env, pos: nat, st: State, i: int)
    requires ShortNumber(i) && !(0 <= i < |env.tx.ins|)
    ensures After(env, pos, 0xc9, st, [Encode(i)]) == Err(InvalidIndex)
    ensures After(env, pos, 0xca, st, [Encode(i)]) == Err(InvalidIndex)
  {
    hide Encode, ShortNumber, After, PopIndex, PushSatoshi, PushScript;
    InspectRuns(env, pos, 0xc9, InputValue, st, [Encode(i)]);
    InspectRuns(env, pos, 0xca, InputScript, st, [Encode(i)]);
    hide InstrOf;
    IndexRead(st.d, i, |env.tx.ins|);
  }

  /** Value and script of an output. */
  lemma OutputFields(env: Env, pos: nat, st: State, i: int)
    requires ShortNumber(i)
    ensures 0 <= i < |env.tx.outs| ==>
              && After(env, pos, 0xcf, st, [Encode(i)]) == LeavesAmount(st, env.tx.outs[i].value)
              && LeavesScript(env, st, env.tx.outs[i].pkScript, After(env, pos, 0xd1, st, [Encode(i)]))
    ensures !(0 <= i < |env.tx.outs|) ==>
              && After(env, pos, 0xcf, st, [Encode(i)]) == Err(InvalidIndex)
              && After(env, pos, 0xd1, st, [Encode(i)]) == Err(InvalidIndex)
  {
    hide Encode, ShortNumber, After, PopIndex, PushSatoshi, LeavesAmount, PushScript, LeavesScript;
    InspectRuns(env, pos, 0xcf, OutputValue, st, [Encode(i)]);
    InspectRuns(env, pos, 0xd1, OutputScript, st, [Encode(i)]);
    hide InstrOf;
    IndexRead(st.d, i, |env.tx.outs|);
    if 0 <= i < |env.tx.outs| {
      AmountState(st, env.tx.outs[i].value);
      ScriptPushed(env, st, env.tx.outs[i].pkScript);
    }
  }

  /** Fields of the transaction itself. */
  lemma TransactionFields(env: Env, pos: nat, st: State)
    ensures After(env, pos, 0xcd, st, []) == Leaves(st, [Encode(env.txIdx)])
    ensures After(env, pos, 0xd2, st, []) == LeavesNumber(st, env.tx.version)
    ensures After(env, pos, 0xd3, st, []) == LeavesNumber(st, env.tx.lockTime)
    ensures After(env, pos, 0xd4, st, []) == Leaves(st, [Encode(|env.tx.ins|)])
    ensures After(env, pos, 0xd5, st, []) == Leaves(st, [Encode(|env.tx.outs|)])
    ensures After(env, pos, 0xd6, st, []) == LeavesNumber(st, 4 * StrippedSize(env.tx))
  {
    hide Encode, After, StrippedSize;
    InspectRuns(env, pos, 0xcd, CurrentIndex, st, []);
    InspectRuns(env, pos, 0xd2, TxVersion, st, []);
    InspectRuns(env, pos, 0xd3, TxLockTime, st, []);
    InspectRuns(env, pos, 0xd4, NumInputs, st, []);
    InspectRuns(env, pos, 0xd5, NumOutputs, st, []);
    InspectRuns(env, pos, 0xd6, TxWeight, st, []);
    hide InstrOf;
    assert st.d + [] == st.d;
  }

  // ---- packets ----

  lemma TypeIsShort(typ: byte)
    ensures ShortNumber(typ as int)
  {
    EncodeLength(typ as int, 4);
    TopBits(4);
    ScaleByte(1, 0);
    ScaleByte(1, 8);
    ScaleByte(1, 16);
    ScaleByte(1, 23);
  }

  lemma PacketStack(env: Env, pos: nat, st: State, operands: Items)
    ensures After(env, pos, 0xf4, st, operands) ==
            match InspectPackets(env, st.d + operands)
            case Ok(s) => Ok(st.(d := s))
            case Err(e) => Err(e)
  {
    hide InspectPackets;
  }

  lemma PacketRuns(env: Env, pos: nat, st: State, typ: byte)
    ensures var found := FindPacket(env.tx, typ);
            After(env, pos, 0xf4, st, [Encode(typ as int)]) ==
            if found.Err? then Err(found.error)
            else if found.value.None? then Leaves(st, [[], []])
            else if |found.value.value| > 520 then Err(ElementTooBig)
            else Leaves(st, [found.value.value, [1]])
  {
    TypeIsShort(typ);
    SmallNumbers(0x51);
    hide Encode, FindPacket, ReadScriptNum, ShortNumber, After;
    PacketStack(env, pos, st, [Encode(typ as int)]);
    ReadsBack(typ as int);
    PopLast(st.d, Encode(typ as int));
  }

  /** INSPECTPACKET looks in the first extension output. Without one, or without a
      packet of the type in it, it leaves two empty items; an unreadable extension is
      an error; a packet's content is left with a one, if it fits one item. */
  lemma Packets(env: Env, pos: nat, st: State, typ: byte, k: nat)
    ensures (forall i :: 0 <= i < |env.tx.outs| ==> !ExtensionFormat.IsExtension(env.tx.outs[i].pkScript)) ==>
              After(env, pos, 0xf4, st, [Encode(typ as int)]) == Leaves(st, [[], []])
    ensures k < |env.tx.outs| && ExtensionFormat.IsExtension(env.tx.outs[k].pkScript)
            && (forall i :: 0 <= i < k ==> !ExtensionFormat.IsExtension(env.tx.outs[i].pkScript)) ==>
              var r := After(env, pos, 0xf4, st, [Encode(typ as int)]);
              match ExtensionFormat.ParseExtension(env.tx.outs[k].pkScript)
              case None => r == Err(InvalidStackOperation)
              case Some(ps) =>
                && ((forall p :: p in ps ==> p.typ != typ) ==> r == Leaves(st, [[], []]))
                && (forall j :: 0 <= j < |ps| && ps[j].typ == typ ==>
                      r == if |ps[j].data| > 520 then Err(ElementTooBig) else Leaves(st, [ps[j].data, [1]]))
  {
    hide Encode, After, Leaves, ExtensionFormat.IsExtension, ExtensionFormat.ParsePackets;
    PacketRuns(env, pos, st, typ);
    if forall i :: 0 <= i < |env.tx.outs| ==> !ExtensionFormat.IsExtension(env.tx.outs[i].pkScript) {
      NoExtension(env.tx.outs);
    }
    if k < |env.tx.outs| && ExtensionFormat.IsExtension(env.tx.outs[k].pkScript)
       && (forall i :: 0 <= i < k ==> !ExtensionFormat.IsExtension(env.tx.outs[i].pkScript))
    {
      FirstExtensionAt(env.tx.outs, k);
      if ExtensionFormat.ParseExtension(env.tx.outs[k].pkScript).Some? {
        TypeFound(ExtensionFormat.ParseExtension(env.tx.outs[k].pkScript).value, typ);
      }
    }
  }

  lemma {:induction false} TypeFound(ps: seq<ExtensionFormat.Packet>, typ: byte)
    requires ExtensionFormat.DistinctTypes(ps)
    ensures (forall p :: p in ps ==> p.typ != typ) ==> DataOfType(ps, typ) == None
    ensures forall j :: 0 <= j < |ps| && ps[j].typ == typ ==> DataOfType(ps, typ) == Some(ps[j].data)
  {
    if ps != [] {
      TypeFound(ps[1..], typ);
      forall j | 0 <= j < |ps| && ps[j].typ == typ
        ensures DataOfType(ps, typ) == Some(ps[j].data)
      {
        if j > 0 {
          assert ps[1..][j - 1] == ps[j];
        }
      }
    }
  }

  // ---- signatures ----

  /** SIGHASH accepts seven hash types, needs an output beside the input for the
      single ones, and leaves the digest from the current separator position. */
  lemma Digesting(env: Env, pos: nat, st: State, flag: int)
    requires ShortNumber(flag)
    ensures var r := After(env, pos, 0xf6, st, [Encode(flag)]);
            if flag < 0 || flag > 255 then r == Err(NumberTooBig)
            else if !(flag == 0 || flag == 1 || flag == 2 || flag == 3
                      || flag == 0x81 || flag == 0x82 || flag == 0x83) then r == Err(InvalidSigHashType)
            else if (flag == 3 || flag == 0x83) && env.txIdx >= |env.tx.outs| then r == Err(InvalidSigHashType)
            else
              match env.sighash(flag, st.codeSep)
              case Ok(digest) => r == Leaves(st, [digest])
              case Err(e) => r == Err(e)
  {
    hide Encode, ShortNumber, ReadScriptNum;
    ReadsBack(flag);
    PopLast(st.d, Encode(flag));
  }

  /** A key of 32 bytes, or of 33 behind the byte of its scheme. */
  predicate KeyFor(env: Env, key: Bytes, scheme: SigScheme, pub: Bytes) {
    && env.validKey(scheme, pub)
    && match scheme
       case SchnorrSecp256k1 => |key| == 32 && pub == key
       case EcdsaSecp256k1 => |key| == 34 && key == [0x10] + pub
       case EcdsaSecp256r1 => |key| == 34 && key == [0x11] + pub
  }

  /** CHECKSIGFROMSTACK: an empty signature is false under any key; another one must
      be valid, under a valid key of a known form, or the script fails. */
  lemma StackSignatures(env: Env, pos: nat, st: State, sig: Bytes, msg: Bytes, key: Bytes)
    ensures var r := After(env, pos, 0xcc, st, [sig, msg, key]);
            && (sig == [] ==> r == Leaves(st, [[]]))
            && (sig != [] && r.Ok? ==> r == Leaves(st, [[1]]))
            && (sig != [] ==> (r.Ok? <==>
                  exists scheme, pub ::
                    && KeyFor(env, key, scheme, pub) && env.verifySig(scheme, pub, msg, sig)
                    && (scheme == SchnorrSecp256k1 || (|msg| == 32 && |sig| == 64))))
  {
    PopThree(st.d, sig, msg, key);
    PopTwo(st.d, sig, msg);
    PopLast(st.d, sig);
    SmallNumbers(0x51);
    hide Encode;
    if sig != [] {
      SchemeIs(env, key);
      hide InstrOf, KeyFor;
      CheckRuns(env, pos, st, sig, msg, key);
      hide SchemeOf, After;
    }
  }

  lemma CheckRuns(env: Env, pos: nat, st: State, sig: Bytes, msg: Bytes, key: Bytes)
    requires sig != []
    ensures After(env, pos, 0xcc, st, [sig, msg, key]) ==
            match SchemeOf(env, key)
            case Err(e) => Err(e)
            case Ok((scheme, pub)) =>
              if SchemeVerifies(env, scheme, pub, msg, sig) then Leaves(st, [Encode(1)]) else Err(NullFail)
  {
    hide Encode, SchemeOf, SchemeVerifies;
    PopThree(st.d, sig, msg, key);
    PopTwo(st.d, sig, msg);
    PopLast(st.d, sig);
  }

  lemma SchemeIs(env: Env, key: Bytes)
    ensures SchemeOf(env, key).Ok? ==> KeyFor(env, key, SchemeOf(env, key).value.0, SchemeOf(env, key).value.1)
    ensures forall scheme, pub :: KeyFor(env, key, scheme, pub) ==> SchemeOf(env, key) == Ok((scheme, pub))
  {
    if |key| == 34 {
      assert key == [key[0]] + key[1..];
      forall b: byte, pub: Bytes | key == [b] + pub
        ensures key[0] == b && key[1..] == pub
      {
      }
    }
  }

  // ---- around every opcode ----

  /** In a branch that does not run, only conditionals count, but two opcodes are
      refused anywhere, and so is an item of more than 520 bytes. */
  lemma Anywhere(env: Env, pos: nat, t: Token, st: State)
    ensures t.op == 0x65 || t.op == 0x66 ==> StepToken(env, pos, t, st) == Err(ReservedOpcode)
    ensures t.op != 0x65 && t.op != 0x66 && |t.data| > 520 ==> StepToken(env, pos, t, st) == Err(ElementTooBig)
    ensures t.op != 0x65 && t.op != 0x66 && |t.data| <= 520 && !Conditional(t.op) && !Executing(st.cond)
            && |st.d| + |st.a| <= 1000 && ByteSize(st.d) + ByteSize(st.a) <= 131072 ==>
              StepToken(env, pos, t, st) == Ok(st)
  {
    hide Effect, Charge, MinimalPush, ByteSize;
  }

  /** In a running branch a push that is not minimal is refused; otherwise the
      opcode runs and the result must stay within the limits of items and bytes. */
  lemma RunningOpcode(env: Env, pos: nat, t: Token, st: State)
    requires Executing(st.cond) && t.op != 0x65 && t.op != 0x66 && |t.data| <= 520
    ensures var r := StepToken(env, pos, t, st);
            if t.op <= 0x4e && !MinimalPush(t.op, t.data) then r == Err(MinimalData)
            else
              match Charge(env, t.op, st)
              case Err(e) => r == Err(e)
              case Ok(charged) =>
                match Effect(env, pos, t.op, t.data, charged)
                case Err(e) => r == Err(e)
                case Ok(next) =>
                  r == if |next.d| + |next.a| <= 1000 && ByteSize(next.d) + ByteSize(next.a) <= 131072 then Ok(next)
                       else Err(StackOverflow)
  {
    hide Effect, Charge, MinimalPush, ByteSize;
  }

  /** The bytes of a stack are those of its items. */
  lemma BytesCounted(s: Items, x: Bytes)
    ensures ByteSize([]) == 0 && ByteSize(s + [x]) == ByteSize(s) + |x|
  {
    assert (s + [x])[..|s|] == s;
  }

  /** A charge passes exactly when both tables allow one more, and then counts it in
      the tables that limit the opcode. */
  lemma ChargeMeans(env: Env, op: byte, st: State)
    ensures var r := Charge(env, op, st);
            var own := if op in st.counts then st.counts[op] else 0;
            var common := if op in st.sharedCounts then st.sharedCounts[op] else 0;
            && (r.Ok? <==> (op in env.limits ==> own + 1 <= env.limits[op])
                           && (op in env.sharedLimits ==> common + 1 <= env.sharedLimits[op]))
            && (r.Err? ==> r == Err(ScriptTooBig))
            && (r.Ok? ==> r.value == st.(
                  counts := if op in env.limits then st.counts[op := own + 1] else st.counts,
                  sharedCounts :=
                    if op in env.sharedLimits then st.sharedCounts[op := common + 1] else st.sharedCounts))
  {
  }

  /** A run succeeds exactly when every script runs to its end with no conditional
      open and one true item is left. */
  lemma Success(env: Env, script: Bytes, st: State)
    requires script != []
    ensures Outcome(env, [script], st).Ok? <==>
              && Tokenize(script).Ok?
              && var end := RunTokens(env, 0, Tokenize(script).value, st);
                 && end.Ok? && end.value.cond == []
                 && |end.value.d| == 1 && Decode(end.value.d[0]) != 0
  {
    hide Tokenize, RunTokens, Truthy, Decode;
    assert [script][0] == script && [script][1..] == [];
    var ran := RunScript(env, script, st);
    assert RunScripts(env, [script], st) == if ran.Ok? then RunScripts(env, [], ran.value) else ran;
    if ran.Ok? && |ran.value.d| == 1 {
      TruthIsNonzero(ran.value.d[0]);
    }
  }

  /** An engine is created for scripts of at most 10000 bytes that parse, with a
      signature script that only pushes; and it then runs both. */
  lemma EvaluationMeans(env: Env, sigScript: Bytes, script: Bytes, w: Items, shared: map<byte, nat>)
    ensures Evaluate(env, sigScript, script, w, shared).Ok? <==>
              && (sigScript != [] || script != [])
              && |sigScript| <= 10_000 && |script| <= 10_000 && Tokenize(script).Ok? && Tokenize(sigScript).Ok?
              && (forall t :: t in Tokenize(sigScript).value ==> t.op <= 0x60)
              && Outcome(env, [sigScript, script], State(w, [], [], 0xffff_ffff, map[], shared)).Ok?
  {
    hide Tokenize, Outcome;
  }
}
