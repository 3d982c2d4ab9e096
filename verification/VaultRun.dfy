/** The authorization script on the engine itself, over the digest of the message
    the signature covers. */
module VaultRun {
  import opened Common
  import opened ScriptErrors
  import opened Tokenizers
  import opened Stacks
  import opened Transactions
  import opened ScriptVM
  import opened ComputeLimits
  import opened VmInvariants
  import opened VaultScript
  import opened VaultProof
  import opened VaultEnvelope
  import opened VaultAccepts
  import opened Opcodes
  import opened Engines
  import SigMessages

  /** The message of a hash type, from a code separator position. */
  function Message(c: SigMessages.SigContext, flag: nat, codeSep: nat): Result<Bytes, SigMessages.SigError> {
    SigMessages.SigMessage(c.(codeSepPos := codeSep), flag)
  }

  /** The digest is the tagged hash of the message, and fails where the message
      does. */
  predicate DigestIs(digest: Result<Bytes, ErrorCode>, message: Result<Bytes, SigMessages.SigError>,
                     tagged: Bytes -> Bytes) {
    match message
    case Ok(m) => digest == Ok(tagged(m))
    case Err(_) => digest.Err?
  }

  /** The machine's digests are those of the messages over its own transaction. */
  ghost predicate HashesMessage(env: Env, c: SigMessages.SigContext, tagged: Bytes -> Bytes) {
    && c.tx == env.tx && c.txIdx == env.txIdx
    && forall flag: nat, codeSep: nat ::
         SigMessages.ValidHashType(flag) ==> DigestIs(env.sighash(flag, codeSep), Message(c, flag, codeSep), tagged)
  }

  /** A 64-byte signature of the key over the default message of the transaction. */
  predicate SignsMessage(env: Env, c: SigMessages.SigContext, tagged: Bytes -> Bytes, key: Bytes, sig: Bytes) {
    var message := Message(c, 0, BLANK_CODE_SEP);
    && message.Ok? && |tagged(message.value)| == 32 && |sig| == SIGNATURE_BYTES
    && env.validKey(EcdsaSecp256r1, key)
    && env.verifySig(EcdsaSecp256r1, key, tagged(message.value), sig)
  }

  lemma SignatureIsOverMessage(env: Env, c: SigMessages.SigContext, tagged: Bytes -> Bytes, key: Bytes, sig: Bytes)
    requires HashesMessage(env, c, tagged)
    ensures SignatureHolds(env, key, sig) <==> SignsMessage(env, c, tagged, key, sig)
  {
    hide Message;
    assert DigestIs(env.sighash(0, BLANK_CODE_SEP), Message(c, 0, BLANK_CODE_SEP), tagged);
  }

  /** The signature travels in the packet it signs: putting it there, or changing any
      other stack item of the packet, leaves its validity as it was. */
  lemma BindingKeepsSignature(env: Env, c: SigMessages.SigContext, env': Env, c': SigMessages.SigContext,
                              tagged: Bytes -> Bytes, k: nat, j: nat, key: Bytes, sig: Bytes)
    requires HashesMessage(env, c, tagged) && HashesMessage(env', c', tagged)
    requires env'.validKey == env.validKey && env'.verifySig == env.verifySig
    requires c' == c.(tx := c.tx.(outs := c'.tx.outs))
    requires SigMessages.StackVariant(c.tx.outs, c'.tx.outs, k, j)
    ensures SignatureHolds(env, key, sig) <==> SignatureHolds(env', key, sig)
  {
    hide HashesMessage, SignatureHolds, SigMessages.StackVariant, SigMessages.SigMessage;
    SignatureIsOverMessage(env, c, tagged, key, sig);
    SignatureIsOverMessage(env', c', tagged, key, sig);
    SigMessages.MessageIgnoresStacks(
      c.(codeSepPos := BLANK_CODE_SEP), c'.(codeSepPos := BLANK_CODE_SEP), k, j, 0);
  }

  /** The script starts with an introspection opcode. */
  lemma NoWitnessProgram(key: Bytes, p: Policy, prefix: Bytes)
    ensures !IsWitnessProgram(BuildScript(key, p, prefix))
  {
    hide AddInt, Outputs, PacketIsExact, Fees, DirectSignature, IndexedIs;
    var ts := Program(key, p, prefix);
    assert ts[0] == FieldIs(0xd2, 2)[0] == Op(0xd2);
    assert BuildScript(key, p, prefix) == EncodeToken(ts[0]) + EncodeTokens(ts[1..]);
    assert BuildScript(key, p, prefix)[0] == 0xd2;
  }

  /** Building the authorization script and executing it for the input of a
      transaction: the engine accepts exactly the allowed spends with one valid
      signature over their message. */
  method RunAuthorization(env: Env, c: SigMessages.SigContext, tagged: Bytes -> Bytes, key: Bytes, p: Policy,
                          onCurve: Bytes -> bool, w: Items, budget: ComputeBudget)
    returns (r: OpResult)
    requires Authorization(key, p, onCurve).Ok? && BoundedEnv(env) && HashesMessage(env, c, tagged)
    requires env.tx.ins[env.txIdx].sigScript == [] && Representable(w)
    requires budget.limits == env.sharedLimits
    requires BudgetAllows(env.limits, map[]) && BudgetAllows(env.sharedLimits, budget.opCounts)
    requires CollisionFree(env, |Authorization(key, p, onCurve).value|)
    modifies budget
    ensures r.Ok? <==>
              && |w| == 1 && SpendAllowed(env, p, |Authorization(key, p, onCurve).value|)
              && SignsMessage(env, c, tagged, key, w[0])
  {
    hide Evaluate, Authorization, BuildScript, Envelope, SpendAllowed, SignatureHolds, SignsMessage, CollisionFree;
    hide IsWitnessProgram, ChargeTable;
    var script := AuthorizationScript(key, p, onCurve);
    AuthorizationConverges(key, p, onCurve);
    NoWitnessProgram(key, p, Envelope(|script.value|));
    AcceptsExactlySpend(env, key, p, onCurve, w, budget.opCounts);
    if |w| == 1 {
      SignatureIsOverMessage(env, c, tagged, key, w[0]);
    }
    ghost var steps;
    r, steps := ExecuteScript(env, script.value, w, budget);
  }
}
