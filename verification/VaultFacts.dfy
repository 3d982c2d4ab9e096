/** The spending policy the authorization script enforces, field by field. */
module VaultFacts {
  import opened Common
  import opened ExtensionFormat
  import opened Transactions
  import opened ScriptVM
  import opened Instructions
  import opened VaultScript
  import opened VaultEnvelope
  import opened VaultAccepts
  import opened ClassifyFacts

  /** Version two, no lock time, one final input, three outputs. */
  predicate TransactionFields(tx: Tx) {
    && tx.version == 2 && tx.lockTime == 0
    && |tx.ins| == 1 && tx.ins[0].sequence == 0xffff_ffff && |tx.outs| == 3
  }

  /** Recipient between dust and cap, change of at least dust to the spent taproot
      program, a worthless packet output. */
  predicate OutputFields(env: Env, p: Policy)
    requires TransactionFields(env.tx)
  {
    var outs := env.tx.outs;
    && ProgramBytes(outs[0].pkScript) && p.dust <= outs[0].value <= p.cap
    && 0 <= outs[0].value <= 2_100_000_000_000_000
    && ProgramBytes(outs[1].pkScript) && outs[1].pkScript[0] == 0x51
    && env.fetchVtxoScript(env.tx.ins[0].prevOut) == Some(outs[1].pkScript)
    && p.dust <= outs[1].value && 0 <= outs[1].value <= 2_100_000_000_000_000
    && outs[2].value == 0
  }

  /** What is put in and not paid out is no more than either ceiling. */
  predicate FeeFields(env: Env, p: Policy)
    requires TransactionFields(env.tx)
  {
    var prev := env.fetchPrevOut(env.tx.ins[0].prevOut);
    && prev.Some? && 0 <= prev.value.value <= 2_100_000_000_000_000
    && var fee := prev.value.value - env.tx.outs[0].value - env.tx.outs[1].value;
       && 0 <= fee <= p.feeCeiling
       && fee <= p.feerate * ((4 * StrippedSize(env.tx) + 399 + 3) / 4)
  }

  /** The packet output is the canonical extension of one packet of type one, whose
      content has the length of an entry with the script and one 64-byte item. */
  ghost predicate PacketFields(script: Bytes, scriptLength: nat) {
    exists content: Bytes ::
      |content| == ContentLength(scriptLength) && EncodeExtension([Packet(0x01, content)]) == Some(script)
  }

  lemma ShapeIs(tx: Tx)
    ensures ShapeHolds(tx) <==> TransactionFields(tx)
  {
  }

  lemma OutputsAre(env: Env, p: Policy)
    requires ShapeHolds(env.tx) && TransactionFields(env.tx)
    ensures OutputsHold(env, p) <==> OutputFields(env, p)
  {
  }

  lemma FeesAre(env: Env, p: Policy)
    requires ShapeHolds(env.tx) && TransactionFields(env.tx)
    ensures FeesHold(env, p) <==> FeeFields(env, p)
  {
    hide StrippedSize;
  }

  lemma PacketIsExact(script: Bytes, n: nat)
    requires n <= MAX_ENVELOPED
    ensures ExactPacketOutput(script, ContentLength(n)) <==> PacketFields(script, n)
  {
    hide EncodeExtension, EnvelopePrefix;
    EnvelopeFits(n);
    if ExactPacketOutput(script, ContentLength(n)) {
      var content: Bytes :| |content| == ContentLength(n) && script == EnvelopePrefix(ContentLength(n)) + content;
      EnvelopeThenContent(content);
    }
    if PacketFields(script, n) {
      var content: Bytes :| |content| == ContentLength(n) && EncodeExtension([Packet(0x01, content)]) == Some(script);
      EnvelopeThenContent(content);
    }
  }

  /** What the script allows, over the transaction's fields alone. */
  lemma AllowedMeans(env: Env, p: Policy, n: nat)
    requires n <= MAX_ENVELOPED
    ensures SpendAllowed(env, p, n) <==>
              && TransactionFields(env.tx) && OutputFields(env, p)
              && PacketFields(env.tx.outs[2].pkScript, n) && FeeFields(env, p)
  {
    hide OutputsHold, OutputFields, FeesHold, FeeFields, PacketFields, ExactPacketOutput, ContentLength;
    ShapeIs(env.tx);
    if TransactionFields(env.tx) {
      OutputsAre(env, p);
      FeesAre(env, p);
      PacketIsExact(env.tx.outs[2].pkScript, n);
    }
  }

  /** The content's length: count, input index, script and stack with their sizes. */
  lemma ContentLengthIs(n: nat)
    ensures n < 0xfd ==> ContentLength(n) == 1 + 2 + (1 + n) + (1 + (1 + 1 + 64))
    ensures 0xfd <= n <= 0xffff ==> ContentLength(n) == 1 + 2 + (3 + n) + (1 + (1 + 1 + 64))
  {
    if n <= 0xffff {
      VarIntWidth(n);
    }
  }
}
