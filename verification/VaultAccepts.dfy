/** What the committed authorization script accepts, in terms of the transaction
    alone. */
module VaultAccepts {
  import opened Common
  import opened Numbers
  import opened Stacks
  import opened Tokenizers
  import opened ExtensionFormat
  import opened EmulatorPackets
  import opened Transactions
  import opened Instructions
  import opened ScriptVM
  import opened ComputeLimits
  import opened VmInvariants
  import opened VaultScript
  import opened VaultProof
  import opened VaultEnvelope
  import opened Engines

  /** The rebuilt output script and the real one are no collision of the hash. */
  predicate CollisionFree(env: Env, n: nat) {
    ShapeHolds(env.tx) && PacketContent(env.tx).Some? ==>
      var a, b := Envelope(n) + PacketContent(env.tx).value, env.tx.outs[2].pkScript;
      env.hash(Sha256, a) == env.hash(Sha256, b) ==> a == b
  }

  /** The last output is the canonical extension of one packet, with a content of
      the given length. */
  ghost predicate ExactPacketOutput(script: Bytes, length: nat) {
    exists content: Bytes :: |content| == length && script == EnvelopePrefix(length) + content
  }

  lemma ExtensionIsLast(env: Env, p: Policy)
    requires ShapeHolds(env.tx) && OutputsHold(env, p)
    ensures FirstExtension(env.tx.outs) == if IsExtension(env.tx.outs[2].pkScript) then Some(2) else None
  {
    var outs := env.tx.outs;
    WitnessProgramIsNoExtension(outs[0].pkScript);
    WitnessProgramIsNoExtension(outs[1].pkScript);
    hide IsExtension, IsWitnessProgram;
    assert outs[1..][1..] == [outs[2]] && outs[1..][0] == outs[1];
    assert [outs[2]][1..] == [];
    assert FirstExtension([outs[2]]) == if IsExtension(outs[2].pkScript) then Some(0) else None;
    assert FirstExtension(outs[1..]) == if IsExtension(outs[2].pkScript) then Some(1) else None;
  }

  lemma OnePacketData(content: Bytes)
    ensures DataOfType([Packet(VaultScript.PACKET_TYPE, content)], VaultScript.PACKET_TYPE) == Some(content)
  {
  }

  /** The canonical output's packet is the one the script inspects. */
  lemma ExactIsFound(env: Env, p: Policy, content: Bytes)
    requires ShapeHolds(env.tx) && OutputsHold(env, p)
    requires |PacketHeader(|content|)| + |content| <= 0xffff
    requires env.tx.outs[2].pkScript == EnvelopePrefix(|content|) + content
    ensures PacketContent(env.tx) == Some(content)
  {
    ExtensionIsLast(env, p);
    EnvelopeThenContent(content);
    OnePacketData(content);
    hide OutputsHold, EncodeExtension, FirstExtension, ParseExtension, IsExtension, EnvelopePrefix, DataOfType;
    ParseEncodedExtension([Packet(VaultScript.PACKET_TYPE, content)]);
  }

  lemma ReadHeader(n: nat, rest: Bytes)
    requires 0 < n <= 0xffff
    ensures ReadPush(PushHeader(n) + rest) == Take(rest, n)
  {
    var s := PushHeader(n) + rest;
    if n < 76 {
      assert s[1..] == rest;
    } else if n <= 0xff {
      assert s[2..] == rest;
    } else {
      WidthBounds();
      LeNatOfLeBytes(n, 2);
      hide LeNat, LeBytes;
      assert s[1..3] == LeBytes(n, 2) && s[3..] == rest;
    }
  }

  /** An extension that starts with an envelope holds a content of its length. */
  lemma EnvelopeFixesLength(length: nat, content: Bytes)
    requires |PacketHeader(length)| + length <= 0xffff
    requires IsExtension(EnvelopePrefix(length) + content)
    ensures |content| == length
  {
    hide ReadPush, PushHeader, WriteUvarint;
    var header := PacketHeader(length);
    var n := |header| + length;
    var script := EnvelopePrefix(length) + content;
    assert script[1..] == PushHeader(n) + (header + content) by {
      Assoc(PushHeader(n), header, content);
      assert script == [OP_RETURN] + (PushHeader(n) + header + content);
    }
    ReadHeader(n, header + content);
  }

  // ---- the packet clause ----

  /** Without hash collisions, the packet clause of the policy says that the last
      output is the envelope followed by a content of its length. */
  lemma PacketClause(env: Env, p: Policy, n: nat)
    requires ShapeHolds(env.tx) && OutputsHold(env, p) && n <= MAX_ENVELOPED
    requires |Envelope(n)| + ContentLength(n) <= MAX_ELEMENT_SIZE
    requires CollisionFree(env, n)
    ensures PacketHolds(env, Envelope(n)) <==> ExactPacketOutput(env.tx.outs[2].pkScript, ContentLength(n))
  {
    var script := env.tx.outs[2].pkScript;
    EnvelopeFits(n);
    hide OutputsHold, EnvelopePrefix;
    if ExactPacketOutput(script, ContentLength(n)) {
      var content: Bytes :| |content| == ContentLength(n) && script == EnvelopePrefix(ContentLength(n)) + content;
      ExactIsFound(env, p, content);
      NotAProgram(ContentLength(n), content);
    }
    if PacketHolds(env, Envelope(n)) {
      var content := PacketContent(env.tx).value;
      assert Envelope(n) + content == script;
      FoundIsExtension(env, p);
      EnvelopeFixesLength(ContentLength(n), content);
    }
  }

  lemma NotAProgram(length: nat, content: Bytes)
    ensures !IsWitnessProgram(EnvelopePrefix(length) + content)
  {
    assert (EnvelopePrefix(length) + content)[0] == OP_RETURN;
  }

  lemma FoundIsExtension(env: Env, p: Policy)
    requires ShapeHolds(env.tx) && OutputsHold(env, p) && PacketContent(env.tx).Some?
    ensures IsExtension(env.tx.outs[2].pkScript)
  {
    ExtensionIsLast(env, p);
    hide OutputsHold, IsExtension, FirstExtension;
  }

  // ---- the main result, for the script that is committed ----

  /** The policy with the packet clause in terms of bytes. */
  ghost predicate SpendAllowed(env: Env, p: Policy, n: nat) {
    && ShapeHolds(env.tx) && OutputsHold(env, p)
    && ExactPacketOutput(env.tx.outs[2].pkScript, ContentLength(n))
    && FeesHold(env, p)
  }

  lemma AcceptsExactlySpend(env: Env, key: Bytes, p: Policy, onCurve: Bytes -> bool, w: Items, shared: Counts)
    requires Authorization(key, p, onCurve).Ok? && BoundedEnv(env)
    requires BudgetAllows(env.limits, map[]) && BudgetAllows(env.sharedLimits, shared)
    requires CollisionFree(env, |Authorization(key, p, onCurve).value|)
    ensures var script := Authorization(key, p, onCurve).value;
            Evaluate(env, [], script, w, shared).Ok?
            <==> |w| == 1 && SpendAllowed(env, p, |script|) && SignatureHolds(env, key, w[0])
  {
    var script := Authorization(key, p, onCurve).value;
    AuthorizationConverges(key, p, onCurve);
    hide Envelope, BuildScript, Evaluate, CollisionFree, Authorization;
    hide BoundedEnv, SignatureHolds, OutputsHold, PacketHolds, ExactPacketOutput;
    EnvelopeFits(|script|);
    AcceptsExactlyPolicy(env, key, p, Envelope(|script|), w, shared);
    EnvelopeRoom(|script|);
    if ShapeHolds(env.tx) && OutputsHold(env, p) {
      PacketClause(env, p, |script|);
    }
  }

  lemma EnvelopeRoom(n: nat)
    requires n <= 212
    ensures |Envelope(n)| + ContentLength(n) <= MAX_ELEMENT_SIZE
  {
    EnvelopeFits(n);
    VarIntWidth(n);
    hide Envelope;
  }
}
