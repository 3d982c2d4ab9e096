/** The structural check and the script agree: what the checker accepts, the
    script accepts. */
module VaultSpend {
  import opened Common
  import opened Numbers
  import opened Stacks
  import opened ExtensionFormat
  import opened EmulatorPackets
  import opened Transactions
  import opened Instructions
  import opened ScriptVM
  import opened ComputeLimits
  import opened VmInvariants
  import opened Psbts
  import opened VaultScript
  import opened VaultProof
  import opened VaultEnvelope
  import opened VaultAccepts
  import opened Classify
  import opened Engines
  import Int64

  /** The machine runs the transaction of this packet over the output it spends. */
  predicate RunsOver(env: Env, ptx: Psbt)
    requires |ptx.tx.ins| == 1 && |ptx.inputs| == 1 && ptx.inputs[0].utxo.Some?
  {
    var spent := ptx.inputs[0].utxo.value;
    && env.tx == ptx.tx
    && env.fetchPrevOut(ptx.tx.ins[0].prevOut) == Some(spent)
    && env.fetchVtxoScript(ptx.tx.ins[0].prevOut) == Some(spent.pkScript)
  }

  /** An enrolled vault: a taproot output whose authorization script was built for
      the key and policy, and a routine leaf of the expected size. */
  predicate Enrolled(v: Vault, key: Bytes, onCurve: Bytes -> bool) {
    && Authorization(key, v.policy, onCurve) == Ok(v.authScript)
    && IsWitnessProgram(v.pkScript) && WitnessVersion(v.pkScript) == 1
    && EstimatedWitnessBytes(v) == ROUTINE_WITNESS_BYTES
  }

  /** The packet carries one 64-byte item. */
  predicate Bound(ptx: Psbt, empty: Bytes, sig: Bytes) {
    && |ptx.tx.outs| == 3 && |sig| == SIGNATURE_BYTES
    && var e := SoleEntry(ptx.tx.outs[2].pkScript, empty);
       e.Some? && e.value.stack == [sig]
  }

  lemma EntryContent(script: Bytes, empty: Bytes)
    requires SoleEntry(script, empty).Some? && SoleEntry(script, empty).value.stack != []
    ensures var content := WriteContent([SoleEntry(script, empty).value], []);
            && EncodeExtension([Packet(VaultScript.PACKET_TYPE, content)]) == Some(script)
            && ParseExtension(script) == Some([Packet(VaultScript.PACKET_TYPE, content)])
  {
    hide EncodeExtension, ParseExtension, ReadContent;
    var ps := ParseExtension(script).value;
    assert ps == [ps[0]];
    assert ps[0] == Packet(ps[0].typ, ps[0].data);
    var es := ReadContent(ps[0].data).value;
    assert es == [es[0]];
    SameForm(es[0], empty);
  }

  /** The empty form matters to empty stacks only. */
  lemma SameForm(e: Entry, empty: Bytes)
    requires e.stack != []
    ensures WriteContent([e], empty) == WriteContent([e], [])
  {
    hide WriteVarBytes;
    assert [e][1..] == [];
    assert WriteEntry(e, empty) == WriteEntry(e, []);
    assert WriteEntries([e][1..], empty) == WriteEntries([e][1..], []) == [];
  }

  lemma BoundPacket(env: Env, ptx: Psbt, v: Vault, empty: Bytes, key: Bytes, onCurve: Bytes -> bool, sig: Bytes)
    requires Enrolled(v, key, onCurve) && SpendShape(ptx, v, empty) && Bound(ptx, empty, sig) && RunsOver(env, ptx)
    requires ShapeHolds(env.tx) && OutputsHold(env, v.policy)
    ensures PacketHolds(env, Envelope(|v.authScript|))
  {
    var script := ptx.tx.outs[2].pkScript;
    var content := WriteContent(OneEntry(v.authScript, sig), []);
    assert SoleEntry(script, empty).value == Entry(0, v.authScript, [sig]) by {
      hide SoleEntry, IsExtension, StrippedSize, IsWitnessProgram, IsUnspendable;
    }
    hide *;
    EntryContent(script, empty);
    OneEntryIs(v.authScript, sig);
    EnrolledScript(v, key, onCurve);
    EnvelopeIsExact(key, v.policy, onCurve, sig);
    AcceptedHolds(env, ptx, v, content);
  }

  lemma OneEntryIs(script: Bytes, sig: Bytes)
    ensures OneEntry(script, sig) == [Entry(0, script, [sig])]
  {
  }

  lemma EnrolledScript(v: Vault, key: Bytes, onCurve: Bytes -> bool)
    requires Enrolled(v, key, onCurve)
    ensures Authorization(key, v.policy, onCurve) == Ok(v.authScript)
  {
    hide Authorization;
  }

  lemma AcceptedHolds(env: Env, ptx: Psbt, v: Vault, content: Bytes)
    requires ShapeHolds(env.tx) && OutputsHold(env, v.policy) && |ptx.tx.outs| == 3 && env.tx == ptx.tx
    requires ParseExtension(ptx.tx.outs[2].pkScript) == Some([Packet(VaultScript.PACKET_TYPE, content)])
    requires ptx.tx.outs[2].pkScript == Envelope(|v.authScript|) + content
    requires |Envelope(|v.authScript|)| + |content| <= MAX_ELEMENT_SIZE
    ensures PacketHolds(env, Envelope(|v.authScript|))
  {
    hide OutputsHold, FirstExtension, EnvelopePrefix, DataOfType, ParsePackets, PushedPayload, IsWitnessProgram;
    NotAProgram(ContentLength(|v.authScript|), content);
    ExtensionIsLast(env, v.policy);
    OnePacketData(content);
  }

  /** Of the script's clauses on the outputs, the shape leaves only the cap open. */
  lemma ShapedOutputs(env: Env, ptx: Psbt, v: Vault, empty: Bytes, key: Bytes, onCurve: Bytes -> bool)
    requires Enrolled(v, key, onCurve) && SpendShape(ptx, v, empty) && RunsOver(env, ptx)
    ensures |ptx.tx.outs| == 3 && ShapeHolds(env.tx)
    ensures OutputsHold(env, v.policy) <==> ptx.tx.outs[0].value <= v.policy.cap
  {
    hide IsExtension, SoleEntry, StrippedSize, IsWitnessProgram, IsUnspendable, Authorization, WitnessVersion;
    var outs := ptx.tx.outs;
    assert outs[0] in outs && outs[1] in outs;
  }

  /** And of those on the fee, the two ceilings. */
  lemma ShapedFees(env: Env, ptx: Psbt, v: Vault, empty: Bytes, key: Bytes, onCurve: Bytes -> bool)
    requires Enrolled(v, key, onCurve) && SpendShape(ptx, v, empty) && RunsOver(env, ptx)
    requires ShapeHolds(env.tx)
    ensures |ptx.inputs| == 1 && ptx.inputs[0].utxo.Some? && |ptx.tx.outs| == 3
    ensures FeesHold(env, v.policy) <==>
              SpentFee(ptx) <= v.policy.feeCeiling
              && SpentFee(ptx) <= v.policy.feerate * EstimatedVBytes(ptx.tx, v)
  {
    hide RecipientOutput, ChangeOutput, PacketOutput, Authorization, IsWitnessProgram, WitnessVersion, StrippedSize;
    SizesCoincide(ptx.tx, v);
    FeeIsBounded(ptx, v, empty);
  }

  /** For a bound spend of the right shape, the script's policy is the classifier's
      caps, with no width on the product. */
  lemma PolicyIsCaps(env: Env, ptx: Psbt, v: Vault, empty: Bytes, key: Bytes, onCurve: Bytes -> bool, sig: Bytes)
    requires Enrolled(v, key, onCurve) && SpendShape(ptx, v, empty) && Bound(ptx, empty, sig) && RunsOver(env, ptx)
    ensures PolicyHolds(env, v.policy, Envelope(|v.authScript|)) <==> WithinCaps(ptx, v, empty)
  {
    hide SpendShape, Enrolled, Bound, RunsOver, OutputsHold, PacketHolds, FeesHold, Envelope, EstimatedVBytes;
    ShapedOutputs(env, ptx, v, empty, key, onCurve);
    ShapedFees(env, ptx, v, empty, key, onCurve);
    if OutputsHold(env, v.policy) {
      BoundPacket(env, ptx, v, empty, key, onCurve, sig);
    }
  }

  lemma EnrolledPolicy(v: Vault, key: Bytes, onCurve: Bytes -> bool)
    requires Enrolled(v, key, onCurve)
    ensures ValidPolicy(v.policy) && |key| == 33 && 0 < |v.authScript| <= 212
    ensures v.authScript == BuildScript(key, v.policy, Envelope(|v.authScript|))
  {
    hide Authorization, BuildScript, Envelope;
    AuthorizationConverges(key, v.policy, onCurve);
    ShortScript(key, v.policy);
    EnvelopeFits(|v.authScript|);
    ScriptLength(key, v.policy, Envelope(|v.authScript|));
  }

  lemma AcceptedWithinCaps(ptx: Psbt, v: Vault, empty: Bytes)
    requires ValidPolicy(v.policy) && Accepted(ptx, v, empty)
    ensures WithinCaps(ptx, v, empty)
  {
    hide SpendShape, EstimatedVBytes, FeerateLimit;
    AcceptedParts(ptx, v, empty);
    FeeIsBounded(ptx, v, empty);
    WrappedLimit(v.policy, SpentFee(ptx), EstimatedVBytes(ptx.tx, v));
  }

  /** What the checker accepts meets the script's policy, once bound to a 64-byte
      item. */
  lemma AcceptedMeetsPolicy(env: Env, ptx: Psbt, v: Vault, empty: Bytes, key: Bytes, onCurve: Bytes -> bool, sig: Bytes)
    requires Enrolled(v, key, onCurve) && Accepted(ptx, v, empty) && Bound(ptx, empty, sig) && RunsOver(env, ptx)
    ensures PolicyHolds(env, v.policy, Envelope(|v.authScript|))
  {
    hide Enrolled, Accepted, WithinCaps, Bound, RunsOver, PolicyHolds, Envelope;
    EnrolledPolicy(v, key, onCurve);
    AcceptedWithinCaps(ptx, v, empty);
    AcceptedIsShaped(ptx, v, empty);
    PolicyIsCaps(env, ptx, v, empty, key, onCurve, sig);
  }

  lemma AcceptedIsShaped(ptx: Psbt, v: Vault, empty: Bytes)
    requires Accepted(ptx, v, empty)
    ensures SpendShape(ptx, v, empty)
  {
    hide SpendShape, EstimatedVBytes, FeerateLimit;
  }

  /** Given that the item is a valid signature, the machine accepts a spend of the
      right shape exactly when it is within the caps. */
  lemma ShapedSpendRuns(env: Env, ptx: Psbt, v: Vault, empty: Bytes, key: Bytes, onCurve: Bytes -> bool,
                        sig: Bytes, shared: Counts)
    requires Enrolled(v, key, onCurve) && SpendShape(ptx, v, empty) && Bound(ptx, empty, sig) && RunsOver(env, ptx)
    requires BoundedEnv(env) && BudgetAllows(env.limits, map[]) && BudgetAllows(env.sharedLimits, shared)
    requires SignatureHolds(env, key, sig)
    ensures Evaluate(env, [], v.authScript, [sig], shared).Ok? <==> WithinCaps(ptx, v, empty)
  {
    hide Enrolled, SpendShape, WithinCaps, Bound, RunsOver, BoundedEnv, SignatureHolds, PolicyHolds, Evaluate;
    hide Envelope, BuildScript;
    EnrolledPolicy(v, key, onCurve);
    PolicyIsCaps(env, ptx, v, empty, key, onCurve, sig);
    EnvelopeFits(|v.authScript|);
    AcceptsExactlyPolicy(env, key, v.policy, Envelope(|v.authScript|), [sig], shared);
  }

  /** So it accepts whatever the checker accepts. */
  lemma AcceptedSpendRuns(env: Env, ptx: Psbt, v: Vault, empty: Bytes, key: Bytes, onCurve: Bytes -> bool,
                          sig: Bytes, shared: Counts)
    requires Enrolled(v, key, onCurve) && Accepted(ptx, v, empty) && Bound(ptx, empty, sig) && RunsOver(env, ptx)
    requires BoundedEnv(env) && BudgetAllows(env.limits, map[]) && BudgetAllows(env.sharedLimits, shared)
    requires SignatureHolds(env, key, sig)
    ensures Evaluate(env, [], v.authScript, [sig], shared).Ok?
  {
    hide Enrolled, Accepted, WithinCaps, SpendShape, Bound, RunsOver, BoundedEnv, SignatureHolds, Evaluate;
    EnrolledPolicy(v, key, onCurve);
    AcceptedWithinCaps(ptx, v, empty);
    AcceptedIsShaped(ptx, v, empty);
    ShapedSpendRuns(env, ptx, v, empty, key, onCurve, sig, shared);
  }

  /** Where the feerate product is exact, checker and machine agree. */
  lemma CheckerIsExact(env: Env, ptx: Psbt, v: Vault, empty: Bytes, key: Bytes, onCurve: Bytes -> bool,
                       sig: Bytes, shared: Counts)
    requires Enrolled(v, key, onCurve) && SpendShape(ptx, v, empty) && Bound(ptx, empty, sig) && RunsOver(env, ptx)
    requires BoundedEnv(env) && BudgetAllows(env.limits, map[]) && BudgetAllows(env.sharedLimits, shared)
    requires SignatureHolds(env, key, sig)
    requires ExactFeerate(v.policy, EstimatedVBytes(ptx.tx, v))
    ensures Evaluate(env, [], v.authScript, [sig], shared).Ok? <==> Accepted(ptx, v, empty)
  {
    hide Enrolled, Accepted, WithinCaps, SpendShape, Bound, RunsOver, BoundedEnv, SignatureHolds, Evaluate;
    hide EstimatedVBytes, FeerateLimit;
    EnrolledPolicy(v, key, onCurve);
    ExactOnOne(ptx, v, empty);
    ShapedSpendRuns(env, ptx, v, empty, key, onCurve, sig, shared);
  }

  // ---- a spend the script accepts and the classifier refuses ----

  /** A pay-to-witness-script-hash recipient. */
  function SampleRecipient(): Bytes {
    [0, 32] + Zeros(32)
  }

  function SamplePacket(v: Vault, sig: Bytes): Bytes {
    Envelope(|v.authScript|) + WriteContent(OneEntry(v.authScript, sig), [])
  }

  /** Dust to the recipient and to the vault, no fee, and the item in the packet. */
  function SampleSpend(v: Vault, prevOut: OutPoint, sig: Bytes): Psbt {
    var dust := v.policy.dust;
    Psbt(
      Tx(2, 0, [TxIn(prevOut, [], MAX_SEQUENCE)],
         [TxOut(dust, SampleRecipient()), TxOut(dust, v.pkScript), TxOut(0, SamplePacket(v, sig))]),
      [PsbtInput(Some(TxOut(2 * dust, v.pkScript)), SIGHASH_DEFAULT,
                 [Some(TapLeaf(v.routineScript, v.routineControl, BASE_LEAF_VERSION))], [], [])],
      [])
  }

  lemma SamplePacketShape(v: Vault, empty: Bytes, key: Bytes, onCurve: Bytes -> bool, sig: Bytes)
    requires Enrolled(v, key, onCurve) && |sig| == SIGNATURE_BYTES
    ensures var script := SamplePacket(v, sig);
            && IsExtension(script) && SoleEntry(script, empty) == Some(Entry(0, v.authScript, [sig]))
            && 79 <= |script| <= 294
  {
    hide EncodeExtension, ParseExtension, ReadContent, WriteContent, Authorization, IsExtension, EnvelopePrefix;
    hide IsWitnessProgram, WitnessVersion, EstimatedWitnessBytes;
    EnrolledPolicy(v, key, onCurve);
    EnvelopeIsExact(key, v.policy, onCurve, sig);
    var es := OneEntry(v.authScript, sig);
    var content := WriteContent(es, []);
    var ps := [Packet(VaultScript.PACKET_TYPE, content)];
    ParseEncodedExtension(ps);
    OneEntryReads(v.authScript, sig);
    SameForm(es[0], empty);
    OneEntryLength(v.authScript, sig);
    EnvelopeFits(|v.authScript|);
    VarIntWidth(|v.authScript|);
  }

  lemma OneEntryReads(script: Bytes, sig: Bytes)
    requires 0 < |script| <= 212 && |sig| == SIGNATURE_BYTES
    ensures ReadContent(WriteContent(OneEntry(script, sig), [])) == Ok(OneEntry(script, sig))
  {
    hide ReadContent, WriteContent, WriteVarInt, WriteStack;
    var es := OneEntry(script, sig);
    OneItemStack(sig);
    assert es[1..] == [] && TotalSize([], []) == 0;
    assert TotalSize(es, []) == EntrySize(es[0], []) + TotalSize(es[1..], []);
    ReadWrittenContent(es, []);
  }

  lemma SampleSize(v: Vault, prevOut: OutPoint, sig: Bytes)
    requires EstimatedWitnessBytes(v) == ROUTINE_WITNESS_BYTES
    requires |v.pkScript| == |SampleRecipient()| == 34 && 79 <= |SamplePacket(v, sig)| <= 294
    ensures 325 <= EstimatedVBytes(SampleSpend(v, prevOut, sig).tx, v) <= 542
  {
    hide SamplePacket, SampleRecipient, OutputsSize, EstimatedWitnessBytes;
    var tx := SampleSpend(v, prevOut, sig).tx;
    SizesCoincide(tx, v);
    SizeOfThree(tx.outs);
    assert tx.ins[1..] == [];
    assert InputsSize(tx.ins) == 41;
    assert 225 <= StrippedSize(tx) <= 442;
  }

  lemma SampleOutputs(v: Vault, prevOut: OutPoint, empty: Bytes, sig: Bytes)
    requires ValidPolicy(v.policy) && 2 * v.policy.dust <= MAX_SATOSHI
    requires IsWitnessProgram(v.pkScript) && WitnessVersion(v.pkScript) == 1
    requires IsExtension(SamplePacket(v, sig))
    requires SoleEntry(SamplePacket(v, sig), empty) == Some(Entry(0, v.authScript, [sig]))
    ensures var ptx := SampleSpend(v, prevOut, sig);
            SpendShape(ptx, v, empty) && SpentFee(ptx) == 0
  {
    hide IsExtension, SoleEntry, IsUnspendable, SamplePacket, SampleRecipient, IsWitnessProgram, WitnessVersion;
    SampleRecipientShape(v);
    WitnessProgramIsNoExtension(v.pkScript);
  }

  /** These spends are of the right shape, and their sizes lie between the bounds
      that matter below. */
  lemma SampleShape(v: Vault, prevOut: OutPoint, empty: Bytes, key: Bytes, onCurve: Bytes -> bool, sig: Bytes)
    requires Enrolled(v, key, onCurve) && |sig| == SIGNATURE_BYTES
    requires |v.pkScript| == 34 && 2 * v.policy.dust <= MAX_SATOSHI
    ensures var ptx := SampleSpend(v, prevOut, sig);
            && SpendShape(ptx, v, empty) && Bound(ptx, empty, sig) && SpentFee(ptx) == 0
            && 325 <= EstimatedVBytes(ptx.tx, v) <= 542
  {
    hide SpendShape, IsExtension, SoleEntry, SamplePacket, SampleRecipient, Authorization, EstimatedVBytes;
    hide IsWitnessProgram, WitnessVersion, EstimatedWitnessBytes;
    EnrolledPolicy(v, key, onCurve);
    SamplePacketShape(v, empty, key, onCurve, sig);
    SampleRecipientShape(v);
    SampleOutputs(v, prevOut, empty, sig);
    SampleSize(v, prevOut, sig);
  }

  lemma SampleRecipientShape(v: Vault)
    requires IsWitnessProgram(v.pkScript) && WitnessVersion(v.pkScript) == 1
    ensures var script := SampleRecipient();
            && |script| == 34 && IsWitnessProgram(script) && !IsExtension(script) && !IsUnspendable(script)
            && script != v.pkScript && script != ANCHOR_SCRIPT
  {
    hide IsUnspendable, IsExtension;
    NativeIsSpendable(SampleRecipient());
    WitnessProgramIsNoExtension(SampleRecipient());
  }

  /** Thirty quadrillion: times the size of such a spend it is past int64, and wraps
      to a negative limit. */
  const WRAPPING_FEERATE: int := 30_000_000_000_000_000

  lemma WrapsNegative(p: Policy, vbytes: int)
    requires p.feerate == WRAPPING_FEERATE && 325 <= vbytes <= 542
    ensures FeerateLimit(p, vbytes) < 0 < p.feerate * vbytes
  {
  }

  /** No fee is too high for the caps and too high for a negative limit. */
  lemma RefusedByWrap(ptx: Psbt, v: Vault, empty: Bytes)
    requires ValidPolicy(v.policy) && v.policy.feerate == WRAPPING_FEERATE
    requires SpendShape(ptx, v, empty) && |ptx.tx.outs| == 3 && |ptx.inputs| == 1 && ptx.inputs[0].utxo.Some?
    requires ptx.tx.outs[0].value <= v.policy.cap && SpentFee(ptx) == 0
    requires 325 <= EstimatedVBytes(ptx.tx, v) <= 542
    ensures WithinCaps(ptx, v, empty) && !Accepted(ptx, v, empty)
  {
    hide SpendShape, EstimatedVBytes, FeerateLimit;
    WrapsNegative(v.policy, EstimatedVBytes(ptx.tx, v));
  }

  lemma DustInCap(p: Policy)
    requires ValidPolicy(p)
    ensures p.dust <= p.cap
  {
  }

  lemma SampleAmounts(v: Vault, prevOut: OutPoint, sig: Bytes)
    ensures var ptx := SampleSpend(v, prevOut, sig);
            && |ptx.inputs| == 1 && ptx.inputs[0].utxo.Some? && |ptx.tx.outs| == 3
            && ptx.tx.outs[0].value == v.policy.dust && |ptx.tx.ins| == 1
  {
    hide SamplePacket, SampleRecipient;
  }

  /** A valid policy with a spend that pays no fee at all and that the script's
      policy allows, but the classifier refuses. */
  lemma WrappingRefuses(env: Env, v: Vault, prevOut: OutPoint, empty: Bytes, key: Bytes, onCurve: Bytes -> bool,
                        sig: Bytes)
    requires Enrolled(v, key, onCurve) && |sig| == SIGNATURE_BYTES
    requires |v.pkScript| == 34 && 2 * v.policy.dust <= MAX_SATOSHI && v.policy.feerate == WRAPPING_FEERATE
    ensures var ptx := SampleSpend(v, prevOut, sig);
            && SpendShape(ptx, v, empty) && WithinCaps(ptx, v, empty) && !Accepted(ptx, v, empty)
            && (RunsOver(env, ptx) ==> PolicyHolds(env, v.policy, Envelope(|v.authScript|)))
  {
    hide *;
    var ptx := SampleSpend(v, prevOut, sig);
    EnrolledPolicy(v, key, onCurve);
    SampleAmounts(v, prevOut, sig);
    SampleShape(v, prevOut, empty, key, onCurve, sig);
    DustInCap(v.policy);
    RefusedByWrap(ptx, v, empty);
    if RunsOver(env, ptx) {
      PolicyIsCaps(env, ptx, v, empty, key, onCurve, sig);
    }
  }
}
