/** What the structural check means field by field, and what it refuses. */
module ClassifyFacts {
  import opened Common
  import opened ExtensionFormat
  import opened EmulatorPackets
  import opened Transactions
  import opened Psbts
  import opened VaultScript
  import opened Classify
  import Int64

  // ---- the clauses, over the packet's fields ----

  /** One final input that spends the vault, with the routine leaf alone. */
  predicate InputFields(ptx: Psbt, v: Vault) {
    && ptx.tx.version == 2 && ptx.tx.lockTime == 0
    && |ptx.tx.ins| == 1 && ptx.tx.ins[0].sequence == 0xffff_ffff && |ptx.inputs| == 1
    && ptx.inputs[0].sigHashType == 0
    && ptx.inputs[0].utxo.Some? && ptx.inputs[0].utxo.value.pkScript == v.pkScript
    && 0 <= ptx.inputs[0].utxo.value.value <= 2_100_000_000_000_000
    && ptx.inputs[0].leaves == [Some(TapLeaf(v.routineScript, v.routineControl, 0xc0))]
  }

  /** A witness program: a version opcode and one push of 2 to 40 bytes. */
  predicate ProgramBytes(s: Bytes) {
    4 <= |s| <= 42 && (s[0] == 0 || 0x51 <= s[0] <= 0x60) && s[1] as int == |s| - 2
  }

  predicate RecipientFields(out: TxOut, v: Vault) {
    && ProgramBytes(out.pkScript) && out.pkScript != v.pkScript && out.pkScript != [0x51, 0x02, 0x4e, 0x73]
    && v.policy.dust <= out.value <= 2_100_000_000_000_000
  }

  predicate ChangeFields(out: TxOut, v: Vault) {
    && out.pkScript == v.pkScript && !IsExtension(out.pkScript)
    && v.policy.dust <= out.value <= 2_100_000_000_000_000
  }

  /** A worthless output that is the one encoding of a single packet with a single
      entry: input zero, the vault's authorization script, any stack. */
  ghost predicate PacketFields(out: TxOut, v: Vault, empty: Bytes) {
    && out.value == 0
    && exists data, stack ::
         && EncodeExtension([Packet(0x01, data)]) == Some(out.pkScript)
         && ReadContent(data) == Ok([Entry(0, v.authScript, stack)])
         && WriteContent([Entry(0, v.authScript, stack)], empty) == data
  }

  ghost predicate SpendFields(ptx: Psbt, v: Vault, empty: Bytes) {
    && InputFields(ptx, v) && |ptx.tx.outs| == 3
    && RecipientFields(ptx.tx.outs[0], v) && ChangeFields(ptx.tx.outs[1], v) && PacketFields(ptx.tx.outs[2], v, empty)
    && ptx.inputs[0].utxo.value.value >= ptx.tx.outs[0].value + ptx.tx.outs[1].value
  }

  // ---- the shape is those fields ----

  lemma InputIs(ptx: Psbt, v: Vault)
    ensures InputShape(ptx, v) <==> InputFields(ptx, v)
  {
    if |ptx.inputs| == 1 && |ptx.inputs[0].leaves| == 1 {
      var leaves := ptx.inputs[0].leaves;
      assert leaves == [leaves[0]];
    }
  }

  lemma RecipientIs(out: TxOut, v: Vault)
    ensures RecipientOutput(out, v) && MoneyRange(out.value) && v.policy.dust > 0 <==>
              RecipientFields(out, v) && v.policy.dust > 0
  {
    if IsWitnessProgram(out.pkScript) {
      NativeIsSpendable(out.pkScript);
      WitnessProgramIsNoExtension(out.pkScript);
    }
    hide IsUnspendable, IsExtension;
  }

  lemma PacketIs(out: TxOut, v: Vault, empty: Bytes)
    ensures PacketOutput(out, v, empty) <==> PacketFields(out, v, empty)
  {
    hide EncodeExtension, ParsePackets, PushedPayload, ReadContent, WriteContent;
    if PacketOutput(out, v, empty) {
      SoleIs(out.pkScript, v, empty);
    }
    if PacketFields(out, v, empty) {
      var data, stack :| EncodeExtension([Packet(0x01, data)]) == Some(out.pkScript)
                         && ReadContent(data) == Ok([Entry(0, v.authScript, stack)])
                         && WriteContent([Entry(0, v.authScript, stack)], empty) == data;
      ParseEncodedExtension([Packet(0x01, data)]);
    }
  }

  lemma SoleIs(script: Bytes, v: Vault, empty: Bytes)
    requires SoleEntry(script, empty).Some?
    requires SoleEntry(script, empty).value.vin == 0 && SoleEntry(script, empty).value.script == v.authScript
    ensures exists data, stack ::
              && EncodeExtension([Packet(0x01, data)]) == Some(script)
              && ReadContent(data) == Ok([Entry(0, v.authScript, stack)])
              && WriteContent([Entry(0, v.authScript, stack)], empty) == data
  {
    hide EncodeExtension, ParseExtension, ReadContent, WriteContent;
    var ps := ParseExtension(script).value;
    assert ps == [ps[0]] && ps[0] == Packet(ps[0].typ, ps[0].data);
    var es := ReadContent(ps[0].data).value;
    assert es == [es[0]] && es[0] == Entry(es[0].vin, es[0].script, es[0].stack);
  }

  /** The shape the classifier accepts is these fields, no more and no less. */
  lemma ShapeIsFields(ptx: Psbt, v: Vault, empty: Bytes)
    requires ValidPolicy(v.policy)
    ensures SpendShape(ptx, v, empty) <==> SpendFields(ptx, v, empty)
  {
    hide InputShape, InputFields, RecipientOutput, RecipientFields, PacketOutput, PacketFields, IsExtension;
    InputIs(ptx, v);
    InputHasOutput(ptx, v);
    if |ptx.tx.outs| == 3 {
      var outs := ptx.tx.outs;
      assert outs[0] in outs && outs[1] in outs && outs[2] in outs;
      RecipientIs(outs[0], v);
      PacketIs(outs[2], v, empty);
      PacketValue(outs[2], v, empty);
    }
  }

  lemma InputHasOutput(ptx: Psbt, v: Vault)
    ensures InputFields(ptx, v) ==> |ptx.inputs| == 1 && ptx.inputs[0].utxo.Some?
  {
  }

  lemma PacketValue(out: TxOut, v: Vault, empty: Bytes)
    ensures PacketFields(out, v, empty) ==> out.value == 0
  {
  }

  // ---- an accepted spend ----

  /** An accepted spend has all those fields; the caps hold; and the witness it was
      measured with is the one of its own leaf and control block. */
  lemma AcceptedFields(ptx: Psbt, v: Vault, empty: Bytes)
    requires ValidPolicy(v.policy) && Accepted(ptx, v, empty)
    ensures SpendFields(ptx, v, empty)
    ensures ptx.tx.outs[0].value <= v.policy.cap
    ensures var fee := ptx.inputs[0].utxo.value.value - ptx.tx.outs[0].value - ptx.tx.outs[1].value;
            && 0 <= fee <= v.policy.feeCeiling
            && fee <= v.policy.feerate * ((4 * StrippedSize(ptx.tx) + EstimatedWitnessBytes(v) + 3) / 4)
    ensures var leaf := ptx.inputs[0].leaves[0].value;
            EstimatedWitnessBytes(v) ==
            2 + 1 + 3 * (1 + 64)
            + VarIntSize(|leaf.script|) + |leaf.script| + VarIntSize(|leaf.control|) + |leaf.control|
  {
    hide SpendShape, SpendFields, StrippedSize, FeerateLimit;
    ShapeIsFields(ptx, v, empty);
    FeeIsBounded(ptx, v, empty);
    AcceptedParts(ptx, v, empty);
    WrappedLimit(v.policy, SpentFee(ptx), EstimatedVBytes(ptx.tx, v));
    LeafOfSpend(ptx, v, empty);
  }

  lemma LeafOfSpend(ptx: Psbt, v: Vault, empty: Bytes)
    requires SpendFields(ptx, v, empty)
    ensures |ptx.inputs| == 1 && |ptx.inputs[0].leaves| == 1 && ptx.inputs[0].utxo.Some? && |ptx.tx.outs| == 3
    ensures ptx.inputs[0].leaves[0] == Some(TapLeaf(v.routineScript, v.routineControl, 0xc0))
  {
    hide RecipientFields, ChangeFields, PacketFields;
  }

  // ---- refusals, one clause at a time ----

  lemma Refused(ptx: Psbt, v: Vault, empty: Bytes)
    requires ValidPolicy(v.policy) && !SpendFields(ptx, v, empty)
    ensures !Accepted(ptx, v, empty)
  {
    hide SpendShape, SpendFields, EstimatedVBytes;
    ShapeIsFields(ptx, v, empty);
  }

  /** Any leaf but the routine one, more than one, or none, is refused. */
  lemma OtherLeafRefused(ptx: Psbt, v: Vault, empty: Bytes)
    requires ValidPolicy(v.policy) && |ptx.inputs| == 1
    requires ptx.inputs[0].leaves != [Some(TapLeaf(v.routineScript, v.routineControl, 0xc0))]
    ensures !Accepted(ptx, v, empty)
  {
    hide PacketFields, Accepted;
    Refused(ptx, v, empty);
  }

  /** So is a version, lock time, sequence or hash type but the one expected. */
  lemma OtherInputRefused(ptx: Psbt, v: Vault, empty: Bytes)
    requires ValidPolicy(v.policy)
    requires ptx.tx.version != 2 || ptx.tx.lockTime != 0 || |ptx.tx.ins| != 1 || |ptx.inputs| != 1
             || ptx.tx.ins[0].sequence != 0xffff_ffff || ptx.inputs[0].sigHashType != 0
    ensures !Accepted(ptx, v, empty)
  {
    hide PacketFields, Accepted;
    Refused(ptx, v, empty);
  }

  /** So is an unknown spent output, one of another script, or one out of range. */
  lemma OtherVaultRefused(ptx: Psbt, v: Vault, empty: Bytes)
    requires ValidPolicy(v.policy) && |ptx.inputs| == 1
    requires var utxo := ptx.inputs[0].utxo;
             utxo.None? || utxo.value.pkScript != v.pkScript || !(0 <= utxo.value.value <= 2_100_000_000_000_000)
    ensures !Accepted(ptx, v, empty)
  {
    hide PacketFields, Accepted;
    Refused(ptx, v, empty);
  }

  /** So is a recipient that is no witness program, that is the vault or the anchor,
      or whose amount is dust, out of range or above the cap. */
  lemma OtherRecipientRefused(ptx: Psbt, v: Vault, empty: Bytes)
    requires ValidPolicy(v.policy) && |ptx.tx.outs| > 0
    requires var out := ptx.tx.outs[0];
             !ProgramBytes(out.pkScript) || out.pkScript == v.pkScript || out.pkScript == [0x51, 0x02, 0x4e, 0x73]
             || out.value < v.policy.dust || out.value > 2_100_000_000_000_000 || out.value > v.policy.cap
    ensures !Accepted(ptx, v, empty)
  {
    hide PacketFields;
    if ptx.tx.outs[0].value <= v.policy.cap {
      hide Accepted;
      Refused(ptx, v, empty);
    } else {
      hide SpendShape;
    }
  }

  /** So is change to another script or below dust, another number of outputs, a
      packet output with a value, and paying out more than was put in. */
  lemma OtherOutputsRefused(ptx: Psbt, v: Vault, empty: Bytes)
    requires ValidPolicy(v.policy)
    requires |ptx.tx.outs| != 3 || ptx.tx.outs[1].pkScript != v.pkScript || ptx.tx.outs[1].value < v.policy.dust
             || ptx.tx.outs[2].value != 0
             || (|ptx.inputs| == 1 && ptx.inputs[0].utxo.Some?
                 && ptx.inputs[0].utxo.value.value < ptx.tx.outs[0].value + ptx.tx.outs[1].value)
    ensures !Accepted(ptx, v, empty)
  {
    hide Accepted, EncodeExtension, ReadContent, WriteContent;
    Refused(ptx, v, empty);
  }

  /** So is a packet output that holds other packets, other entries, another script,
      or another writing of the right ones. */
  lemma OtherPacketRefused(ptx: Psbt, v: Vault, empty: Bytes)
    requires ValidPolicy(v.policy) && |ptx.tx.outs| == 3
    requires forall data, stack ::
               ReadContent(data) == Ok([Entry(0, v.authScript, stack)])
               && WriteContent([Entry(0, v.authScript, stack)], empty) == data ==>
                 EncodeExtension([Packet(0x01, data)]) != Some(ptx.tx.outs[2].pkScript)
    ensures !Accepted(ptx, v, empty)
  {
    hide Accepted, EncodeExtension, ReadContent, WriteContent, InputFields, RecipientFields, ChangeFields;
    Refused(ptx, v, empty);
  }

  /** And a fee above either ceiling. */
  lemma HighFeeRefused(ptx: Psbt, v: Vault, empty: Bytes)
    requires ValidPolicy(v.policy) && |ptx.inputs| == 1 && ptx.inputs[0].utxo.Some? && |ptx.tx.outs| == 3
    requires var fee := ptx.inputs[0].utxo.value.value - ptx.tx.outs[0].value - ptx.tx.outs[1].value;
             fee > v.policy.feeCeiling || fee > v.policy.feerate * EstimatedVBytes(ptx.tx, v)
    ensures !Accepted(ptx, v, empty)
  {
    hide SpendShape, EstimatedVBytes, FeerateLimit;
    if Accepted(ptx, v, empty) {
      FeeIsBounded(ptx, v, empty);
      AcceptedParts(ptx, v, empty);
      WrappedLimit(v.policy, SpentFee(ptx), EstimatedVBytes(ptx.tx, v));
    }
  }
}
