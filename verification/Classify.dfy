/** The structural check of one operational spend, which accepts only what the
    authorization script accepts. */
module Classify {
  import opened Common
  import opened Numbers
  import opened ScriptErrors
  import opened Tokenizers
  import opened Stacks
  import opened ExtensionFormat
  import opened EmulatorPackets
  import opened Transactions
  import opened Psbts
  import opened VaultScript
  import Int64

  /** An enrolled vault: its output script, routine leaf, authorization script and
      policy. */
  datatype Vault = Vault(
    pkScript: Bytes, routineScript: Bytes, routineControl: Bytes, authScript: Bytes, policy: Policy)

  datatype Classified = Classified(recipient: TxOut, fee: int, vbytes: int)

  datatype ClassifyError =
    | NotEnrolled | PrevoutUnverified | BadVersion | BadLockTime | NotOneInput | NotFinal | BadSighash
    | NoUtxo | NotVault | OutsideMoneyRange | BadLeaf
    | ManyExtensions | ExtensionValue | BadExtension | BadPacket | WrongEntry | PacketNotLast
    | ManyChanges | ChangeMisplaced | ChangeDust
    | ManyRecipients | NotNative | Unspendable | AnchorRecipient | RecipientMisplaced | RecipientDust
    | NoRecipient | NoPacket | NoChange | SumOverflow | NegativeFee | BadSize
    | RecipientCap | FeeCeiling | FeerateCeiling

  const ANCHOR_SCRIPT: Bytes := [0x51, 0x02, 0x4e, 0x73]

  // ---- sizes ----

  /** Marker and flag, five items: three signatures, the script, its control block. */
  function EstimatedWitnessBytes(v: Vault): nat {
    2 + VarIntSize(5) + 3 * (VarIntSize(64) + 64)
    + VarIntSize(|v.routineScript|) + |v.routineScript| + VarIntSize(|v.routineControl|) + |v.routineControl|
  }

  function EstimatedWeight(tx: Tx, v: Vault): nat {
    StrippedSize(tx) * 3 + (StrippedSize(tx) + EstimatedWitnessBytes(v))
  }

  function EstimatedVBytes(tx: Tx, v: Vault): nat {
    (EstimatedWeight(tx, v) + 3) / 4
  }

  /** Both feerate formulas count the same bytes once the routine witness has the
      size the script commits to. */
  lemma SizesCoincide(tx: Tx, v: Vault)
    ensures EstimatedWitnessBytes(v) == ROUTINE_WITNESS_BYTES ==> EstimatedVBytes(tx, v) == VBytes(tx)
    ensures |v.routineScript| == 102 && |v.routineControl| == 97 ==> EstimatedWitnessBytes(v) == ROUTINE_WITNESS_BYTES
  {
  }

  // ---- sums ----

  /** addSats on int64 operands. */
  function AddSats(a: int, b: int): Option<int> {
    if b > 0 && a > Int64.MAX - b then None
    else if b < 0 && a < Int64.MIN - b then None
    else Some(a + b)
  }

  /** The guards refuse exactly the sums that leave int64. */
  lemma AddSatsExact(a: Int64.int64, b: Int64.int64)
    ensures AddSats(a, b) == if Int64.MIN <= a + b <= Int64.MAX then Some(a + b) else None
  {
  }

  // ---- one output ----

  predicate IsUnspendable(script: Bytes) {
    (script != [] && script[0] == OP_RETURN) || |script| > 10_000 || Tokenize(script).Err?
  }

  lemma NativeIsSpendable(script: Bytes)
    requires IsWitnessProgram(script)
    ensures !IsUnspendable(script)
  {
    assert script[1..1] == [];
    assert FirstToken(script) == Ok((Token(script[0], []), 1));
    var rest := script[1..];
    assert OpLength(rest[0]) == |rest| && rest[1..|rest|] == rest[1..];
    assert FirstToken(rest) == Ok((Token(rest[0], rest[1..]), |rest|));
    assert rest[|rest|..] == [];
    assert Tokenize([]) == Ok([]);
    assert Tokenize(rest).Ok?;
    assert Tokenize(script).Ok?;
  }

  /** The one entry of a canonical one-packet extension. */
  function SoleEntry(script: Bytes, empty: Bytes): Option<Entry> {
    match ParseExtension(script)
    case None => None
    case Some(ps) =>
      if EncodeExtension(ps) != Some(script) || |ps| != 1 || ps[0].typ != PACKET_TYPE then None
      else
        match ReadContent(ps[0].data)
        case Err(_) => None
        case Ok(es) =>
          if |es| == 1 && WriteContent(es, empty) == ps[0].data then Some(es[0]) else None
  }

  predicate PacketOutput(out: TxOut, v: Vault, empty: Bytes) {
    && IsExtension(out.pkScript) && out.value == 0
    && var e := SoleEntry(out.pkScript, empty);
       e.Some? && e.value.vin == 0 && e.value.script == v.authScript
  }

  predicate ChangeOutput(out: TxOut, v: Vault) {
    !IsExtension(out.pkScript) && out.pkScript == v.pkScript && out.value >= v.policy.dust
  }

  predicate RecipientOutput(out: TxOut, v: Vault) {
    && !IsExtension(out.pkScript) && out.pkScript != v.pkScript
    && IsWitnessProgram(out.pkScript) && !IsUnspendable(out.pkScript) && out.pkScript != ANCHOR_SCRIPT
    && out.value >= v.policy.dust
  }

  // ---- the whole spend ----

  predicate InputShape(ptx: Psbt, v: Vault) {
    && ptx.tx.version == 2 && ptx.tx.lockTime == 0
    && |ptx.tx.ins| == 1 && |ptx.inputs| == 1 && ptx.tx.ins[0].sequence == MAX_SEQUENCE
    && var input := ptx.inputs[0];
       && input.sigHashType == SIGHASH_DEFAULT
       && input.utxo.Some? && input.utxo.value.pkScript == v.pkScript && MoneyRange(input.utxo.value.value)
       && |input.leaves| == 1
       && input.leaves[0] == Some(TapLeaf(v.routineScript, v.routineControl, BASE_LEAF_VERSION))
  }

  predicate OutputShape(ptx: Psbt, v: Vault, empty: Bytes) {
    var outs := ptx.tx.outs;
    && |outs| == 3
    && RecipientOutput(outs[0], v) && ChangeOutput(outs[1], v) && PacketOutput(outs[2], v, empty)
    && AllInRange(outs)
  }

  /** The shape classify accepts: recipient, change and packet in this order, and
      nothing paid out that was not put in. */
  predicate SpendShape(ptx: Psbt, v: Vault, empty: Bytes) {
    && InputShape(ptx, v) && OutputShape(ptx, v, empty)
    && var outs := ptx.tx.outs;
       ptx.inputs[0].utxo.value.value >= outs[0].value + outs[1].value
  }

  // ---- the packet of a transaction ----

  predicate VinsInRange(es: seq<Entry>, inputs: nat) {
    forall e :: e in es ==> e.vin < inputs
  }

  /** FindEmulatorPacket: no packet is an empty list. */
  function FoundEntries(tx: Tx): Result<seq<Entry>, ClassifyError> {
    var data := FindPacket(tx, PACKET_TYPE);
    if data.Err? then Err(BadExtension)
    else if data.value.None? then Ok([])
    else
      match ReadContent(data.value.value)
      case Err(_) => Err(BadPacket)
      case Ok(es) => if VinsInRange(es, |tx.ins|) then Ok(es) else Err(BadPacket)
  }

  lemma {:induction false} DataAt(ps: seq<Packet>, typ: byte, j: nat)
    requires j < |ps| && ps[j].typ == typ && forall i :: 0 <= i < j ==> ps[i].typ != typ
    ensures DataOfType(ps, typ) == Some(ps[j].data)
  {
    if j > 0 {
      DataAt(ps[1..], typ, j - 1);
    }
  }

  lemma {:induction false} NoData(ps: seq<Packet>, typ: byte)
    requires forall i :: 0 <= i < |ps| ==> ps[i].typ != typ
    ensures DataOfType(ps, typ) == None
  {
    if ps != [] {
      NoData(ps[1..], typ);
    }
  }

  method FindEmulatorPacket(tx: Tx) returns (r: Result<seq<Entry>, ClassifyError>)
    ensures r == FoundEntries(tx)
  {
    hide ParseExtension, IsExtension, ReadContent;
    var first := FirstExtension(tx.outs);
    if first.None? {
      return Ok([]);
    }
    FirstExtensionIndex(tx.outs);
    var ext := ParseExtension(tx.outs[first.value].pkScript);
    if ext.None? {
      return Err(BadExtension);
    }
    var ps := ext.value;
    for j := 0 to |ps|
      invariant forall i :: 0 <= i < j ==> ps[i].typ != PACKET_TYPE
    {
      if ps[j].typ == PACKET_TYPE {
        DataAt(ps, PACKET_TYPE, j);
        var packet := Deserialize(ps[j].data);
        if packet.Err? {
          return Err(BadPacket);
        }
        var es := packet.value;
        for i := 0 to |es|
          invariant forall k :: 0 <= k < i ==> es[k].vin < |tx.ins|
        {
          if es[i].vin >= |tx.ins| {
            assert es[i] in es;
            return Err(BadPacket);
          }
        }
        return Ok(es);
      }
    }
    NoData(ps, PACKET_TYPE);
    return Ok([]);
  }

  // ---- the source's loop ----

  /** The extension case of the loop. */
  method CheckPacketOutput(ptx: Psbt, v: Vault, empty: Bytes, index: nat) returns (r: Option<ClassifyError>)
    requires index < |ptx.tx.outs| && |ptx.tx.ins| == 1
    requires IsExtension(ptx.tx.outs[index].pkScript)
    requires forall i :: 0 <= i < index ==> !IsExtension(ptx.tx.outs[i].pkScript)
    ensures r.None? <==> PacketOutput(ptx.tx.outs[index], v, empty) && index == |ptx.tx.outs| - 1
  {
    hide IsExtension, ParseExtension, ReadContent, WriteContent, EncodeExtension;
    var out := ptx.tx.outs[index];
    if out.value != 0 {
      return Some(ExtensionValue);
    }
    var ext := ParseExtension(out.pkScript);
    if ext.None? || EncodeExtension(ext.value) != Some(out.pkScript) {
      return Some(BadExtension);
    }
    if |ext.value| != 1 || ext.value[0].typ != PACKET_TYPE {
      return Some(BadExtension);
    }
    FirstExtensionAt(ptx.tx.outs, index);
    var ps := ext.value;
    assert DataOfType(ps, PACKET_TYPE) == Some(ps[0].data);
    var found := FindEmulatorPacket(ptx.tx);
    if found.Err? || |found.value| != 1 {
      return Some(BadPacket);
    }
    var entry := found.value[0];
    assert found.value == [entry];
    ghost var blobs := AcceptedIsWritten(ps[0].data);
    FaultlessIsValid([entry]);
    var rebuilt := Validate([entry]);
    if rebuilt.Some? {
      return Some(BadPacket);
    }
    var canonical := Serialize([entry], empty);
    if canonical != ext.value[0].data {
      return Some(BadPacket);
    }
    if entry.vin != 0 || entry.script != v.authScript {
      return Some(WrongEntry);
    }
    if index != |ptx.tx.outs| - 1 {
      return Some(PacketNotLast);
    }
    return None;
  }

  /** requireMoneyRange. */
  method RequireMoneyRange(v: int) returns (ok: bool)
    ensures ok <==> MoneyRange(v)
  {
    return !(v < 0 || v > MAX_SATOSHI);
  }

  /** The input checks, in order. */
  method CheckInput(ptx: Psbt, v: Vault) returns (r: Option<ClassifyError>)
    ensures r.None? <==> InputShape(ptx, v)
  {
    if ptx.tx.version != 2 {
      return Some(BadVersion);
    }
    if ptx.tx.lockTime != 0 {
      return Some(BadLockTime);
    }
    if |ptx.tx.ins| != 1 || |ptx.inputs| != 1 {
      return Some(NotOneInput);
    }
    if ptx.tx.ins[0].sequence != MAX_SEQUENCE {
      return Some(NotFinal);
    }
    var input := ptx.inputs[0];
    if input.sigHashType != SIGHASH_DEFAULT {
      return Some(BadSighash);
    }
    if input.utxo.None? {
      return Some(NoUtxo);
    }
    if input.utxo.value.pkScript != v.pkScript {
      return Some(NotVault);
    }
    var inRange := RequireMoneyRange(input.utxo.value.value);
    if !inRange {
      return Some(OutsideMoneyRange);
    }
    if |input.leaves| != 1 || input.leaves[0].None? {
      return Some(BadLeaf);
    }
    var leaf := input.leaves[0].value;
    if leaf.script != v.routineScript || leaf.control != v.routineControl || leaf.version != BASE_LEAF_VERSION {
      return Some(BadLeaf);
    }
    return None;
  }

  /** What the loop has stored after some outputs. */
  ghost predicate Sorted(ptx: Psbt, v: Vault, empty: Bytes, done: nat,
                         recipient: Option<TxOut>, change: Option<TxOut>, packet: Option<TxOut>)
    requires done <= |ptx.tx.outs|
  {
    var outs := ptx.tx.outs;
    && (recipient.Some? ==> done > 0 && recipient == Some(outs[0]) && RecipientOutput(outs[0], v))
    && (change.Some? ==> done > 1 && |outs| == 3 && ChangeOutput(outs[1], v))
    && (packet.Some? ==> exists i :: 0 <= i < done && PacketOutput(outs[i], v, empty))
    && (packet.None? ==> forall i :: 0 <= i < done ==> !IsExtension(outs[i].pkScript))
    && (done > 0 && RecipientOutput(outs[0], v) ==> recipient.Some?)
    && (done > 1 && ChangeOutput(outs[1], v) ==> change.Some?)
  }

  /** The loop over the outputs: each falls into one of three cases. */
  method SortOutputs(ptx: Psbt, v: Vault, empty: Bytes) returns (r: Result<TxOut, ClassifyError>)
    requires |ptx.tx.ins| == 1
    ensures r.Ok? <==> |ptx.tx.outs| == 3 && RecipientOutput(ptx.tx.outs[0], v)
                       && ChangeOutput(ptx.tx.outs[1], v) && PacketOutput(ptx.tx.outs[2], v, empty)
    ensures r.Ok? ==> r.value == ptx.tx.outs[0]
  {
    hide IsExtension, SoleEntry, IsUnspendable, IsWitnessProgram;
    var outs := ptx.tx.outs;
    var recipient: Option<TxOut>, change: Option<TxOut>, packet: Option<TxOut> := None, None, None;
    for index := 0 to |outs|
      invariant Sorted(ptx, v, empty, index, recipient, change, packet)
    {
      var out := outs[index];
      if IsExtension(out.pkScript) {
        if packet.Some? {
          return Err(ManyExtensions);
        }
        var fault := CheckPacketOutput(ptx, v, empty, index);
        if fault.Some? {
          return Err(fault.value);
        }
        packet := Some(out);
      } else if out.pkScript == v.pkScript {
        if change.Some? {
          return Err(ManyChanges);
        }
        if index != 1 || |outs| != 3 {
          return Err(ChangeMisplaced);
        }
        if out.value < v.policy.dust {
          return Err(ChangeDust);
        }
        change := Some(out);
      } else {
        if recipient.Some? {
          return Err(ManyRecipients);
        }
        if !IsWitnessProgram(out.pkScript) {
          return Err(NotNative);
        }
        if IsUnspendable(out.pkScript) {
          return Err(Unspendable);
        }
        if out.pkScript == ANCHOR_SCRIPT {
          return Err(AnchorRecipient);
        }
        if index != 0 {
          return Err(RecipientMisplaced);
        }
        if out.value < v.policy.dust {
          return Err(RecipientDust);
        }
        recipient := Some(out);
      }
    }
    if recipient.None? {
      return Err(NoRecipient);
    }
    if packet.None? {
      return Err(NoPacket);
    }
    if change.None? {
      return Err(NoChange);
    }
    return Ok(recipient.value);
  }

  function OutSum(outs: seq<TxOut>): int {
    if outs == [] then 0 else OutSum(outs[..|outs| - 1]) + Last(outs).value
  }

  predicate AllInRange(outs: seq<TxOut>) {
    forall o :: o in outs ==> MoneyRange(o.value)
  }

  lemma {:induction false} SumGrows(outs: seq<TxOut>, k: nat)
    requires AllInRange(outs) && k <= |outs|
    ensures 0 <= OutSum(outs[..k]) <= OutSum(outs)
    decreases |outs|
  {
    if k == |outs| {
      assert outs[..k] == outs;
      if k > 0 {
        assert Last(outs) in outs;
        SumGrows(outs[..k - 1], k - 1);
        assert outs[..k - 1][..k - 1] == outs[..k - 1];
      }
    } else {
      assert Last(outs) in outs;
      SumGrows(outs[..|outs| - 1], k);
      assert outs[..|outs| - 1][..k] == outs[..k];
    }
  }

  /** Every output in range, and their sum within int64. */
  method SumOutputs(outs: seq<TxOut>) returns (r: Result<int, ClassifyError>)
    ensures r.Ok? <==> AllInRange(outs) && OutSum(outs) <= Int64.MAX
    ensures r.Ok? ==> r.value == OutSum(outs)
  {
    var sum := 0;
    for i := 0 to |outs|
      invariant sum == OutSum(outs[..i]) && 0 <= sum <= Int64.MAX
      invariant forall j :: 0 <= j < i ==> MoneyRange(outs[j].value)
    {
      var inRange := RequireMoneyRange(outs[i].value);
      if !inRange {
        assert outs[i] in outs;
        return Err(OutsideMoneyRange);
      }
      var next := AddSats(sum, outs[i].value);
      assert outs[..i + 1][..i] == outs[..i];
      if next.None? {
        if AllInRange(outs) {
          SumGrows(outs, i + 1);
        }
        return Err(SumOverflow);
      }
      sum := next.value;
    }
    assert outs[..|outs|] == outs;
    return Ok(sum);
  }

  /** classify, for a spend whose previous output was verified. */
  method ClassifyShape(ptx: Psbt, v: Vault, empty: Bytes, prevoutVerified: bool)
    returns (r: Result<Classified, ClassifyError>)
    ensures r.Ok? <==> prevoutVerified && SpendShape(ptx, v, empty)
    ensures r.Ok? ==>
              var outs := ptx.tx.outs;
              && r.value.recipient == outs[0]
              && r.value.fee == ptx.inputs[0].utxo.value.value - outs[0].value - outs[1].value
              && r.value.vbytes == EstimatedVBytes(ptx.tx, v)
  {
    hide RecipientOutput, ChangeOutput, PacketOutput, StrippedSize;
    if !prevoutVerified {
      return Err(PrevoutUnverified);
    }
    var fault := CheckInput(ptx, v);
    if fault.Some? {
      return Err(fault.value);
    }
    var recipient := SortOutputs(ptx, v, empty);
    if recipient.Err? {
      return Err(recipient.error);
    }
    var outs := ptx.tx.outs;
    ThreeOutputs(outs);
    PacketIsWorthless(outs[2], v, empty);
    var sum := SumOutputs(outs);
    if sum.Err? {
      return Err(sum.error);
    }
    var fee := ptx.inputs[0].utxo.value.value - sum.value;
    if fee < 0 {
      return Err(NegativeFee);
    }
    var vbytes := EstimatedVBytes(ptx.tx, v);
    assert vbytes > 0;
    return Ok(Classified(recipient.value, fee, vbytes));
  }

  lemma ThreeOutputs(outs: seq<TxOut>)
    requires |outs| == 3
    ensures OutSum(outs) == outs[0].value + outs[1].value + outs[2].value
    ensures AllInRange(outs) ==> OutSum(outs) <= Int64.MAX
  {
    assert outs[..2][..1] == outs[..1] && outs[..1][..0] == [];
    assert OutSum(outs[..1]) == outs[0].value;
    assert OutSum(outs[..2]) == outs[0].value + outs[1].value;
    assert outs[0] in outs && outs[1] in outs && outs[2] in outs;
  }

  lemma PacketIsWorthless(out: TxOut, v: Vault, empty: Bytes)
    requires PacketOutput(out, v, empty)
    ensures out.value == 0
  {
  }

  // ---- the static policy ----

  /** The product is an int64: it may wrap. */
  function FeerateLimit(p: Policy, vbytes: int): int {
    Int64.Wrap(p.feerate * vbytes)
  }

  predicate StaticPolicy(c: Classified, p: Policy) {
    && c.recipient.value <= p.cap && c.fee <= p.feeCeiling && c.vbytes > 0
    && c.fee <= FeerateLimit(p, c.vbytes)
  }

  method EnforceStaticPolicy(c: Classified, p: Policy) returns (r: Option<ClassifyError>)
    ensures r.None? <==> StaticPolicy(c, p)
  {
    if c.recipient.value > p.cap {
      return Some(RecipientCap);
    }
    if c.fee > p.feeCeiling {
      return Some(FeeCeiling);
    }
    if c.vbytes <= 0 {
      return Some(BadSize);
    }
    if c.fee > FeerateLimit(p, c.vbytes) {
      return Some(FeerateCeiling);
    }
    return None;
  }

  /** The two feerate checks give one fee the same answer. */
  predicate SameAnswer(p: Policy, vbytes: int, fee: int) {
    fee <= FeerateLimit(p, vbytes) <==> fee <= p.feerate * vbytes
  }

  /** A wrapped product only ever lowers the limit: it can refuse a fee the real
      product allows, never allow one it refuses. */
  lemma WrappedLimit(p: Policy, fee: int, vbytes: int)
    requires ValidPolicy(p) && vbytes > 0 && 0 <= fee <= Int64.MAX
    ensures fee <= FeerateLimit(p, vbytes) ==> fee <= p.feerate * vbytes
    ensures FeerateLimit(p, vbytes) <= p.feerate * vbytes
    ensures p.feerate * vbytes <= Int64.MAX ==> FeerateLimit(p, vbytes) == p.feerate * vbytes
  {
    assert p.feerate * vbytes >= 0;
  }

  /** Up to a highest fee the two checks agree exactly when the product is an int64
      or wraps to a limit that is no lower than that fee. */
  lemma FeerateChecksAgree(p: Policy, vbytes: int, top: int)
    requires ValidPolicy(p) && vbytes > 0 && 0 <= top <= Int64.MAX
    ensures (forall fee :: 0 <= fee <= top ==> SameAnswer(p, vbytes, fee))
            <==> (p.feerate * vbytes <= Int64.MAX || FeerateLimit(p, vbytes) >= top)
  {
    WrappedLimit(p, top, vbytes);
    var product, limit := p.feerate * vbytes, FeerateLimit(p, vbytes);
    if product > Int64.MAX && limit < top {
      assert !SameAnswer(p, vbytes, top);
    }
  }

  predicate Accepted(ptx: Psbt, v: Vault, empty: Bytes) {
    && SpendShape(ptx, v, empty)
    && ptx.tx.outs[0].value <= v.policy.cap
    && SpentFee(ptx) <= v.policy.feeCeiling
    && SpentFee(ptx) <= FeerateLimit(v.policy, EstimatedVBytes(ptx.tx, v))
  }

  function SpentFee(ptx: Psbt): int
    requires |ptx.inputs| == 1 && ptx.inputs[0].utxo.Some? && |ptx.tx.outs| == 3
  {
    ptx.inputs[0].utxo.value.value - ptx.tx.outs[0].value - ptx.tx.outs[1].value
  }

  /** The shape under the caps themselves, with no width on the product. */
  predicate WithinCaps(ptx: Psbt, v: Vault, empty: Bytes) {
    && SpendShape(ptx, v, empty)
    && ptx.tx.outs[0].value <= v.policy.cap
    && SpentFee(ptx) <= v.policy.feeCeiling
    && SpentFee(ptx) <= v.policy.feerate * EstimatedVBytes(ptx.tx, v)
  }

  // ---- when the classifier's feerate check is the real one ----

  /** The highest fee a spend can pay under the other caps: two outputs of at least
      dust take the rest of the money there is. */
  function HighestFee(p: Policy): int {
    if p.feeCeiling <= MAX_SATOSHI - 2 * p.dust then p.feeCeiling else MAX_SATOSHI - 2 * p.dust
  }

  /** What to check of a policy and a size: the product is an int64, or wraps to a
      limit no fee can pass. */
  predicate ExactFeerate(p: Policy, vbytes: int) {
    p.feerate * vbytes <= Int64.MAX || FeerateLimit(p, vbytes) >= HighestFee(p)
  }

  /** A spend of this size is accepted exactly when it is within the caps. */
  predicate JudgedExactly(v: Vault, empty: Bytes, vbytes: int, ptx: Psbt) {
    EstimatedVBytes(ptx.tx, v) == vbytes ==> (Accepted(ptx, v, empty) <==> WithinCaps(ptx, v, empty))
  }

  /** The same spend with other amounts: dust to recipient and change, and a fee. */
  function Repriced(ptx: Psbt, v: Vault, fee: int): Psbt
    requires |ptx.tx.outs| == 3 && |ptx.inputs| == 1 && ptx.inputs[0].utxo.Some?
  {
    var outs, input, dust := ptx.tx.outs, ptx.inputs[0], v.policy.dust;
    ptx.(tx := ptx.tx.(outs := [outs[0].(value := dust), outs[1].(value := dust), outs[2]]),
         inputs := [input.(utxo := Some(input.utxo.value.(value := 2 * dust + fee)))])
  }

  lemma RepricedShape(ptx: Psbt, v: Vault, empty: Bytes, fee: int)
    requires ValidPolicy(v.policy) && SpendShape(ptx, v, empty)
    requires 0 <= fee <= HighestFee(v.policy)
    ensures var other := Repriced(ptx, v, fee);
            && SpendShape(other, v, empty) && SpentFee(other) == fee
            && EstimatedVBytes(other.tx, v) == EstimatedVBytes(ptx.tx, v)
  {
    hide IsExtension, SoleEntry, IsWitnessProgram, IsUnspendable, EstimatedWitnessBytes;
    var outs, outs' := ptx.tx.outs, Repriced(ptx, v, fee).tx.outs;
    SizeOfThree(outs);
    SizeOfThree(outs');
  }

  lemma SizeOfThree(outs: seq<TxOut>)
    requires |outs| == 3
    ensures OutputsSize(outs) ==
            24 + VarIntSize(|outs[0].pkScript|) + |outs[0].pkScript|
            + VarIntSize(|outs[1].pkScript|) + |outs[1].pkScript|
            + VarIntSize(|outs[2].pkScript|) + |outs[2].pkScript|
  {
    hide VarIntSize;
    assert outs[1..][1..] == [outs[2]] && outs[1..][0] == outs[1] && [outs[2]][1..] == [];
    assert OutputsSize([outs[2]]) == 8 + VarIntSize(|outs[2].pkScript|) + |outs[2].pkScript| + OutputsSize([]);
    assert OutputsSize(outs[1..]) ==
           8 + VarIntSize(|outs[1].pkScript|) + |outs[1].pkScript| + OutputsSize([outs[2]]);
  }

  /** The fee of a spend is no higher than the highest. */
  lemma FeeIsBounded(ptx: Psbt, v: Vault, empty: Bytes)
    requires SpendShape(ptx, v, empty)
    ensures 0 <= SpentFee(ptx) <= MAX_SATOSHI - 2 * v.policy.dust
  {
    hide IsExtension, SoleEntry, IsWitnessProgram, IsUnspendable;
  }

  lemma ExactOnOne(ptx: Psbt, v: Vault, empty: Bytes)
    requires ValidPolicy(v.policy) && SpendShape(ptx, v, empty)
    requires ExactFeerate(v.policy, EstimatedVBytes(ptx.tx, v))
    ensures Accepted(ptx, v, empty) <==> WithinCaps(ptx, v, empty)
  {
    hide SpendShape, EstimatedVBytes, FeerateLimit;
    AcceptedParts(ptx, v, empty);
    FeeIsBounded(ptx, v, empty);
    var vbytes, fee := EstimatedVBytes(ptx.tx, v), SpentFee(ptx);
    if fee <= HighestFee(v.policy) {
      FeerateChecksAgree(v.policy, vbytes, HighestFee(v.policy));
      assert SameAnswer(v.policy, vbytes, fee);
    }
  }

  /** The classifier accepts exactly the spends within the caps, among those of one
      size, if and only if the product of feerate and size is exact. */
  lemma ClassifierIsExact(ptx: Psbt, v: Vault, empty: Bytes)
    requires ValidPolicy(v.policy) && SpendShape(ptx, v, empty)
    ensures var vbytes := EstimatedVBytes(ptx.tx, v);
            (forall other: Psbt :: JudgedExactly(v, empty, vbytes, other)) <==> ExactFeerate(v.policy, vbytes)
  {
    hide SpendShape, EstimatedVBytes, FeerateLimit;
    var vbytes, top := EstimatedVBytes(ptx.tx, v), HighestFee(v.policy);
    AcceptedParts(ptx, v, empty);
    FeeIsBounded(ptx, v, empty);
    if ExactFeerate(v.policy, vbytes) {
      forall other: Psbt
        ensures JudgedExactly(v, empty, vbytes, other)
      {
        if SpendShape(other, v, empty) && EstimatedVBytes(other.tx, v) == vbytes {
          ExactOnOne(other, v, empty);
        }
      }
    } else {
      FeerateChecksAgree(v.policy, vbytes, top);
      var fee :| 0 <= fee <= top && !SameAnswer(v.policy, vbytes, fee);
      RepricedShape(ptx, v, empty, fee);
      assert !JudgedExactly(v, empty, vbytes, Repriced(ptx, v, fee));
    }
  }

  /** classifySpend: shape first, then the static caps. */
  method ClassifySpend(ptx: Psbt, v: Option<Vault>, empty: Bytes, prevoutVerified: bool)
    returns (r: Result<Classified, ClassifyError>)
    ensures r.Ok? <==> v.Some? && prevoutVerified && Accepted(ptx, v.value, empty)
    ensures r.Ok? ==> r.value.recipient == ptx.tx.outs[0] && r.value.fee == SpentFee(ptx)
  {
    hide SpendShape, EstimatedVBytes, FeerateLimit;
    if v.None? {
      return Err(NotEnrolled);
    }
    var shape := ClassifyShape(ptx, v.value, empty, prevoutVerified);
    if shape.Err? {
      return Err(shape.error);
    }
    AcceptedParts(ptx, v.value, empty);
    var fault := EnforceStaticPolicy(shape.value, v.value.policy);
    if fault.Some? {
      return Err(fault.value);
    }
    return Ok(shape.value);
  }

  lemma AcceptedParts(ptx: Psbt, v: Vault, empty: Bytes)
    requires SpendShape(ptx, v, empty)
    ensures |ptx.inputs| == 1 && ptx.inputs[0].utxo.Some? && |ptx.tx.outs| == 3
    ensures EstimatedVBytes(ptx.tx, v) > 0
  {
    hide RecipientOutput, ChangeOutput, PacketOutput, StrippedSize;
  }

  /** An accepted spend pays recipient, change and packet, in this order, and the
      input is what they and the fee add up to. */
  lemma AcceptedConserves(ptx: Psbt, v: Vault, empty: Bytes)
    requires Accepted(ptx, v, empty)
    ensures var outs, input := ptx.tx.outs, ptx.inputs[0].utxo.value;
            && |outs| == 3 && outs[1].pkScript == input.pkScript == v.pkScript
            && IsExtension(outs[2].pkScript) && outs[2].value == 0
            && SpentFee(ptx) >= 0
            && input.value == outs[0].value + outs[1].value + outs[2].value + SpentFee(ptx)
  {
    hide IsExtension, SoleEntry, IsWitnessProgram, IsUnspendable, StrippedSize;
  }
}
