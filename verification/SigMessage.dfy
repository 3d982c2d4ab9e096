/** The message an arkade signature covers: the tapscript message of BIP 342 with
    the stacks of the emulator packet masked out of the outputs. */
module SigMessages {
  import opened Common
  import opened ExtensionFormat
  import opened Transactions
  import opened EmulatorPackets
  import Int64

  const PACKET_TYPE: byte := 0x01

  datatype SigError =
    | NotTapscript | InvalidHashType | InputOutOfRange | NoPrevOut | NoOutputAtIndex
    | ExtensionUnreadable | PacketUnreadable(error: PacketError) | ExtensionTooLong

  /** What the message is built from. The four midstates cover the inputs and the
      outputs they spend, never the outputs of the transaction. */
  datatype SigContext = SigContext(
    tx: Tx,
    txIdx: nat,
    midstates: seq<TxIn> -> Bytes,
    fetchPrevOut: OutPoint -> Option<TxOut>,
    tapscript: bool,
    annex: Bytes,
    leafHash: Bytes,
    codeSepPos: nat,
    sha256: Bytes -> Bytes)

  // ---- masking the packet ----

  function FirstOfType(ps: seq<Packet>, typ: byte): Option<nat> {
    if ps == [] then None
    else if ps[0].typ == typ then Some(0)
    else
      match FirstOfType(ps[1..], typ)
      case None => None
      case Some(j) => Some(j + 1)
  }

  lemma {:induction false} FirstOfTypeIndex(ps: seq<Packet>, typ: byte)
    ensures match FirstOfType(ps, typ)
            case None => forall i :: 0 <= i < |ps| ==> ps[i].typ != typ
            case Some(j) => j < |ps| && ps[j].typ == typ && forall i :: 0 <= i < j ==> ps[i].typ != typ
  {
    if ps != [] {
      FirstOfTypeIndex(ps[1..], typ);
    }
  }

  /** An extension with the stacks of its emulator packet left out; nothing when
      it holds no such packet. */
  function MaskedScript(script: Bytes): Result<Option<Bytes>, SigError> {
    match ParseExtension(script)
    case None => Err(ExtensionUnreadable)
    case Some(ps) =>
      (FirstOfTypeIndex(ps, PACKET_TYPE);
       match FirstOfType(ps, PACKET_TYPE)
       case None => Ok(None)
       case Some(j) =>
         match ReadContent(ps[j].data)
         case Err(e) => Err(PacketUnreadable(e))
         case Ok(es) =>
           match EncodeExtension(ps[j := Packet(PACKET_TYPE, WriteContent(MaskAll(es), []))])
           case None => Err(ExtensionTooLong)
           case Some(masked) => Ok(Some(masked)))
  }

  /** The outputs as the message commits to them. */
  function MaskedOuts(outs: seq<TxOut>): Result<seq<TxOut>, SigError> {
    match FirstExtension(outs)
    case None => Ok(outs)
    case Some(k) =>
      (FirstExtensionIndex(outs);
       var masked :- MaskedScript(outs[k].pkScript);
       match masked
       case None => Ok(outs)
       case Some(script) => Ok(outs[k := TxOut(outs[k].value, script)]))
  }

  lemma {:induction false} FirstOfTypeAt(ps: seq<Packet>, typ: byte, j: nat)
    requires j < |ps| && ps[j].typ == typ && forall i :: 0 <= i < j ==> ps[i].typ != typ
    ensures FirstOfType(ps, typ) == Some(j)
  {
    if j > 0 {
      FirstOfTypeAt(ps[1..], typ, j - 1);
    }
  }

  /** maskExtensionOutput: the masked output and its place, if there is one. */
  method MaskExtensionOutput(outs: seq<TxOut>) returns (r: Result<Option<(TxOut, nat)>, SigError>)
    ensures match r
            case Err(e) => MaskedOuts(outs) == Err(e)
            case Ok(None) => MaskedOuts(outs) == Ok(outs)
            case Ok(Some((out, k))) => k < |outs| && MaskedOuts(outs) == Ok(outs[k := out])
  {
    hide IsExtension, ParseExtension, ReadContent, EncodeExtension, WriteContent;
    for i := 0 to |outs|
      invariant forall k :: 0 <= k < i ==> !IsExtension(outs[k].pkScript)
    {
      if IsExtension(outs[i].pkScript) {
        FirstExtensionAt(outs, i);
        var ext := ParseExtension(outs[i].pkScript);
        if ext.None? {
          return Err(ExtensionUnreadable);
        }
        var ps := ext.value;
        FirstOfTypeIndex(ps, PACKET_TYPE);
        for j := 0 to |ps|
          invariant forall k :: 0 <= k < j ==> ps[k].typ != PACKET_TYPE
        {
          if ps[j].typ == PACKET_TYPE {
            FirstOfTypeAt(ps, PACKET_TYPE, j);
            var es := Deserialize(ps[j].data);
            if es.Err? {
              return Err(PacketUnreadable(es.error));
            }
            var masked := SerializeMasked(es.value);
            var script := EncodeExtension(ps[j := Packet(PACKET_TYPE, masked)]);
            if script.None? {
              return Err(ExtensionTooLong);
            }
            return Ok(Some((TxOut(outs[i].value, script.value), i)));
          }
        }
        return Ok(None);
      }
    }
    NoExtension(outs);
    return Ok(None);
  }

  // ---- outputs in the message ----

  function Word64(v: int): nat {
    v % Int64.TWO64
  }

  function WriteTxOut(out: TxOut): Bytes {
    LeBytes(Word64(out.value), 8) + WriteVarBytes(out.pkScript)
  }

  function WriteOuts(outs: seq<TxOut>): Bytes {
    if outs == [] then [] else WriteOuts(outs[..|outs| - 1]) + WriteTxOut(Last(outs))
  }

  function OutputsHash(outs: seq<TxOut>, sha256: Bytes -> Bytes): Result<Bytes, SigError> {
    var masked :- MaskedOuts(outs);
    Ok(sha256(WriteOuts(masked)))
  }

  method ArkadeOutputsHash(outs: seq<TxOut>, sha256: Bytes -> Bytes) returns (r: Result<Bytes, SigError>)
    ensures r == OutputsHash(outs, sha256)
  {
    hide WriteTxOut, MaskedOuts;
    var masked := MaskExtensionOutput(outs);
    if masked.Err? {
      return Err(masked.error);
    }
    ghost var all := MaskedOuts(outs).value;
    var h: Bytes := [];
    for i := 0 to |outs|
      invariant h == WriteOuts(all[..i])
    {
      var out := outs[i];
      if masked.value.Some? && masked.value.value.1 == i {
        out := masked.value.value.0;
      }
      h := h + WriteTxOut(out);
      assert all[..i + 1][..i] == all[..i];
    }
    assert all[..|all|] == all;
    return Ok(sha256(h));
  }

  // ---- the message ----

  function Mode(hashType: nat): nat {
    hashType % 0x20
  }

  predicate AnyoneCanPay(hashType: nat) {
    hashType / 0x80 % 2 == 1
  }

  predicate ValidHashType(hashType: nat) {
    hashType in {0, 1, 2, 3, 0x81, 0x82, 0x83}
  }

  const SIGHASH_NONE: nat := 2
  const SIGHASH_SINGLE: nat := 3

  /** Version, lock time, inputs: everything before the outputs. */
  function Preamble(c: SigContext, hashType: nat): Bytes {
    [0, (hashType % 256) as byte] + LeBytes(c.tx.version % 0x1_0000_0000, 4) + LeBytes(c.tx.lockTime, 4)
    + if AnyoneCanPay(hashType) then [] else c.midstates(c.tx.ins)
  }

  function OutputsPart(c: SigContext, hashType: nat): Result<Bytes, SigError> {
    if Mode(hashType) == SIGHASH_SINGLE || Mode(hashType) == SIGHASH_NONE then Ok([])
    else OutputsHash(c.tx.outs, c.sha256)
  }

  function InputPart(c: SigContext, hashType: nat): Result<Bytes, SigError>
    requires c.txIdx < |c.tx.ins|
  {
    if !AnyoneCanPay(hashType) then Ok(LeBytes(c.txIdx, 4))
    else
      var input := c.tx.ins[c.txIdx];
      match c.fetchPrevOut(input.prevOut)
      case None => Err(NoPrevOut)
      case Some(prev) =>
        Ok(input.prevOut.hash + LeBytes(input.prevOut.index, 4) + WriteTxOut(prev) + LeBytes(input.sequence, 4))
  }

  function AnnexPart(c: SigContext): Bytes {
    if c.annex == [] then [] else c.sha256(WriteVarBytes(c.annex))
  }

  function SinglePart(c: SigContext, hashType: nat): Result<Bytes, SigError> {
    if Mode(hashType) != SIGHASH_SINGLE then Ok([])
    else if c.txIdx >= |c.tx.outs| then Err(NoOutputAtIndex)
    else
      (MaskedLength(c.tx.outs);
       var masked :- MaskedOuts(c.tx.outs);
       Ok(c.sha256(WriteTxOut(masked[c.txIdx]))))
  }

  lemma MaskedLength(outs: seq<TxOut>)
    ensures MaskedOuts(outs).Ok? ==> |MaskedOuts(outs).value| == |outs|
  {
    FirstExtensionIndex(outs);
    hide MaskedScript;
  }

  function SpendType(c: SigContext): byte {
    if c.annex == [] then 2 else 3
  }

  function LeafPart(c: SigContext): Bytes {
    c.leafHash + [0] + LeBytes(c.codeSepPos, 4)
  }

  function SigMessage(c: SigContext, hashType: nat): Result<Bytes, SigError> {
    if !c.tapscript then Err(NotTapscript)
    else if !ValidHashType(hashType) then Err(InvalidHashType)
    else if c.txIdx >= |c.tx.ins| then Err(InputOutOfRange)
    else
      var outputs :- OutputsPart(c, hashType);
      var input :- InputPart(c, hashType);
      var single :- SinglePart(c, hashType);
      Ok(Preamble(c, hashType) + outputs + [SpendType(c)] + input + AnnexPart(c) + single + LeafPart(c))
  }

  /** buildArkadeSigMsg. */
  method BuildArkadeSigMsg(c: SigContext, hashType: nat) returns (r: Result<Bytes, SigError>)
    ensures r == SigMessage(c, hashType)
  {
    hide WriteTxOut, WriteVarBytes, MaskedScript, MaskedOuts, LeBytes;
    if !c.tapscript {
      return Err(NotTapscript);
    }
    if !ValidHashType(hashType) {
      return Err(InvalidHashType);
    }
    if c.txIdx >= |c.tx.ins| {
      return Err(InputOutOfRange);
    }
    var msg: Bytes := [0];
    msg := msg + [hashType as byte];
    msg := msg + LeBytes(c.tx.version % 0x1_0000_0000, 4);
    msg := msg + LeBytes(c.tx.lockTime, 4);
    var anyoneCanPay := AnyoneCanPay(hashType);
    if !anyoneCanPay {
      msg := msg + c.midstates(c.tx.ins);
    }
    assert msg == Preamble(c, hashType);
    var mode := Mode(hashType);
    if mode != SIGHASH_SINGLE && mode != SIGHASH_NONE {
      var outputsHash := ArkadeOutputsHash(c.tx.outs, c.sha256);
      if outputsHash.Err? {
        return Err(outputsHash.error);
      }
      msg := msg + outputsHash.value;
    }
    msg := msg + [SpendType(c)];
    assert OutputsPart(c, hashType).Ok?
      && msg == Preamble(c, hashType) + OutputsPart(c, hashType).value + [SpendType(c)];
    ghost var m1 := msg;
    if anyoneCanPay {
      var input := c.tx.ins[c.txIdx];
      var prev := c.fetchPrevOut(input.prevOut);
      if prev.None? {
        return Err(NoPrevOut);
      }
      msg := msg + (input.prevOut.hash + LeBytes(input.prevOut.index, 4));
      msg := msg + WriteTxOut(prev.value);
      msg := msg + LeBytes(input.sequence, 4);
    } else {
      msg := msg + LeBytes(c.txIdx, 4);
    }
    assert InputPart(c, hashType).Ok? && msg == m1 + InputPart(c, hashType).value;
    ghost var m2 := msg;
    if c.annex != [] {
      msg := msg + c.sha256(WriteVarBytes(c.annex));
    }
    assert msg == m2 + AnnexPart(c);
    ghost var m3 := msg;
    if mode == SIGHASH_SINGLE {
      if c.txIdx >= |c.tx.outs| {
        return Err(NoOutputAtIndex);
      }
      var out := c.tx.outs[c.txIdx];
      var masked := MaskExtensionOutput(c.tx.outs);
      if masked.Err? {
        return Err(masked.error);
      }
      if masked.value.Some? && masked.value.value.1 == c.txIdx {
        out := masked.value.value.0;
      }
      MaskedLength(c.tx.outs);
      msg := msg + c.sha256(WriteTxOut(out));
    }
    assert SinglePart(c, hashType).Ok? && msg == m3 + SinglePart(c, hashType).value;
    ghost var m4 := msg;
    msg := msg + c.leafHash;
    msg := msg + [0];
    msg := msg + LeBytes(c.codeSepPos, 4);
    assert msg == m4 + LeafPart(c);
    return Ok(msg);
  }

  // ---- what the message does not depend on ----

  /** Two packet lists that differ only in the stacks of the emulator packet, at j. */
  predicate PacketsVariant(ext: Option<seq<Packet>>, ext': Option<seq<Packet>>, j: nat) {
    && ext.Some? && ext'.Some? && |ext.value| == |ext'.value| && j < |ext.value|
    && (forall i :: 0 <= i < |ext.value| && i != j ==> ext.value[i] == ext'.value[i])
    && ext.value[j].typ == ext'.value[j].typ == PACKET_TYPE
    && var es, es' := ReadContent(ext.value[j].data), ReadContent(ext'.value[j].data);
       es.Ok? && es'.Ok? && SameButStacks(es.value, es'.value)
  }

  /** Two lists of outputs that differ only there, in the extension at k. */
  predicate StackVariant(outs: seq<TxOut>, outs': seq<TxOut>, k: nat, j: nat) {
    && |outs| == |outs'| && k < |outs| && outs[k].value == outs'[k].value
    && (forall i :: 0 <= i < |outs| && i != k ==> outs[i] == outs'[i])
    && FirstExtension(outs) == Some(k)
    && PacketsVariant(ParseExtension(outs[k].pkScript), ParseExtension(outs'[k].pkScript), j)
  }

  predicate SameButStacks(es: seq<Entry>, es': seq<Entry>) {
    |es| == |es'| && forall i :: 0 <= i < |es| ==> es[i].vin == es'[i].vin && es[i].script == es'[i].script
  }

  lemma DistinctIsFirst(ps: seq<Packet>, j: nat)
    requires DistinctTypes(ps) && j < |ps|
    ensures FirstOfType(ps, ps[j].typ) == Some(j)
  {
    FirstOfTypeAt(ps, ps[j].typ, j);
  }

  lemma VariantMasks(outs: seq<TxOut>, outs': seq<TxOut>, k: nat, j: nat)
    requires StackVariant(outs, outs', k, j)
    ensures MaskedScript(outs[k].pkScript) == MaskedScript(outs'[k].pkScript)
  {
    var ps, ps' := ParseExtension(outs[k].pkScript).value, ParseExtension(outs'[k].pkScript).value;
    DistinctIsFirst(ps, j);
    DistinctIsFirst(ps', j);
    hide ParsePackets, ReadContent, EncodeExtension, WriteContent, PushedPayload;
    var es, es' := ReadContent(ps[j].data).value, ReadContent(ps'[j].data).value;
    MaskedEqual(es, es');
    var masked := Packet(PACKET_TYPE, WriteContent(MaskAll(es), []));
    assert ps[j := masked] == ps'[j := masked];
  }

  /** Only the stacks changed, so the committed outputs did not. */
  lemma VariantOuts(outs: seq<TxOut>, outs': seq<TxOut>, k: nat, j: nat)
    requires StackVariant(outs, outs', k, j)
    ensures MaskedOuts(outs) == MaskedOuts(outs')
  {
    hide MaskedScript, ReadContent, IsExtension, ParseExtension;
    FirstExtensionIndex(outs);
    VariantMasks(outs, outs', k, j);
    VariantExtension(outs, outs', k, j);
    var masked := MaskedScript(outs[k].pkScript);
    if masked.Ok? {
      assert masked.value.Some? by {
        VariantFound(outs, outs', k, j);
      }
      var out := TxOut(outs[k].value, masked.value.value);
      assert outs[k := out] == outs'[k := out];
    }
  }

  lemma VariantExtension(outs: seq<TxOut>, outs': seq<TxOut>, k: nat, j: nat)
    requires StackVariant(outs, outs', k, j)
    ensures FirstExtension(outs') == Some(k)
  {
    FirstExtensionIndex(outs);
    hide PushedPayload, ParsePackets;
    FirstExtensionAt(outs', k);
  }

  lemma VariantFound(outs: seq<TxOut>, outs': seq<TxOut>, k: nat, j: nat)
    requires StackVariant(outs, outs', k, j) && MaskedScript(outs[k].pkScript).Ok?
    ensures MaskedScript(outs[k].pkScript).value.Some?
  {
    hide ParsePackets, ReadContent, EncodeExtension, WriteContent, PushedPayload;
    DistinctIsFirst(ParseExtension(outs[k].pkScript).value, j);
  }

  /** For every hash type the signature message is the same for two transactions
      that differ only in the stacks of their emulator packet. */
  lemma MessageIgnoresStacks(c: SigContext, c': SigContext, k: nat, j: nat, hashType: nat)
    requires c' == c.(tx := c.tx.(outs := c'.tx.outs)) && StackVariant(c.tx.outs, c'.tx.outs, k, j)
    ensures SigMessage(c, hashType) == SigMessage(c', hashType)
  {
    VariantOuts(c.tx.outs, c'.tx.outs, k, j);
    SameOutputs(c, c', hashType);
  }

  lemma SameOutputs(c: SigContext, c': SigContext, hashType: nat)
    requires c' == c.(tx := c.tx.(outs := c'.tx.outs)) && |c.tx.outs| == |c'.tx.outs|
    requires MaskedOuts(c.tx.outs) == MaskedOuts(c'.tx.outs)
    ensures SigMessage(c, hashType) == SigMessage(c', hashType)
  {
    hide MaskedOuts, WriteTxOut, WriteVarBytes, LeBytes;
    assert OutputsPart(c, hashType) == OutputsPart(c', hashType);
    assert SinglePart(c, hashType) == SinglePart(c', hashType);
    hide OutputsPart, SinglePart;
    assert c.txIdx < |c.tx.ins| ==> InputPart(c, hashType) == InputPart(c', hashType);
    assert Preamble(c, hashType) == Preamble(c', hashType);
  }

  // ---- what the message does depend on ----

  predicate Int64Values(outs: seq<TxOut>) {
    forall o :: o in outs ==> Int64.MIN <= o.value <= Int64.MAX && |o.pkScript| < 0x1_0000_0000_0000_0000
  }

  lemma TxOutRead(out: TxOut, tail: Bytes)
    requires Int64Values([out])
    ensures var s := WriteTxOut(out) + tail;
            && |s| >= 8 && LeNat(s[..8]) == Word64(out.value)
            && ReadVarInt(s[8..]) == Ok((|out.pkScript|, out.pkScript + tail))
  {
    hide WriteVarBytes, LeBytes, LeNat, ReadVarInt;
    assert out in [out];
    LongBounds();
    LeNatOfLeBytes(Word64(out.value), 8);
    ReadWrittenVarBytes(out.pkScript, tail);
    hide Word64;
    var s := WriteTxOut(out) + tail;
    assert s[..8] == LeBytes(Word64(out.value), 8);
    assert s[8..] == WriteVarBytes(out.pkScript) + tail;
  }

  /** A list of outputs, written front to back. */
  lemma {:induction false} WriteOutsFront(out: TxOut, outs: seq<TxOut>)
    ensures WriteOuts([out] + outs) == WriteTxOut(out) + WriteOuts(outs)
  {
    hide WriteTxOut;
    var all := [out] + outs;
    if outs == [] {
      assert all[..0] == [] && Last(all) == out;
    } else {
      WriteOutsFront(out, outs[..|outs| - 1]);
      assert all[..|all| - 1] == [out] + outs[..|outs| - 1] && Last(all) == Last(outs);
      Assoc(WriteTxOut(out), WriteOuts(outs[..|outs| - 1]), WriteTxOut(Last(outs)));
    }
  }

  lemma WriteOutsNonempty(outs: seq<TxOut>)
    requires outs != []
    ensures WriteOuts(outs) != []
  {
  }

  lemma SameWord(a: int, b: int)
    requires Int64.MIN <= a <= Int64.MAX && Int64.MIN <= b <= Int64.MAX
    requires Word64(a) == Word64(b)
    ensures a == b
  {
  }

  /** No two lists of outputs are written alike. */
  lemma {:induction false} OutsInjective(xs: seq<TxOut>, ys: seq<TxOut>)
    requires Int64Values(xs) && Int64Values(ys) && WriteOuts(xs) == WriteOuts(ys)
    ensures xs == ys
  {
    hide WriteOuts, WriteTxOut, ReadVarInt, LeNat, Word64;
    if xs == [] {
      if ys != [] {
        WriteOutsNonempty(ys);
        NothingWritten();
      }
    } else if ys == [] {
      WriteOutsNonempty(xs);
      NothingWritten();
    } else {
      var x, y := xs[0], ys[0];
      assert xs == [x] + xs[1..] && ys == [y] + ys[1..];
      assert x in xs && y in ys;
      WriteOutsFront(x, xs[1..]);
      WriteOutsFront(y, ys[1..]);
      TxOutRead(x, WriteOuts(xs[1..]));
      TxOutRead(y, WriteOuts(ys[1..]));
      SameWord(x.value, y.value);
      SplitSame(x.pkScript, WriteOuts(xs[1..]), y.pkScript, WriteOuts(ys[1..]));
      OutsInjective(xs[1..], ys[1..]);
    }
  }

  lemma NothingWritten()
    ensures WriteOuts([]) == []
  {
  }

  lemma SplitSame(a: Bytes, b: Bytes, c: Bytes, d: Bytes)
    requires a + b == c + d && |a| == |c|
    ensures a == c && b == d
  {
    assert a == (a + b)[..|a|] && b == (a + b)[|a|..];
    assert c == (c + d)[..|c|] && d == (c + d)[|c|..];
  }

  /** What is hashed for the outputs is the same exactly when the masked outputs
      are: nothing but the stacks of the packet escapes the signature. */
  lemma OutputsCommitted(outs: seq<TxOut>, outs': seq<TxOut>)
    requires MaskedOuts(outs).Ok? && MaskedOuts(outs').Ok?
    requires Int64Values(MaskedOuts(outs).value) && Int64Values(MaskedOuts(outs').value)
    ensures WriteOuts(MaskedOuts(outs).value) == WriteOuts(MaskedOuts(outs').value)
            <==> MaskedOuts(outs).value == MaskedOuts(outs').value
  {
    hide MaskedOuts, WriteOuts, Int64Values;
    if WriteOuts(MaskedOuts(outs).value) == WriteOuts(MaskedOuts(outs').value) {
      OutsInjective(MaskedOuts(outs).value, MaskedOuts(outs').value);
    }
  }

  /** Extensions that are committed alike hold the same packets, but for the
      stacks of the emulator entries. */
  lemma SamePackets(script: Bytes, script': Bytes) returns (j: nat)
    requires MaskedScript(script).Ok? && MaskedScript(script).value.Some?
    requires MaskedScript(script) == MaskedScript(script')
    ensures PacketsVariant(ParseExtension(script), ParseExtension(script'), j)
  {
    hide MaskedScript, ParseExtension, DistinctTypes, ReadContent, WriteContent, EncodeExtension;
    j := MaskedPacketList(script);
    var j' := MaskedPacketList(script');
    var ps, ps' := ParseExtension(script).value, ParseExtension(script').value;
    var es, es' := ReadContent(ps[j].data).value, ReadContent(ps'[j'].data).value;
    var qs := ps[j := Packet(PACKET_TYPE, WriteContent(MaskAll(es), []))];
    var qs' := ps'[j' := Packet(PACKET_TYPE, WriteContent(MaskAll(es'), []))];
    assert qs == qs';
    OneOfType(qs, j, j');
    AcceptedMasks(ps[j].data);
    AcceptedMasks(ps'[j].data);
    assert qs[j] == qs'[j];
    MaskedEqual(es, es');
    forall i | 0 <= i < |ps| && i != j
      ensures ps[i] == ps'[i]
    {
      assert qs[i] == qs'[i];
    }
  }

  /** A masked script is the encoding of its packets with the one at j masked, and
      parses back to that list. */
  lemma MaskedPacketList(script: Bytes) returns (j: nat)
    requires MaskedScript(script).Ok? && MaskedScript(script).value.Some?
    ensures ParseExtension(script).Some? && j < |ParseExtension(script).value|
    ensures var ps := ParseExtension(script).value;
            && ps[j].typ == PACKET_TYPE && ReadContent(ps[j].data).Ok?
            && var qs := ps[j := Packet(PACKET_TYPE, WriteContent(MaskAll(ReadContent(ps[j].data).value), []))];
               ParseExtension(MaskedScript(script).value.value) == Some(qs) && DistinctTypes(qs)
  {
    hide ReadContent, ParsePackets, EncodeExtension, PushedPayload, WriteContent, IsExtension, FirstOfType;
    var ps := ParseExtension(script).value;
    FirstOfTypeIndex(ps, PACKET_TYPE);
    j := FirstOfType(ps, PACKET_TYPE).value;
    var es := ReadContent(ps[j].data).value;
    var masked := Packet(PACKET_TYPE, WriteContent(MaskAll(es), []));
    StillDistinct(ps, j, masked);
    ParseEncodedExtension(ps[j := masked]);
  }

  lemma StillDistinct(ps: seq<Packet>, j: nat, p: Packet)
    requires DistinctTypes(ps) && j < |ps| && p.typ == ps[j].typ
    ensures DistinctTypes(ps[j := p])
  {
  }

  lemma OneOfType(ps: seq<Packet>, i: nat, j: nat)
    requires DistinctTypes(ps) && i < |ps| && j < |ps| && ps[i].typ == ps[j].typ
    ensures i == j
  {
  }
}
