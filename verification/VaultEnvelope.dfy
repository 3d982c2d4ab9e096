/** The envelope the authorization script embeds: the bytes of the canonical
    packet output before the packet's content, which depend on the script's own
    length. */
module VaultEnvelope {
  import opened Common
  import opened Numbers
  import opened Tokenizers
  import opened Stacks
  import opened ExtensionFormat
  import opened EmulatorPackets
  import opened Transactions
  import opened VmInvariants
  import opened StraightLine
  import opened VaultScript
  import opened VaultFlows
  import opened VaultProof
  import Int64

  const SIGNATURE_BYTES: nat := 64
  const ROUNDS: nat := 8

  datatype BuildError = BadKey | BadPolicy | LengthRequired | BadPacket | TooLong | NotCanonicalEnvelope | NotConverged

  // ---- the envelope of a content length ----

  /** The opcode and length bytes of a push. */
  function PushHeader(n: nat): Bytes {
    if n < 76 then [n as byte] else if n <= 0xff then [0x4c, n as byte] else [0x4d] + LeBytes(n, 2)
  }

  function PacketHeader(length: nat): Bytes {
    ARK_MAGIC + [PACKET_TYPE] + WriteUvarint(length)
  }

  function EnvelopePrefix(length: nat): Bytes {
    [OP_RETURN] + PushHeader(|PacketHeader(length)| + length) + PacketHeader(length)
  }

  /** The one-packet output is the envelope of its length and the content. */
  lemma EnvelopeThenContent(content: Bytes)
    requires |PacketHeader(|content|)| + |content| <= 0xffff
    ensures EncodeExtension([Packet(PACKET_TYPE, content)]) == Some(EnvelopePrefix(|content|) + content)
  {
    hide WriteUvarint, LeBytes;
    var ps := [Packet(PACKET_TYPE, content)];
    assert ps[1..] == [];
    assert EncodePackets(ps) == EncodePacket(ps[0]);
    var header := PacketHeader(|content|);
    assert ARK_MAGIC + EncodePacket(ps[0]) == header + content;
    PushOf(header + content);
    Assoc(PushHeader(|header + content|), header, content);
    Assoc([OP_RETURN], PushHeader(|header + content|) + header, content);
    Assoc([OP_RETURN], PushHeader(|header + content|), header);
  }

  lemma PushOf(data: Bytes)
    requires |data| <= 0xffff
    ensures WritePush(data) == Some(PushHeader(|data|) + data)
  {
  }

  function Zeros(n: nat): (r: Bytes)
    ensures |r| == n
  {
    if n == 0 then [] else [0] + Zeros(n - 1)
  }

  /** The packet of one entry for input zero with one item. */
  function OneEntry(script: Bytes, item: Bytes): seq<Entry> {
    [Entry(0, script, [item])]
  }

  /** Its length depends on the script's length only, for items of one length. */
  function ContentLength(n: nat): nat {
    4 + |WriteVarInt(n)| + n + 2 + SIGNATURE_BYTES
  }

  lemma OneItemStack(item: Bytes)
    requires |item| == SIGNATURE_BYTES
    ensures |WriteStack([item], [])| == 2 + SIGNATURE_BYTES
  {
    hide WriteVarInt;
    assert [item][1..] == [];
    assert WriteItems([item]) == WriteVarBytes(item) + [];
    OneByteVarInt(1);
    OneByteVarInt(SIGNATURE_BYTES);
  }

  lemma OneEntryLength(script: Bytes, item: Bytes)
    requires |item| == SIGNATURE_BYTES
    ensures |WriteContent(OneEntry(script, item), [])| == ContentLength(|script|)
  {
    hide WriteVarInt, WriteStack;
    var es := OneEntry(script, item);
    assert es[1..] == [];
    OneItemStack(item);
    OneByteVarInt(1);
    OneByteVarInt(2 + SIGNATURE_BYTES);
    assert WriteEntries(es, []) == WriteEntry(es[0], []) + WriteEntries(es[1..], []);
    assert |WriteEntry(es[0], [])| == 2 + (|WriteVarInt(|script|)| + |script|) + (1 + 2 + SIGNATURE_BYTES);
  }

  lemma OneByteVarInt(n: nat)
    requires n < 0xfd
    ensures |WriteVarInt(n)| == 1
  {
  }

  /** The envelope of a script's length. */
  function Envelope(n: nat): Bytes {
    EnvelopePrefix(ContentLength(n))
  }

  /** Lengths whose packet output fits the largest push. */
  const MAX_ENVELOPED: nat := 0xff00

  lemma VarIntWidth(n: nat)
    requires n <= 0xffff
    ensures |WriteVarInt(n)| == if n < 0xfd then 1 else 3
  {
  }

  lemma EnvelopeFits(n: nat)
    requires n <= MAX_ENVELOPED
    ensures |PacketHeader(ContentLength(n))| <= 7
    ensures |PacketHeader(ContentLength(n))| + ContentLength(n) <= 0xffff
    ensures 7 <= |Envelope(n)| <= 11
  {
    VarIntWidth(n);
    UvarintWidth(ContentLength(n));
    hide WriteUvarint, WriteVarInt, LeBytes;
  }

  /** The output script up to the packet's content, for a script of n bytes. */
  function PrefixOf(n: nat): Result<Bytes, BuildError> {
    if n == 0 then Err(LengthRequired)
    else
      var es := OneEntry(Zeros(n), Zeros(SIGNATURE_BYTES));
      if PacketFault(es).Some? then Err(BadPacket)
      else
        var content := WriteContent(es, []);
        match EncodeExtension([Packet(PACKET_TYPE, content)])
        case None => Err(TooLong)
        case Some(script) =>
          if |script| <= |content| || script[|script| - |content|..] != content then Err(NotCanonicalEnvelope)
          else Ok(script[..|script| - |content|])
  }

  method ExactPacketOutputPrefix(n: nat) returns (r: Result<Bytes, BuildError>)
    ensures r == PrefixOf(n)
  {
    hide WriteContent, PacketFault, EncodeExtension;
    if n == 0 {
      return Err(LengthRequired);
    }
    var es := OneEntry(Zeros(n), Zeros(SIGNATURE_BYTES));
    var fault := Validate(es);
    if fault.Some? {
      return Err(BadPacket);
    }
    var content := Serialize(es, []);
    var output := EncodeExtension([Packet(PACKET_TYPE, content)]);
    if output.None? {
      return Err(TooLong);
    }
    var script := output.value;
    if |script| <= |content| || script[|script| - |content|..] != content {
      return Err(NotCanonicalEnvelope);
    }
    return Ok(script[..|script| - |content|]);
  }

  /** The prefix is the envelope of the length, and never fails where it fits. */
  lemma PrefixIsEnvelope(n: nat)
    requires 0 < n <= MAX_ENVELOPED
    ensures PrefixOf(n) == Ok(Envelope(n))
  {
    hide WriteContent, PacketFault, EncodeExtension, EnvelopePrefix;
    var es := OneEntry(Zeros(n), Zeros(SIGNATURE_BYTES));
    assert es[0].script != [];
    FaultlessIsValid(es);
    OneEntryLength(Zeros(n), Zeros(SIGNATURE_BYTES));
    EnvelopeFits(n);
    EnvelopeThenContent(WriteContent(es, []));
  }

  // ---- longer scripts have longer envelopes ----

  lemma {:induction false} UvarintMonotone(a: nat, b: nat)
    requires a <= b
    ensures |WriteUvarint(a)| <= |WriteUvarint(b)|
  {
    if a >= 128 {
      UvarintMonotone(a / 128, b / 128);
    }
  }

  lemma VarIntMonotone(a: nat, b: nat)
    requires a <= b
    ensures |WriteVarInt(a)| <= |WriteVarInt(b)|
  {
  }

  lemma EnvelopeMonotone(a: nat, b: nat)
    requires a <= b
    ensures |Envelope(a)| <= |Envelope(b)|
  {
    VarIntMonotone(a, b);
    UvarintMonotone(ContentLength(a), ContentLength(b));
    hide WriteUvarint, WriteVarInt, LeBytes;
    assert |PacketHeader(ContentLength(a))| <= |PacketHeader(ContentLength(b))|;
  }

  // ---- the length of the script ----

  lemma {:induction false} EncodeAppend(ts: seq<Token>, us: seq<Token>)
    ensures EncodeTokens(ts + us) == EncodeTokens(ts) + EncodeTokens(us)
  {
    hide EncodeToken;
    if ts == [] {
      assert ts + us == us;
    } else {
      EncodeAppend(ts[1..], us);
      assert (ts + us)[1..] == ts[1..] + us;
      Assoc(EncodeToken(ts[0]), EncodeTokens(ts[1..]), EncodeTokens(us));
    }
  }

  const PacketHead: seq<Token> := [AddInt(PACKET_TYPE as int), Op(0xf4), Op(VERIFY)]

  const PacketTail: seq<Token> :=
    [Op(0x7c), Op(0x7e), Op(0xa8), AddInt(2), Op(OUTPUTSCRIPT), AddInt(-1), Op(EQUALVERIFY), Op(EQUALVERIFY)]

  function BeforePrefix(p: Policy): seq<Token> {
    Shape() + Outputs(p) + PacketHead
  }

  function AfterPrefix(key: Bytes, p: Policy): seq<Token> {
    PacketTail + (Fees(p) + DirectSignature(key))
  }

  lemma ProgramSplit(key: Bytes, p: Policy, prefix: Bytes)
    ensures Program(key, p, prefix) == BeforePrefix(p) + ([AddData(prefix)] + AfterPrefix(key, p))
  {
    var a, b, c, d := Shape() + Outputs(p), PacketIsExact(prefix), Fees(p), DirectSignature(key);
    var head, tail := PacketHead, PacketTail;
    assert b == head + ([AddData(prefix)] + tail);
    hide PacketIsExact, PacketHead, PacketTail, Shape, Outputs, Fees, DirectSignature;
    Assoc(a + b, c, d);
    Assoc(a, b, c + d);
    Assoc(head, [AddData(prefix)] + tail, c + d);
    Assoc([AddData(prefix)], tail, c + d);
    Assoc(a, head, [AddData(prefix)] + (tail + (c + d)));
  }

  lemma EncodeOne(t: Token)
    ensures EncodeTokens([t]) == EncodeToken(t)
  {
    hide EncodeToken;
    assert [t][1..] == [];
  }

  predicate ShortPrefix(prefix: Bytes) {
    prefix == [] || 1 < |prefix| <= 75
  }

  /** A longer prefix lengthens the script by as much. */
  lemma ScriptLength(key: Bytes, p: Policy, prefix: Bytes)
    requires ShortPrefix(prefix)
    ensures |BuildScript(key, p, prefix)| == |BuildScript(key, p, [])| + |prefix|
  {
    hide BeforePrefix, AfterPrefix, EncodeTokens, Program;
    SplitLength(key, p, prefix);
    SplitLength(key, p, []);
  }

  lemma SplitLength(key: Bytes, p: Policy, prefix: Bytes)
    requires ShortPrefix(prefix)
    ensures |EncodeTokens(Program(key, p, prefix))|
            == |EncodeTokens(BeforePrefix(p))| + 1 + |prefix| + |EncodeTokens(AfterPrefix(key, p))|
  {
    hide BeforePrefix, AfterPrefix, Program, EncodeTokens;
    ProgramSplit(key, p, prefix);
    EncodeAppend(BeforePrefix(p), [AddData(prefix)] + AfterPrefix(key, p));
    EncodeAppend([AddData(prefix)], AfterPrefix(key, p));
    EncodeOne(AddData(prefix));
    PrefixToken(prefix);
  }

  lemma PrefixToken(prefix: Bytes)
    requires ShortPrefix(prefix)
    ensures |EncodeToken(AddData(prefix))| == 1 + |prefix|
  {
  }

  function Sum(ns: seq<nat>): nat {
    if ns == [] then 0 else ns[0] + Sum(ns[1..])
  }

  /** A list of tokens is no longer than bounds on each of them. */
  lemma {:induction false} LengthBound(ts: seq<Token>, bounds: seq<nat>)
    requires |ts| == |bounds|
    requires forall i :: 0 <= i < |ts| ==> |EncodeToken(ts[i])| <= bounds[i]
    ensures |EncodeTokens(ts)| <= Sum(bounds)
  {
    hide EncodeToken;
    if ts != [] {
      LengthBound(ts[1..], bounds[1..]);
    }
  }

  lemma IntLength(n: int)
    requires Word(n)
    ensures |EncodeToken(AddInt(n))| <= if -1 <= n <= 16 then 1 else 9
  {
    if !(-1 <= n <= 16) {
      PushedInt(n);
      hide Encode, AddInt;
    }
  }

  lemma ValueComparesLength(i: int, n: int, cmp: byte)
    requires 0 <= i <= 16 && Word(n) && cmp in {GREATEROREQUAL, LESSOREQUAL}
    ensures |EncodeTokens(ValueCompares(i, n, cmp))| <= 13
  {
    IntLength(i);
    IntLength(n);
    hide AddInt;
    LengthBound(ValueCompares(i, n, cmp), [1, 1, 9, 1, 1]);
  }

  lemma FieldIsLength(op: byte, n: int)
    requires op in {0xd2, 0xd3, 0xd4, 0xd5} && 0 <= n <= 16
    ensures |EncodeTokens(FieldIs(op, n))| <= 3
  {
    IntLength(n);
    hide AddInt;
    LengthBound(FieldIs(op, n), [1, 1, 1]);
  }

  lemma IndexedIsLength(i: int, op: byte, n: int)
    requires op in {0xcb, 0xcf} && 0 <= i <= 16 && Word(n)
    ensures |EncodeTokens(IndexedIs(i, op, n))| <= 12
  {
    hide AddInt;
    IntLength(i);
    IntLength(n);
    LengthBound(IndexedIs(i, op, n), [1, 1, 9, 1]);
  }

  lemma ShapeLength()
    ensures |EncodeTokens(Shape())| <= 21
  {
    hide EncodeTokens, FieldIs, IndexedIs;
    var a, b, c, d := FieldIs(0xd2, 2), FieldIs(0xd3, 0), FieldIs(0xd4, 1), IndexedIs(0, 0xcb, MAX_SEQUENCE);
    FieldIsLength(0xd2, 2);
    FieldIsLength(0xd3, 0);
    FieldIsLength(0xd4, 1);
    IndexedIsLength(0, 0xcb, MAX_SEQUENCE);
    EncodeAppend(a, b);
    EncodeAppend(a + b, c);
    EncodeAppend(a + b + c, d);
  }

  predicate AllOneByte(ts: seq<Token>) {
    forall t :: t in ts ==> |EncodeToken(t)| <= 1
  }

  lemma {:induction false} OneByteEach(ts: seq<Token>)
    requires AllOneByte(ts)
    ensures |EncodeTokens(ts)| <= |ts|
  {
    hide EncodeToken;
    if ts != [] {
      assert ts[0] in ts;
      OneByteEach(ts[1..]);
    }
  }

  lemma RecipientLength()
    ensures |EncodeTokens(RecipientIsNative)| <= 6
  {
    IntLength(0);
    hide AddInt;
    OneByteEach(RecipientIsNative);
  }

  lemma ChangeLength()
    ensures |EncodeTokens(ChangeIsVault)| <= 9
  {
    IntLength(1);
    hide AddInt;
    OneByteEach(ChangeIsVault);
  }

  lemma ComputeFeeLength()
    ensures |EncodeTokens(ComputeFee)| <= 8
  {
    IntLength(0);
    IntLength(1);
    hide AddInt;
    OneByteEach(ComputeFee);
  }

  lemma PacketHeadLength()
    ensures |EncodeTokens(PacketHead)| <= 3
  {
    hide AddInt;
    IntLength(1);
    OneByteEach(PacketHead);
  }

  lemma PacketTailLength()
    ensures |EncodeTokens(PacketTail)| <= 8
  {
    IntLength(2);
    IntLength(-1);
    hide AddInt;
    OneByteEach(PacketTail);
  }

  lemma OutputsLength(p: Policy)
    requires ValidPolicy(p)
    ensures |EncodeTokens(Outputs(p))| <= 69
  {
    hide EncodeTokens, FieldIs, IndexedIs, ValueCompares, RecipientIsNative, ChangeIsVault;
    var a, b := ValueCompares(0, p.dust, GREATEROREQUAL), ValueCompares(0, p.cap, LESSOREQUAL);
    var c, d := FieldIs(0xd5, 3), ValueCompares(1, p.dust, GREATEROREQUAL);
    var e := IndexedIs(2, OUTPUTVALUE, 0);
    ValueComparesLength(0, p.dust, GREATEROREQUAL);
    ValueComparesLength(0, p.cap, LESSOREQUAL);
    ValueComparesLength(1, p.dust, GREATEROREQUAL);
    FieldIsLength(0xd5, 3);
    RecipientLength();
    ChangeLength();
    IndexedIsLength(2, OUTPUTVALUE, 0);
    EncodeAppend(a, b);
    EncodeAppend(a + b, RecipientIsNative);
    EncodeAppend(a + b + RecipientIsNative, c);
    EncodeAppend(a + b + RecipientIsNative + c, d);
    EncodeAppend(a + b + RecipientIsNative + c + d, ChangeIsVault);
    EncodeAppend(a + b + RecipientIsNative + c + d + ChangeIsVault, e);
  }

  lemma FeeComparesLength(n: int, cmp: byte)
    requires Word(n) && cmp in {GREATEROREQUAL, LESSOREQUAL}
    ensures |EncodeTokens(FeeCompares(n, cmp))| <= 12
  {
    hide AddInt;
    IntLength(n);
    LengthBound(FeeCompares(n, cmp), [1, 9, 1, 1]);
  }

  lemma FeerateLength(feerate: int)
    requires Word(feerate)
    ensures |EncodeTokens(FeerateHolds(feerate))| <= 29
  {
    hide AddInt, EncodeToken, EncodeTokens;
    var a, b := [Op(0x76), Op(0xd6)], [Op(0x93), AddInt(3), Op(0x93), AddInt(4), Op(0x96)];
    var c := [Op(0x95), Op(LESSOREQUAL), Op(VERIFY), Op(0x75)];
    var x, y := [AddInt(ROUTINE_WITNESS_BYTES)], [AddInt(feerate)];
    assert FeerateHolds(feerate) == a + (x + (b + (y + c)));
    IntLength(ROUTINE_WITNESS_BYTES);
    IntLength(feerate);
    EncodeOne(AddInt(ROUTINE_WITNESS_BYTES));
    EncodeOne(AddInt(feerate));
    WeightOpsLength();
    RoundUpLength();
    LimitOpsLength();
    EncodeAppend(a, x + (b + (y + c)));
    EncodeAppend(x, b + (y + c));
    EncodeAppend(b, y + c);
    EncodeAppend(y, c);
  }

  lemma WeightOpsLength()
    ensures |EncodeTokens([Op(0x76), Op(0xd6)])| <= 2
  {
    OneByteEach([Op(0x76), Op(0xd6)]);
  }

  lemma RoundUpLength()
    ensures |EncodeTokens([Op(0x93), AddInt(3), Op(0x93), AddInt(4), Op(0x96)])| <= 5
  {
    IntLength(3);
    IntLength(4);
    hide AddInt;
    OneByteEach([Op(0x93), AddInt(3), Op(0x93), AddInt(4), Op(0x96)]);
  }

  lemma LimitOpsLength()
    ensures |EncodeTokens([Op(0x95), Op(LESSOREQUAL), Op(VERIFY), Op(0x75)])| <= 4
  {
    OneByteEach([Op(0x95), Op(LESSOREQUAL), Op(VERIFY), Op(0x75)]);
  }

  lemma FeesLength(p: Policy)
    requires ValidPolicy(p)
    ensures |EncodeTokens(Fees(p))| <= 61
  {
    hide EncodeTokens, FeeCompares, FeerateHolds, ComputeFee;
    var b, c := FeeCompares(0, GREATEROREQUAL), FeeCompares(p.feeCeiling, LESSOREQUAL);
    ComputeFeeLength();
    FeeComparesLength(0, GREATEROREQUAL);
    FeeComparesLength(p.feeCeiling, LESSOREQUAL);
    FeerateLength(p.feerate);
    EncodeAppend(ComputeFee, b);
    EncodeAppend(ComputeFee + b, c);
    EncodeAppend(ComputeFee + b + c, FeerateHolds(p.feerate));
  }

  lemma SignatureLength(key: Bytes)
    requires |key| == 33
    ensures |EncodeTokens(DirectSignature(key))| <= 38
  {
    LengthBound(DirectSignature(key), [1, 1, 35, 1]);
  }

  /** The script without its prefix, whatever the policy and key. */
  lemma ShortScript(key: Bytes, p: Policy)
    requires |key| == 33 && ValidPolicy(p)
    ensures 0 < |BuildScript(key, p, [])| <= 201
  {
    hide EncodeTokens, Shape, Outputs, PacketHead, PacketTail, Fees, DirectSignature, Program;
    SplitLength(key, p, []);
    ShapeLength();
    OutputsLength(p);
    PacketHeadLength();
    PacketTailLength();
    FeesLength(p);
    SignatureLength(key);
    EncodeAppend(Shape(), Outputs(p));
    EncodeAppend(Shape() + Outputs(p), PacketHead);
    EncodeAppend(PacketTail, Fees(p) + DirectSignature(key));
    EncodeAppend(Fees(p), DirectSignature(key));
  }

  // ---- the fixed point ----

  /** A compressed point of the curve. */
  predicate CanonicalKey(key: Bytes, onCurve: Bytes -> bool) {
    |key| == 33 && (key[0] == 2 || key[0] == 3) && onCurve(key)
  }

  /** The rounds left to find a script that embeds its own envelope. */
  function Settle(key: Bytes, p: Policy, prefix: Bytes, rounds: nat): Result<Bytes, BuildError>
    decreases rounds
  {
    if rounds == 0 then Err(NotConverged)
    else
      var script := BuildScript(key, p, prefix);
      var next :- PrefixOf(|script|);
      if next == prefix then Ok(script) else Settle(key, p, next, rounds - 1)
  }

  function Authorization(key: Bytes, p: Policy, onCurve: Bytes -> bool): Result<Bytes, BuildError> {
    if !CanonicalKey(key, onCurve) then Err(BadKey)
    else if !ValidPolicy(p) then Err(BadPolicy)
    else Settle(key, p, [], ROUNDS)
  }

  method AuthorizationScript(key: Bytes, p: Policy, onCurve: Bytes -> bool) returns (r: Result<Bytes, BuildError>)
    ensures r == Authorization(key, p, onCurve)
  {
    hide BuildScript, PrefixOf;
    if !CanonicalKey(key, onCurve) {
      return Err(BadKey);
    }
    if !ValidPolicy(p) {
      return Err(BadPolicy);
    }
    var prefix: Bytes := [];
    for i := 0 to ROUNDS
      invariant Settle(key, p, [], ROUNDS) == Settle(key, p, prefix, ROUNDS - i)
    {
      var script := BuildScript(key, p, prefix);
      var next := ExactPacketOutputPrefix(|script|);
      if next.Err? {
        return Err(next.error);
      }
      if next.value == prefix {
        return Ok(script);
      }
      prefix := next.value;
    }
    return Err(NotConverged);
  }

  /** From a prefix that is the envelope of a shorter script, the rounds suffice:
      the prefix can only grow, and has at most eleven bytes. */
  lemma {:induction false} SettleOnce(key: Bytes, p: Policy, prefix: Bytes, last: nat, rounds: nat)
    requires |key| == 33 && ValidPolicy(p)
    requires last <= |prefix| && last <= 11 && prefix == Envelope(|BuildScript(key, p, [])| + last)
    requires (last >= 7 && last + rounds > 11) || (last == 0 && rounds >= 6)
    ensures Settle(key, p, prefix, rounds).Ok?
    ensures var script := Settle(key, p, prefix, rounds).value;
            |script| <= 212 && script == BuildScript(key, p, Envelope(|script|))
    decreases rounds
  {
    hide Envelope, BuildScript, PrefixOf;
    var base := |BuildScript(key, p, [])|;
    ShortScript(key, p);
    EnvelopeFits(base + last);
    ScriptLength(key, p, prefix);
    PrefixIsEnvelope(base + |prefix|);
    var next := Envelope(base + |prefix|);
    if next != prefix {
      EnvelopeMonotone(base + last, base + |prefix|);
      SettleOnce(key, p, next, |prefix|, rounds - 1);
    }
  }

  lemma SettleFirst(key: Bytes, p: Policy, rounds: nat)
    requires |key| == 33 && ValidPolicy(p) && rounds >= 7
    ensures Settle(key, p, [], rounds).Ok?
    ensures var script := Settle(key, p, [], rounds).value;
            |script| <= 212 && script == BuildScript(key, p, Envelope(|script|))
  {
    hide Envelope, BuildScript, PrefixOf, ValidPolicy;
    var base := |BuildScript(key, p, [])|;
    ShortScript(key, p);
    PrefixIsEnvelope(base);
    EnvelopeFits(base);
    assert Envelope(base) != [];
    SettleOnce(key, p, Envelope(base), 0, rounds - 1);
  }

  /** The loop always converges, on a script whose embedded prefix is the envelope
      of that very script's length. */
  lemma AuthorizationConverges(key: Bytes, p: Policy, onCurve: Bytes -> bool)
    ensures Authorization(key, p, onCurve).Ok? <==> CanonicalKey(key, onCurve) && ValidPolicy(p)
    ensures Authorization(key, p, onCurve).Ok? ==>
              var script := Authorization(key, p, onCurve).value;
              |script| <= 212 && script == BuildScript(key, p, Envelope(|script|))
  {
    hide Settle, Envelope, BuildScript;
    if CanonicalKey(key, onCurve) && ValidPolicy(p) {
      SettleFirst(key, p, ROUNDS);
    }
  }

  /** For every signature item of 64 bytes, the embedded prefix followed by the
      packet that carries the script and the item is the exact canonical output
      script, and it fits one stack element. */
  lemma EnvelopeIsExact(key: Bytes, p: Policy, onCurve: Bytes -> bool, item: Bytes)
    requires Authorization(key, p, onCurve).Ok? && |item| == SIGNATURE_BYTES
    ensures var script := Authorization(key, p, onCurve).value;
            var content := WriteContent(OneEntry(script, item), []);
            && EncodeExtension([Packet(PACKET_TYPE, content)]) == Some(Envelope(|script|) + content)
            && |Envelope(|script|)| + |content| <= 520
  {
    AuthorizationConverges(key, p, onCurve);
    hide WriteContent, EncodeExtension, EnvelopePrefix, Authorization, BuildScript;
    var script := Authorization(key, p, onCurve).value;
    EnvelopeFits(|script|);
    OneEntryLength(script, item);
    VarIntWidth(|script|);
    EnvelopeThenContent(WriteContent(OneEntry(script, item), []));
  }
}
