/** What the signature message commits to, for every hash type: two messages are
    the same exactly when the committed fields are. */
module SigCommit {
  import opened Common
  import opened Transactions
  import opened EmulatorPackets
  import opened SigMessages
  import Int64

  // ---- the fields of a type ----

  /** Widths of the wire fields, and of digests and midstates. */
  ghost predicate Widths(c: SigContext) {
    && -0x8000_0000 <= c.tx.version < 0x8000_0000 && c.tx.lockTime < 0x1_0000_0000
    && c.txIdx < 0x1_0000_0000 && c.codeSepPos < 0x1_0000_0000
    && |c.leafHash| == 32 && (forall x :: |c.sha256(x)| == 32) && (forall ins :: |c.midstates(ins)| == 128)
    && (c.txIdx < |c.tx.ins| ==> InputWidths(c, c.tx.ins[c.txIdx]))
  }

  predicate InputWidths(c: SigContext, input: TxIn) {
    && |input.prevOut.hash| == 32 && input.prevOut.index < 0x1_0000_0000 && input.sequence < 0x1_0000_0000
    && var prev := c.fetchPrevOut(input.prevOut);
       prev.Some? ==> Int64.MIN <= prev.value.value <= Int64.MAX && |prev.value.pkScript| < 0x1_0000_0000_0000_0000
  }

  /** Version, lock time, annex, leaf and separator, under every type. */
  predicate SameSpend(c: SigContext, c': SigContext) {
    && c.tx.version == c'.tx.version && c.tx.lockTime == c'.tx.lockTime
    && c.leafHash == c'.leafHash && c.codeSepPos == c'.codeSepPos
    && (c.annex == [] <==> c'.annex == [])
    && (c.annex != [] ==> c.sha256(WriteVarBytes(c.annex)) == c'.sha256(WriteVarBytes(c'.annex)))
  }

  /** Without the anyone-can-pay bit all inputs and the position among them; with it
      the input alone and the output it spends. */
  predicate SameInputs(c: SigContext, c': SigContext, hashType: nat)
    requires c.txIdx < |c.tx.ins| && c'.txIdx < |c'.tx.ins|
  {
    if hashType < 0x80 then c.midstates(c.tx.ins) == c'.midstates(c'.tx.ins) && c.txIdx == c'.txIdx
    else
      var input, input' := c.tx.ins[c.txIdx], c'.tx.ins[c'.txIdx];
      && input.prevOut == input'.prevOut && input.sequence == input'.sequence
      && c.fetchPrevOut(input.prevOut) == c'.fetchPrevOut(input'.prevOut)
  }

  /** All outputs, one output, or none, with the stacks of the packet masked. */
  predicate SameOutputHash(c: SigContext, c': SigContext, hashType: nat)
    requires MaskedOuts(c.tx.outs).Ok? && MaskedOuts(c'.tx.outs).Ok?
  {
    c.sha256(WriteOuts(MaskedOuts(c.tx.outs).value)) == c'.sha256(WriteOuts(MaskedOuts(c'.tx.outs).value))
  }

  predicate SameSingleHash(c: SigContext, c': SigContext)
    requires MaskedOuts(c.tx.outs).Ok? && MaskedOuts(c'.tx.outs).Ok?
    requires c.txIdx < |MaskedOuts(c.tx.outs).value| && c'.txIdx < |MaskedOuts(c'.tx.outs).value|
  {
    c.sha256(WriteTxOut(MaskedOuts(c.tx.outs).value[c.txIdx]))
    == c'.sha256(WriteTxOut(MaskedOuts(c'.tx.outs).value[c'.txIdx]))
  }

  /** Types 0, 1, 0x81 commit to all outputs, 3 and 0x83 to one, 2 and 0x82 to none. */
  predicate SameOuts(c: SigContext, c': SigContext, hashType: nat) {
    && (hashType in {0, 1, 0x81} ==>
          MaskedOuts(c.tx.outs).Ok? && MaskedOuts(c'.tx.outs).Ok? && SameOutputHash(c, c', hashType))
    && (hashType in {3, 0x83} ==>
          && MaskedOuts(c.tx.outs).Ok? && MaskedOuts(c'.tx.outs).Ok?
          && c.txIdx < |MaskedOuts(c.tx.outs).value| && c'.txIdx < |MaskedOuts(c'.tx.outs).value|
          && SameSingleHash(c, c'))
  }

  // ---- when there is a message ----

  /** A message exists in a tapscript context, for the seven hash types and an input
      of the transaction: with the anyone-can-pay bit its previous output must be
      known, outputs that are hashed must have a masked form, and a single output
      must stand beside the input. */
  lemma MessageExists(c: SigContext, hashType: nat)
    ensures SigMessage(c, hashType).Ok? <==>
              && c.tapscript && hashType in {0, 1, 2, 3, 0x81, 0x82, 0x83} && c.txIdx < |c.tx.ins|
              && (hashType >= 0x80 ==> c.fetchPrevOut(c.tx.ins[c.txIdx].prevOut).Some?)
              && (hashType !in {2, 0x82} ==> MaskedOuts(c.tx.outs).Ok?)
              && (hashType in {3, 0x83} ==> c.txIdx < |c.tx.outs|)
  {
    hide MaskedOuts, WriteOuts, WriteTxOut, Preamble, AnnexPart, LeafPart, LeBytes;
    assert c.tapscript && ValidHashType(hashType) && c.txIdx < |c.tx.ins| ==>
        (SigMessage(c, hashType).Ok? <==>
           OutputsPart(c, hashType).Ok? && InputPart(c, hashType).Ok? && SinglePart(c, hashType).Ok?);
  }

  lemma Start(h: Bytes, rest: Bytes)
    requires |h| >= 2
    ensures (h + rest)[0] == h[0] && (h + rest)[1] == h[1] && |h + rest| >= 2
  {
  }

  lemma PreambleStart(c: SigContext, hashType: nat)
    requires hashType < 256
    ensures var p := Preamble(c, hashType);
            |p| >= 2 && p[0] == 0 && p[1] as int == hashType
  {
    hide LeBytes;
    var h, v := [0, hashType as byte], LeBytes(c.tx.version % 0x1_0000_0000, 4);
    var t, m := LeBytes(c.tx.lockTime, 4), if AnyoneCanPay(hashType) then [] else c.midstates(c.tx.ins);
    assert Preamble(c, hashType) == h + v + t + m;
    Start(h, v);
    Start(h + v, t);
    Start(h + v + t, m);
  }

  lemma SecondByte(c: SigContext, hashType: nat)
    requires SigMessage(c, hashType).Ok?
    ensures var m := SigMessage(c, hashType).value;
            |m| >= 2 && m[0] == 0 && m[1] as int == hashType
  {
    hide SigMessage, MaskedOuts, OutputsPart, InputPart, AnnexPart, SinglePart, LeafPart, Preamble;
    MessageExists(c, hashType);
    NestedMessage(c, hashType);
    PreambleStart(c, hashType);
    Start(Preamble(c, hashType),
          OutputsPart(c, hashType).value + ([SpendType(c)] + (InputPart(c, hashType).value
          + (AnnexPart(c) + (SinglePart(c, hashType).value + LeafPart(c))))));
  }

  /** No two hash types share a message: the type is its second byte. */
  lemma TypeIsCommitted(c: SigContext, c': SigContext, hashType: nat, hashType': nat)
    requires SigMessage(c, hashType).Ok? && SigMessage(c', hashType').Ok?
    requires SigMessage(c, hashType) == SigMessage(c', hashType')
    ensures hashType == hashType'
  {
    hide SigMessage;
    SecondByte(c, hashType);
    SecondByte(c', hashType');
  }

  /** The default message of a spend without annex, byte by byte: epoch, type,
      version, lock time, the four midstates, the hash of the outputs, the spend type,
      the input's index, leaf hash, key version and separator. */
  lemma DefaultLayout(c: SigContext)
    requires Widths(c) && c.annex == [] && SigMessage(c, 0).Ok?
    ensures MaskedOuts(c.tx.outs).Ok?
    ensures SigMessage(c, 0).value ==
            [0, 0] + LeBytes(c.tx.version % 0x1_0000_0000, 4) + LeBytes(c.tx.lockTime, 4) + c.midstates(c.tx.ins)
            + c.sha256(WriteOuts(MaskedOuts(c.tx.outs).value)) + [2] + LeBytes(c.txIdx, 4)
            + c.leafHash + [0] + LeBytes(c.codeSepPos, 4)
  {
    MessageExists(c, 0);
    hide MaskedOuts, WriteOuts, LeBytes;
    var p, o, i := Preamble(c, 0), c.sha256(WriteOuts(MaskedOuts(c.tx.outs).value)), LeBytes(c.txIdx, 4);
    var q := LeBytes(c.codeSepPos, 4);
    assert SigMessage(c, 0).value == p + o + [2] + i + [] + [] + (c.leafHash + [0] + q);
    assert p + o + [2] + i + [] + [] == p + o + [2] + i;
    Assoc(p + o + [2] + i, c.leafHash + [0], q);
    Assoc(p + o + [2] + i, c.leafHash, [0]);
  }

  // ---- the message as one string of parts ----

  lemma NestedMessage(c: SigContext, hashType: nat)
    requires SigMessage(c, hashType).Ok?
    ensures OutputsPart(c, hashType).Ok? && c.txIdx < |c.tx.ins|
    ensures InputPart(c, hashType).Ok? && SinglePart(c, hashType).Ok?
    ensures SigMessage(c, hashType).value ==
            Preamble(c, hashType) + (OutputsPart(c, hashType).value + ([SpendType(c)] + (InputPart(c, hashType).value
            + (AnnexPart(c) + (SinglePart(c, hashType).value + LeafPart(c))))))
  {
    hide Preamble, OutputsPart, InputPart, AnnexPart, SinglePart, LeafPart;
    var p, o, s := Preamble(c, hashType), OutputsPart(c, hashType).value, [SpendType(c)];
    var i := InputPart(c, hashType).value;
    var a, g, l := AnnexPart(c), SinglePart(c, hashType).value, LeafPart(c);
    Assoc(a, g, l);
    Assoc(i, a + g, l);
    Assoc(i, a, g);
    Assoc(s, i + a + g, l);
    Assoc(s, i + a, g);
    Assoc(s, i, a);
    Assoc(o, s + i + a + g, l);
    Assoc(o, s + i + a, g);
    Assoc(o, s + i, a);
    Assoc(o, s, i);
    Assoc(p, o + s + i + a + g, l);
    Assoc(p, o + s + i + a, g);
    Assoc(p, o + s + i, a);
    Assoc(p, o + s, i);
    Assoc(p, o, s);
  }

  /** Lengths of the parts that do not depend on anything but the type and whether
      there is an annex. */
  lemma PartLengths(c: SigContext, hashType: nat)
    requires Widths(c) && SigMessage(c, hashType).Ok?
    ensures |Preamble(c, hashType)| == if hashType < 0x80 then 138 else 10
    ensures OutputsPart(c, hashType).Ok?
    ensures |OutputsPart(c, hashType).value| == if hashType in {0, 1, 0x81} then 32 else 0
    ensures |AnnexPart(c)| == if c.annex == [] then 0 else 32
    ensures SinglePart(c, hashType).Ok? && |SinglePart(c, hashType).value| == if hashType in {3, 0x83} then 32 else 0
    ensures |LeafPart(c)| == 37
    ensures hashType in {0, 1, 2, 3, 0x81, 0x82, 0x83}
  {
    hide MaskedOuts, WriteOuts, WriteTxOut, InputPart, WriteVarBytes;
  }

  // ---- the parts commit ----

  lemma WordsEqual(m: nat, n: nat)
    requires m < 0x1_0000_0000 && n < 0x1_0000_0000
    ensures LeBytes(m, 4) == LeBytes(n, 4) <==> m == n
  {
    WidthBounds();
    LeNatOfLeBytes(m, 4);
    LeNatOfLeBytes(n, 4);
  }

  lemma VersionsEqual(m: int, n: int)
    requires -0x8000_0000 <= m < 0x8000_0000 && -0x8000_0000 <= n < 0x8000_0000
    ensures LeBytes(m % 0x1_0000_0000, 4) == LeBytes(n % 0x1_0000_0000, 4) <==> m == n
  {
    WordsEqual(m % 0x1_0000_0000, n % 0x1_0000_0000);
    hide LeBytes;
  }

  /** Equal strings of equal parts, and the other way. */
  lemma Joined(a: Bytes, b: Bytes, c: Bytes, d: Bytes)
    requires |a| == |c|
    ensures a + b == c + d <==> a == c && b == d
  {
    if a + b == c + d {
      SplitSame(a, b, c, d);
    }
  }

  lemma PreambleCommits(c: SigContext, c': SigContext, hashType: nat)
    requires Widths(c) && Widths(c') && hashType in {0, 1, 2, 3, 0x81, 0x82, 0x83}
    ensures Preamble(c, hashType) == Preamble(c', hashType) <==>
              && c.tx.version == c'.tx.version && c.tx.lockTime == c'.tx.lockTime
              && (hashType < 0x80 ==> c.midstates(c.tx.ins) == c'.midstates(c'.tx.ins))
  {
    hide LeBytes;
    var head := [0, (hashType % 256) as byte];
    var v, v' := LeBytes(c.tx.version % 0x1_0000_0000, 4), LeBytes(c'.tx.version % 0x1_0000_0000, 4);
    var t, t' := LeBytes(c.tx.lockTime, 4), LeBytes(c'.tx.lockTime, 4);
    var m := if hashType < 0x80 then c.midstates(c.tx.ins) else [];
    var m' := if hashType < 0x80 then c'.midstates(c'.tx.ins) else [];
    assert Preamble(c, hashType) == head + v + t + m && Preamble(c', hashType) == head + v' + t' + m';
    Joined(head + v + t, m, head + v' + t', m');
    Joined(head + v, t, head + v', t');
    Joined(head, v, head, v');
    VersionsEqual(c.tx.version, c'.tx.version);
    WordsEqual(c.tx.lockTime, c'.tx.lockTime);
  }

  lemma OutCommits(out: TxOut, out': TxOut)
    requires Int64Values([out]) && Int64Values([out'])
    ensures WriteTxOut(out) == WriteTxOut(out') <==> out == out'
  {
    hide WriteTxOut, LeNat, ReadVarInt, Word64;
    if WriteTxOut(out) == WriteTxOut(out') {
      TxOutRead(out, []);
      TxOutRead(out', []);
      assert out in [out] && out' in [out'];
      SameWord(out.value, out'.value);
      assert out.pkScript + [] == out'.pkScript + [];
      assert out.pkScript + [] == out.pkScript && out'.pkScript + [] == out'.pkScript;
    }
  }

  /** The input of an anyone-can-pay message, in four parts. */
  function InputBytes(input: TxIn, prev: TxOut): Bytes {
    input.prevOut.hash + LeBytes(input.prevOut.index, 4) + WriteTxOut(prev) + LeBytes(input.sequence, 4)
  }

  lemma InputBytesCommit(input: TxIn, prev: TxOut, input': TxIn, prev': TxOut)
    requires |input.prevOut.hash| == |input'.prevOut.hash| && Int64Values([prev]) && Int64Values([prev'])
    requires input.prevOut.index < 0x1_0000_0000 && input.sequence < 0x1_0000_0000
    requires input'.prevOut.index < 0x1_0000_0000 && input'.sequence < 0x1_0000_0000
    requires |InputBytes(input, prev)| == |InputBytes(input', prev')|
    ensures InputBytes(input, prev) == InputBytes(input', prev') <==>
              input.prevOut == input'.prevOut && input.sequence == input'.sequence && prev == prev'
  {
    hide LeBytes, WriteTxOut, Int64Values;
    var h, h' := input.prevOut.hash, input'.prevOut.hash;
    var i, i' := LeBytes(input.prevOut.index, 4), LeBytes(input'.prevOut.index, 4);
    var w, w' := WriteTxOut(prev), WriteTxOut(prev');
    var q, q' := LeBytes(input.sequence, 4), LeBytes(input'.sequence, 4);
    Joined(h + i + w, q, h' + i' + w', q');
    Joined(h + i, w, h' + i', w');
    Joined(h, i, h', i');
    WordsEqual(input.prevOut.index, input'.prevOut.index);
    WordsEqual(input.sequence, input'.sequence);
    OutCommits(prev, prev');
  }

  lemma InputCommits(c: SigContext, c': SigContext, hashType: nat)
    requires Widths(c) && Widths(c') && hashType in {0, 1, 2, 3, 0x81, 0x82, 0x83}
    requires c.txIdx < |c.tx.ins| && c'.txIdx < |c'.tx.ins|
    requires InputPart(c, hashType).Ok? && InputPart(c', hashType).Ok?
    requires |InputPart(c, hashType).value| == |InputPart(c', hashType).value|
    ensures InputPart(c, hashType).value == InputPart(c', hashType).value <==>
              if hashType < 0x80 then c.txIdx == c'.txIdx
              else
                var input, input' := c.tx.ins[c.txIdx], c'.tx.ins[c'.txIdx];
                && input.prevOut == input'.prevOut && input.sequence == input'.sequence
                && c.fetchPrevOut(input.prevOut) == c'.fetchPrevOut(input'.prevOut)
  {
    hide LeBytes, WriteTxOut;
    WordsEqual(c.txIdx, c'.txIdx);
    if hashType >= 0x80 {
      var input, input' := c.tx.ins[c.txIdx], c'.tx.ins[c'.txIdx];
      var prev, prev' := c.fetchPrevOut(input.prevOut).value, c'.fetchPrevOut(input'.prevOut).value;
      assert InputPart(c, hashType).value == InputBytes(input, prev);
      assert InputPart(c', hashType).value == InputBytes(input', prev');
      InputBytesCommit(input, prev, input', prev');
    }
  }

  lemma LeafCommits(c: SigContext, c': SigContext)
    requires Widths(c) && Widths(c')
    ensures LeafPart(c) == LeafPart(c') <==> c.leafHash == c'.leafHash && c.codeSepPos == c'.codeSepPos
  {
    hide LeBytes;
    var q, q' := LeBytes(c.codeSepPos, 4), LeBytes(c'.codeSepPos, 4);
    Joined(c.leafHash + [0], q, c'.leafHash + [0], q');
    Joined(c.leafHash, [0], c'.leafHash, [0]);
    WordsEqual(c.codeSepPos, c'.codeSepPos);
  }

  lemma AllOutsCommit(c: SigContext, c': SigContext, hashType: nat)
    requires hashType in {0, 1, 2, 3, 0x81, 0x82, 0x83}
    requires OutputsPart(c, hashType).Ok? && OutputsPart(c', hashType).Ok?
    ensures (hashType in {0, 1, 0x81} ==>
               MaskedOuts(c.tx.outs).Ok? && MaskedOuts(c'.tx.outs).Ok? && SameOutputHash(c, c', hashType))
            <==> OutputsPart(c, hashType).value == OutputsPart(c', hashType).value
  {
    hide MaskedOuts, WriteOuts;
  }

  lemma OneOutCommits(c: SigContext, c': SigContext, hashType: nat)
    requires hashType in {0, 1, 2, 3, 0x81, 0x82, 0x83}
    requires SinglePart(c, hashType).Ok? && SinglePart(c', hashType).Ok?
    ensures (hashType in {3, 0x83} ==>
               && MaskedOuts(c.tx.outs).Ok? && MaskedOuts(c'.tx.outs).Ok?
               && c.txIdx < |MaskedOuts(c.tx.outs).value| && c'.txIdx < |MaskedOuts(c'.tx.outs).value|
               && SameSingleHash(c, c'))
            <==> SinglePart(c, hashType).value == SinglePart(c', hashType).value
  {
    hide MaskedOuts, WriteTxOut;
    MaskedLength(c.tx.outs);
    MaskedLength(c'.tx.outs);
  }

  lemma OutsCommit(c: SigContext, c': SigContext, hashType: nat)
    requires SigMessage(c, hashType).Ok? && SigMessage(c', hashType).Ok?
    ensures OutputsPart(c, hashType).Ok? && OutputsPart(c', hashType).Ok?
    ensures SinglePart(c, hashType).Ok? && SinglePart(c', hashType).Ok?
    ensures SameOuts(c, c', hashType) <==>
              && OutputsPart(c, hashType).value == OutputsPart(c', hashType).value
              && SinglePart(c, hashType).value == SinglePart(c', hashType).value
  {
    hide SigMessage, MaskedOuts, WriteOuts, WriteTxOut, InputPart, OutputsPart, SinglePart, SameOutputHash;
    hide SameSingleHash;
    MessageExists(c, hashType);
    NestedMessage(c, hashType);
    NestedMessage(c', hashType);
    AllOutsCommit(c, c', hashType);
    OneOutCommits(c, c', hashType);
  }

  // ---- the main result ----

  lemma SplitMessage(p: Bytes, o: Bytes, s: Bytes, i: Bytes, a: Bytes, g: Bytes, l: Bytes,
                     p': Bytes, o': Bytes, s': Bytes, i': Bytes, a': Bytes, g': Bytes, l': Bytes)
    requires |p| == |p'| && |o| == |o'| && |s| == |s'| && |g| == |g'| && |l| == |l'|
    requires s == s' ==> |a| == |a'|
    ensures p + (o + (s + (i + (a + (g + l))))) == p' + (o' + (s' + (i' + (a' + (g' + l')))))
            <==> p == p' && o == o' && s == s' && i == i' && a == a' && g == g' && l == l'
  {
    Joined(p, o + (s + (i + (a + (g + l)))), p', o' + (s' + (i' + (a' + (g' + l')))));
    Joined(o, s + (i + (a + (g + l))), o', s' + (i' + (a' + (g' + l'))));
    Joined(s, i + (a + (g + l)), s', i' + (a' + (g' + l')));
    if s == s' {
      if i + (a + (g + l)) == i' + (a' + (g' + l')) {
        assert |i| + |a + (g + l)| == |i'| + |a' + (g' + l')|;
        assert |i| == |i'|;
        Joined(i, a + (g + l), i', a' + (g' + l'));
        Joined(a, g + l, a', g' + l');
        Joined(g, l, g', l');
      }
    }
  }

  /** Two messages of one hash type are the same exactly when the fields the type
      commits to are the same; so it covers them, and nothing else. */
  lemma MessageCommits(c: SigContext, c': SigContext, hashType: nat)
    requires Widths(c) && Widths(c')
    requires SigMessage(c, hashType).Ok? && SigMessage(c', hashType).Ok?
    ensures c.txIdx < |c.tx.ins| && c'.txIdx < |c'.tx.ins|
    ensures SigMessage(c, hashType) == SigMessage(c', hashType) <==>
              SameSpend(c, c') && SameInputs(c, c', hashType) && SameOuts(c, c', hashType)
  {
    PartLengths(c, hashType);
    PartLengths(c', hashType);
    NestedMessage(c, hashType);
    NestedMessage(c', hashType);
    OutsCommit(c, c', hashType);
    SpendCommits(c, c');
    PreambleCommits(c, c', hashType);
    LeafCommits(c, c');
    hide SigMessage, Preamble, OutputsPart, InputPart, AnnexPart, SinglePart, LeafPart, Widths, SameOuts;
    SplitMessage(
      Preamble(c, hashType), OutputsPart(c, hashType).value, [SpendType(c)], InputPart(c, hashType).value,
      AnnexPart(c), SinglePart(c, hashType).value, LeafPart(c),
      Preamble(c', hashType), OutputsPart(c', hashType).value, [SpendType(c')], InputPart(c', hashType).value,
      AnnexPart(c'), SinglePart(c', hashType).value, LeafPart(c'));
    InputSame(c, c', hashType);
  }

  lemma SpendCommits(c: SigContext, c': SigContext)
    ensures [SpendType(c)] == [SpendType(c')] <==> (c.annex == [] <==> c'.annex == [])
    ensures (c.annex == [] <==> c'.annex == []) ==>
              (AnnexPart(c) == AnnexPart(c') <==>
                 (c.annex != [] ==> c.sha256(WriteVarBytes(c.annex)) == c'.sha256(WriteVarBytes(c'.annex))))
  {
    hide WriteVarBytes;
    assert [SpendType(c)][0] == SpendType(c) && [SpendType(c')][0] == SpendType(c');
  }

  /** Equal inputs are written alike, and equal writings are of equal inputs. */
  lemma InputSame(c: SigContext, c': SigContext, hashType: nat)
    requires Widths(c) && Widths(c') && hashType in {0, 1, 2, 3, 0x81, 0x82, 0x83}
    requires c.txIdx < |c.tx.ins| && c'.txIdx < |c'.tx.ins|
    requires InputPart(c, hashType).Ok? && InputPart(c', hashType).Ok?
    ensures InputPart(c, hashType).value == InputPart(c', hashType).value <==>
              if hashType < 0x80 then c.txIdx == c'.txIdx
              else
                var input, input' := c.tx.ins[c.txIdx], c'.tx.ins[c'.txIdx];
                && input.prevOut == input'.prevOut && input.sequence == input'.sequence
                && c.fetchPrevOut(input.prevOut) == c'.fetchPrevOut(input'.prevOut)
  {
    if |InputPart(c, hashType).value| == |InputPart(c', hashType).value| {
      InputCommits(c, c', hashType);
    } else {
      hide LeBytes, WriteTxOut;
    }
  }
}
