/** The byte formats spelled out, and what the packet readers accept. */
module FormatLaws {
  import opened Common
  import opened ScriptErrors
  import opened ExtensionFormat
  import opened Tokenizers
  import opened Transactions
  import EP = EmulatorPackets
  import WebCodec

  // ---- little-endian words ----

  lemma TwoByteWord(n: nat)
    requires n <= 0xffff
    ensures LeBytes(n, 2) == [(n % 256) as byte, (n / 256) as byte]
  {
    assert LeBytes(n / 256, 1) == [(n / 256 % 256) as byte] + LeBytes(n / 256 / 256, 0);
  }

  lemma FourByteWord(n: nat)
    requires n <= 0xffff_ffff
    ensures LeBytes(n, 4) == [(n % 256) as byte, (n / 256 % 256) as byte,
                              (n / 0x1_0000 % 256) as byte, (n / 0x100_0000) as byte]
  {
    var a, b, c := n / 256, n / 256 / 256, n / 256 / 256 / 256;
    assert b == n / 0x1_0000 && c == n / 0x100_0000;
    assert LeBytes(c, 1) == [(c % 256) as byte] + LeBytes(c / 256, 0);
    assert LeBytes(b, 2) == [(b % 256) as byte] + LeBytes(c, 1);
    assert LeBytes(a, 3) == [(a % 256) as byte] + LeBytes(b, 2);
  }

  // ---- tokens ----

  /** A direct push, the three counted pushes, and an opcode without data. */
  lemma TokenBytes(op: byte, data: Bytes)
    ensures 1 <= op <= 75 && |data| == op as int ==> EncodeToken(Token(op, data)) == [op] + data
    ensures |data| <= 0xff ==> EncodeToken(Token(0x4c, data)) == [0x4c, |data| as byte] + data
    ensures |data| <= 0xffff ==>
              EncodeToken(Token(0x4d, data)) == [0x4d, (|data| % 256) as byte, (|data| / 256) as byte] + data
    ensures |data| < 0x8000_0000 ==>
              EncodeToken(Token(0x4e, data)) ==
              [0x4e, (|data| % 256) as byte, (|data| / 256 % 256) as byte,
               (|data| / 0x1_0000 % 256) as byte, (|data| / 0x100_0000) as byte] + data
    ensures op == 0 || op > 0x4e ==> EncodeToken(Token(op, [])) == [op]
  {
    if |data| <= 0xff {
      assert LeBytes(|data|, 1) == [(|data| % 256) as byte] + LeBytes(|data| / 256, 0);
    }
    if |data| <= 0xffff {
      TwoByteWord(|data|);
    }
    if |data| < 0x8000_0000 {
      FourByteWord(|data|);
    }
    hide LeBytes;
  }

  /** Those are exactly the tokens: an opcode of one to 75 has that many bytes, the
      counted pushes any number their count can hold, and the others none. */
  lemma TokensAre(t: Token)
    ensures WellFormed(t) <==>
              if 1 <= t.op <= 75 then |t.data| == t.op as int
              else if t.op == 0x4c then |t.data| <= 0xff
              else if t.op == 0x4d then |t.data| <= 0xffff
              else if t.op == 0x4e then |t.data| < 0x8000_0000
              else t.data == []
  {
  }

  // ---- sizes ----

  /** Canonical variable-length integers of the packet. */
  lemma VarIntBytes(n: nat)
    ensures n < 0xfd ==> EP.WriteVarInt(n) == [n as byte]
    ensures 0xfd <= n <= 0xffff ==> EP.WriteVarInt(n) == [0xfd, (n % 256) as byte, (n / 256) as byte]
    ensures 0x1_0000 <= n <= 0xffff_ffff ==>
              EP.WriteVarInt(n) == [0xfe, (n % 256) as byte, (n / 256 % 256) as byte,
                                    (n / 0x1_0000 % 256) as byte, (n / 0x100_0000) as byte]
  {
    if n <= 0xffff {
      TwoByteWord(n);
    } else if n <= 0xffff_ffff {
      FourByteWord(n);
    }
    hide LeBytes;
  }

  /** The browser writes the same sizes. */
  lemma CompactSizeBytes(n: nat)
    ensures n <= 0xffff_ffff ==> WriteCompactSize(n) == Some(EP.WriteVarInt(n))
    ensures n > 0xffff_ffff ==> WriteCompactSize(n) == None
  {
  }

  /** Unsigned varints: seven bits a byte, low bits first, the high bit on all but
      the last byte. */
  lemma UvarintBytes(n: nat)
    ensures n < 0x80 ==> WriteUvarint(n) == [n as byte]
    ensures 0x80 <= n < 0x4000 ==> WriteUvarint(n) == [(n % 128 + 128) as byte, (n / 128) as byte]
    ensures 0x4000 <= n < 0x20_0000 ==>
              WriteUvarint(n) == [(n % 128 + 128) as byte, (n / 128 % 128 + 128) as byte, (n / 0x4000) as byte]
  {
    if n >= 0x80 {
      assert WriteUvarint(n) == [(n % 128 + 128) as byte] + WriteUvarint(n / 128);
      if n >= 0x4000 {
        assert n / 128 / 128 == n / 0x4000;
        assert WriteUvarint(n / 128) == [(n / 128 % 128 + 128) as byte] + WriteUvarint(n / 128 / 128);
      }
    }
  }

  // ---- the packet output ----

  /** One entry: index, script and stack, each with its length. */
  lemma EntryBytes(vin: nat, script: Bytes, stack: seq<Bytes>, empty: Bytes)
    requires vin <= 0xffff
    ensures EP.WriteContent([EP.Entry(vin, script, stack)], empty) ==
            [1, (vin % 256) as byte, (vin / 256) as byte] + EP.WriteVarInt(|script|) + script
            + (var blob := EP.WriteStack(stack, empty); EP.WriteVarInt(|blob|) + blob)
  {
    hide EP.WriteStack, EP.WriteVarInt;
    var es := [EP.Entry(vin, script, stack)];
    assert es[1..] == [];
    TwoByteWord(vin);
    VarIntBytes(1);
    hide LeBytes;
    var word, sized := LeBytes(vin, 2), EP.WriteVarBytes(script);
    var blob := EP.WriteVarBytes(EP.WriteStack(stack, empty));
    assert EP.WriteEntries(es, empty) == (word + sized + blob) + [] == word + sized + blob;
    assert [1] + word == [1, (vin % 256) as byte, (vin / 256) as byte];
    Assoc([1], word + sized, blob);
    Assoc([1], word, sized);
    Assoc([1] + word, EP.WriteVarInt(|script|), script);
  }

  /** A stack of one item. */
  lemma StackBytes(item: Bytes, empty: Bytes)
    ensures EP.WriteStack([item], empty) == [1] + EP.WriteVarInt(|item|) + item
    ensures EP.WriteStack([], empty) == empty
  {
    assert [item][1..] == [];
    VarIntBytes(1);
    assert EP.WriteItems([item]) == EP.WriteVarBytes(item) + [];
    hide EP.WriteVarInt;
    Assoc([1], EP.WriteVarInt(|item|), item);
  }

  /** An extension of one packet: OP_RETURN, one push, the magic, type and length. */
  lemma ExtensionBytes(typ: byte, data: Bytes)
    requires |data| <= 0x8000
    ensures var body := [0x41, 0x52, 0x4b, typ] + WriteUvarint(|data|) + data;
            && (|body| < 76 ==> EncodeExtension([Packet(typ, data)]) == Some([0x6a, |body| as byte] + body))
            && (76 <= |body| <= 0xff ==>
                  EncodeExtension([Packet(typ, data)]) == Some([0x6a, 0x4c, |body| as byte] + body))
            && (0xff < |body| <= 0xffff ==>
                  EncodeExtension([Packet(typ, data)]) ==
                  Some([0x6a, 0x4d, (|body| % 256) as byte, (|body| / 256) as byte] + body))
  {
    var ps := [Packet(typ, data)];
    assert ps[1..] == [];
    hide WriteUvarint;
    var body := [0x41, 0x52, 0x4b, typ] + WriteUvarint(|data|) + data;
    assert EncodePackets(ps) == EncodePacket(ps[0]) + [] == EncodePacket(ps[0]);
    assert ARK_MAGIC + EncodePackets(ps) == body;
    PushBytes(body);
    hide WritePush;
    if |body| < 76 {
      assert [0x6a] + ([|body| as byte] + body) == [0x6a, |body| as byte] + body;
    } else if |body| <= 0xff {
      assert [0x6a] + ([0x4c, |body| as byte] + body) == [0x6a, 0x4c, |body| as byte] + body;
    } else if |body| <= 0xffff {
      var low, high := (|body| % 256) as byte, (|body| / 256) as byte;
      assert [0x6a] + ([0x4d, low, high] + body) == [0x6a, 0x4d, low, high] + body;
    }
  }

  lemma PushBytes(body: Bytes)
    ensures |body| < 76 ==> WritePush(body) == Some([|body| as byte] + body)
    ensures 76 <= |body| <= 0xff ==> WritePush(body) == Some([0x4c, |body| as byte] + body)
    ensures 0xff < |body| <= 0xffff ==>
              WritePush(body) == Some([0x4d, (|body| % 256) as byte, (|body| / 256) as byte] + body)
  {
    if 0xff < |body| <= 0xffff {
      TwoByteWord(|body|);
      hide LeBytes;
      var low, high := (|body| % 256) as byte, (|body| / 256) as byte;
      assert [0x4d] + [low, high] == [0x4d, low, high];
      assert WritePush(body) == Some([0x4d] + LeBytes(|body|, 2) + body);
    }
  }

  // ---- what the readers accept ----

  /** A list of one to a thousand entries, of different inputs, none with an empty
      script: the packets there are. */
  predicate PacketList(es: seq<EP.Entry>) {
    && 1 <= |es| <= 1000
    && (forall i :: 0 <= i < |es| ==> es[i].script != [])
    && (forall i, j :: 0 <= i < j < |es| ==> es[i].vin != es[j].vin)
  }

  /** Whatever bytes are read, the entries are such a list, within the limits on
      index, script, stack and total. */
  lemma OnlyPacketsRead(data: Bytes) returns (blobs: seq<Bytes>)
    requires EP.ReadContent(data).Ok?
    ensures var es := EP.ReadContent(data).value;
            && PacketList(es) && |blobs| == |es|
            && (forall i :: 0 <= i < |es| ==>
                  es[i].vin <= 0xffff && |es[i].script| <= 10_000 && |blobs[i]| <= 1_000_000)
            && EP.BlobTotal(es, blobs) <= 1_010_000
  {
    hide EP.ReadContent, EP.WriteVarInt, EP.WriteBlobs, EP.Denotes;
    blobs := EP.AcceptedIsWritten(data);
  }

  /** And for entries whose fields fit, being such a list is enough. */
  lemma EveryPacketRead(es: seq<EP.Entry>, empty: Bytes)
    requires EP.PacketFits(es, empty) && EP.EmptyForm(empty)
    ensures EP.ReadContent(EP.WriteContent(es, empty)) == Ok(es) <==> PacketList(es)
  {
    hide EP.ReadContent, EP.WriteContent, EP.PacketFits, EP.EmptyForm;
    if PacketList(es) {
      EP.ReadWrittenContent(es, empty);
    }
    if EP.ReadContent(EP.WriteContent(es, empty)) == Ok(es) {
      var blobs := OnlyPacketsRead(EP.WriteContent(es, empty));
    }
  }

  /** An extension output is OP_RETURN and one push, direct or counted by one or two
      bytes, of a payload that starts with the magic. */
  lemma ExtensionMeans(script: Bytes, payload: Bytes)
    requires [0x41, 0x52, 0x4b] <= payload
    ensures |payload| < 76 && script == [0x6a, |payload| as byte] + payload ==> IsExtension(script)
    ensures |payload| <= 0xff && script == [0x6a, 0x4c, |payload| as byte] + payload ==> IsExtension(script)
    ensures |payload| <= 0xffff
            && script == [0x6a, 0x4d, (|payload| % 256) as byte, (|payload| / 256) as byte] + payload ==>
              IsExtension(script)
  {
    hide ReadPush, IsExtension;
    PushRead(payload);
    if |payload| < 76 && script == [0x6a, |payload| as byte] + payload {
      assert script[1..] == [|payload| as byte] + payload;
      PushedExtension(script, payload);
    }
    if |payload| <= 0xff && script == [0x6a, 0x4c, |payload| as byte] + payload {
      assert script[1..] == [0x4c, |payload| as byte] + payload;
      PushedExtension(script, payload);
    }
    if |payload| <= 0xffff {
      var low, high := (|payload| % 256) as byte, (|payload| / 256) as byte;
      if script == [0x6a, 0x4d, low, high] + payload {
        assert script[1..] == [0x4d, low, high] + payload;
        PushedExtension(script, payload);
      }
    }
  }

  lemma PushedExtension(script: Bytes, payload: Bytes)
    requires script != [] && script[0] == 0x6a && ReadPush(script[1..]) == Some((payload, []))
    requires [0x41, 0x52, 0x4b] <= payload
    ensures IsExtension(script)
  {
    hide ReadPush;
  }

  lemma PushRead(data: Bytes)
    requires data != []
    ensures |data| < 76 ==> ReadPush([|data| as byte] + data) == Some((data, []))
    ensures |data| <= 0xff ==> ReadPush([0x4c, |data| as byte] + data) == Some((data, []))
    ensures |data| <= 0xffff ==>
              ReadPush([0x4d, (|data| % 256) as byte, (|data| / 256) as byte] + data) == Some((data, []))
  {
    TakeAll(data);
    hide Take;
    if |data| < 76 {
      assert ([|data| as byte] + data)[1..] == data;
    }
    if |data| <= 0xff {
      assert ([0x4c, |data| as byte] + data)[2..] == data;
    }
    if |data| <= 0xffff {
      var low, high := (|data| % 256) as byte, (|data| / 256) as byte;
      var s := [0x4d, low, high] + data;
      assert s[3..] == data && s[1..3] == [low, high];
      assert [low, high][1..] == [high] && [high][1..] == [];
      assert LeNat([low, high]) == low as int + 256 * LeNat([high]);
      assert LeNat([high]) == high as int + 256 * LeNat([]);
      hide LeNat;
      assert ReadPush(s) == Take(data, |data|);
    }
  }

  lemma TakeAll(data: Bytes)
    ensures Take(data, |data|) == Some((data, []))
  {
    assert data[..|data|] == data && data[|data|..] == [];
  }

  /** Conversely, nothing else is one; and its packets, if it parses, are of
      different types and at least one. */
  lemma ExtensionOnly(script: Bytes)
    requires IsExtension(script)
    ensures |script| >= 5 && script[0] == 0x6a
    ensures exists n :: 2 <= n <= 4 && n <= |script| && [0x41, 0x52, 0x4b] <= script[n..]
                        && (n == 2 ==> |script| == 2 + script[1] as int && 0 < script[1] < 76)
                        && (n == 3 ==> script[1] == 0x4c && |script| == 3 + script[2] as int)
                        && (n == 4 ==> script[1] == 0x4d && |script| == 4 + LeNat(script[2..4]))
    ensures ParseExtension(script).Some? ==>
              ParseExtension(script).value != []
              && forall i, j :: 0 <= i < j < |ParseExtension(script).value| ==>
                   ParseExtension(script).value[i].typ != ParseExtension(script).value[j].typ
  {
    hide ParsePackets, LeNat;
    var rest := script[1..];
    var n := if 0 < rest[0] < 76 then 2 else if rest[0] == 0x4c then 3 else 4;
    assert script[n..] == rest[n - 1..];
    if n == 4 {
      assert script[2..4] == rest[1..3];
    }
    var payload := PushedPayload(script).value;
    assert rest[n - 1..] == payload by {
      assert rest[n - 1..][..|payload|] == payload && rest[n - 1..][|payload|..] == [];
    }
    assert script[n..] == payload;
  }

  /** The browser accepts a script as an entry exactly when it is the one canonical
      output of an entry for input zero with a script, and with no item before it is
      bound and one after. */
  lemma CanonicalMeans(script: Bytes, expectEmpty: bool, e: WebCodec.WebEntry)
    ensures WebCodec.ParseCanonical(script, expectEmpty) == Some(e) <==>
              && e.vin == 0 && e.script != [] && |e.items| == (if expectEmpty then 0 else 1)
              && WebCodec.EncodeEntry(e).Some?
              && EncodeExtension([Packet(0x01, WebCodec.EncodeEntry(e).value)]) == Some(script)
  {
    hide WebCodec.ParseCanonical, EncodeExtension, WebCodec.EncodeEntry;
    WebCodec.CanonicalIsEncoding(script, expectEmpty, e);
  }

  // ---- the size of a transaction ----

  function WriteInput(i: TxIn): Bytes {
    i.prevOut.hash + LeBytes(i.prevOut.index, 4) + EP.WriteVarBytes(i.sigScript) + LeBytes(i.sequence, 4)
  }

  function WriteInputs(ins: seq<TxIn>): Bytes {
    if ins == [] then [] else WriteInput(ins[0]) + WriteInputs(ins[1..])
  }

  function WriteOutput(o: TxOut): Bytes {
    LeBytes(o.value % 0x1_0000_0000_0000_0000, 8) + EP.WriteVarBytes(o.pkScript)
  }

  function WriteOutputs(outs: seq<TxOut>): Bytes {
    if outs == [] then [] else WriteOutput(outs[0]) + WriteOutputs(outs[1..])
  }

  /** The wire form of a transaction without witnesses. */
  function WriteTx(tx: Tx): Bytes {
    LeBytes(tx.version % 0x1_0000_0000, 4)
    + EP.WriteVarInt(|tx.ins|) + WriteInputs(tx.ins) + EP.WriteVarInt(|tx.outs|) + WriteOutputs(tx.outs)
    + LeBytes(tx.lockTime, 4)
  }

  lemma VarIntSizes(n: nat)
    ensures |EP.WriteVarInt(n)| == VarIntSize(n)
  {
  }

  lemma {:induction false} InputSizes(ins: seq<TxIn>)
    requires forall i :: i in ins ==> |i.prevOut.hash| == 32
    ensures |WriteInputs(ins)| == InputsSize(ins)
  {
    hide EP.WriteVarInt, VarIntSize;
    if ins != [] {
      assert ins[0] in ins;
      VarIntSizes(|ins[0].sigScript|);
      InputSizes(ins[1..]);
    }
  }

  lemma {:induction false} OutputSizes(outs: seq<TxOut>)
    ensures |WriteOutputs(outs)| == OutputsSize(outs)
  {
    hide EP.WriteVarInt, VarIntSize;
    if outs != [] {
      VarIntSizes(|outs[0].pkScript|);
      OutputSizes(outs[1..]);
    }
  }

  /** The stripped size, which weight and feerates are computed from, is the length of
      the wire form. */
  lemma StrippedSizeIsLength(tx: Tx)
    requires forall i :: i in tx.ins ==> |i.prevOut.hash| == 32
    ensures StrippedSize(tx) == |WriteTx(tx)|
  {
    hide EP.WriteVarInt, VarIntSize, LeBytes, WriteInputs, WriteOutputs, InputsSize, OutputsSize;
    VarIntSizes(|tx.ins|);
    VarIntSizes(|tx.outs|);
    InputSizes(tx.ins);
    OutputSizes(tx.outs);
  }
}
