/** The byte formats of an Ark extension output: compact sizes, uvarints, data
    pushes, and the packet list inside the push. The browser codec spells these
    formats out; the Go side reaches them through a library. */
module ExtensionFormat {
  import opened Common

  datatype Packet = Packet(typ: byte, data: Bytes)

  const OP_RETURN: byte := 0x6a
  const ARK_MAGIC: Bytes := [0x41, 0x52, 0x4b]
  const UVARINT_BYTES: nat := 10

  /** A value read from the front of some bytes, and the bytes after it. */
  type Parsed<T> = Option<(T, Bytes)>

  function Take(s: Bytes, n: nat): Parsed<Bytes> {
    if n <= |s| then Some((s[..n], s[n..])) else None
  }

  // ---- compact sizes ----

  function WriteCompactSize(n: nat): Option<Bytes> {
    if n < 0xfd then Some([n as byte])
    else if n <= 0xffff then Some([0xfd] + LeBytes(n, 2))
    else if n <= 0xffff_ffff then Some([0xfe] + LeBytes(n, 4))
    else None
  }

  function CompactSizeWidth(n: nat): nat {
    if n < 0xfd then 1 else if n <= 0xffff then 3 else 5
  }

  /** Reads any width, including ones longer than needed. */
  function ReadCompactSize(s: Bytes): Parsed<nat> {
    if s == [] then None
    else if s[0] < 0xfd then Some((s[0] as nat, s[1..]))
    else if s[0] == 0xfd then
      if |s| < 3 then None else Some((LeNat(s[1..3]), s[3..]))
    else if s[0] == 0xfe then
      if |s| < 5 then None else Some((LeNat(s[1..5]), s[5..]))
    else None
  }

  lemma ReadWrittenCompactSize(n: nat, rest: Bytes)
    requires WriteCompactSize(n).Some?
    ensures |WriteCompactSize(n).value| == CompactSizeWidth(n)
    ensures ReadCompactSize(WriteCompactSize(n).value + rest) == Some((n, rest))
  {
    WidthBounds();
    var w := WriteCompactSize(n).value;
    if n >= 0xfd {
      var k := if n <= 0xffff then 2 else 4;
      LeNatOfLeBytes(n, k);
      hide LeNat, LeBytes;
      assert (w + rest)[1..1 + k] == LeBytes(n, k);
      assert (w + rest)[1 + k..] == rest;
    }
  }

  // ---- uvarints ----

  function WriteUvarint(n: nat): Bytes {
    if n < 128 then [n as byte] else [(n % 128 + 128) as byte] + WriteUvarint(n / 128)
  }

  function ReadUvarint(s: Bytes, budget: nat): Parsed<nat> {
    if budget == 0 || s == [] then None
    else if s[0] < 128 then Some((s[0] as nat, s[1..]))
    else
      match ReadUvarint(s[1..], budget - 1)
      case None => None
      case Some((v, rest)) => Some((s[0] as nat - 128 + 128 * v, rest))
  }

  lemma {:induction false} ReadWrittenUvarint(n: nat, budget: nat, rest: Bytes)
    requires |WriteUvarint(n)| <= budget
    ensures ReadUvarint(WriteUvarint(n) + rest, budget) == Some((n, rest))
  {
    if n >= 128 {
      ReadWrittenUvarint(n / 128, budget - 1, rest);
      assert (WriteUvarint(n) + rest)[1..] == WriteUvarint(n / 128) + rest;
    }
  }

  /** Every length a push can hold fits three uvarint bytes. */
  lemma UvarintWidth(n: nat)
    ensures n < 0x80 ==> |WriteUvarint(n)| == 1
    ensures 0x80 <= n < 0x4000 ==> |WriteUvarint(n)| == 2
    ensures 0x4000 <= n <= 0xffff ==> |WriteUvarint(n)| == 3
  {
    if 0x80 <= n <= 0xffff {
      assert WriteUvarint(n)[1..] == WriteUvarint(n / 128);
      if n >= 0x4000 {
        assert WriteUvarint(n / 128)[1..] == WriteUvarint(n / 128 / 128);
      }
    }
  }

  // ---- pushes ----

  function WritePush(data: Bytes): Option<Bytes> {
    if |data| < 76 then Some([|data| as byte] + data)
    else if |data| <= 0xff then Some([0x4c, |data| as byte] + data)
    else if |data| <= 0xffff then Some([0x4d] + LeBytes(|data|, 2) + data)
    else None
  }

  function ReadPush(s: Bytes): Parsed<Bytes> {
    if s == [] then None
    else if 0 < s[0] < 76 then Take(s[1..], s[0] as nat)
    else if s[0] == 0x4c then
      if |s| < 2 then None else Take(s[2..], s[1] as nat)
    else if s[0] == 0x4d then
      if |s| < 3 then None else Take(s[3..], LeNat(s[1..3]))
    else None
  }

  lemma TakeWritten(data: Bytes, rest: Bytes)
    ensures Take(data + rest, |data|) == Some((data, rest))
  {
  }

  lemma ReadWrittenPush(data: Bytes, rest: Bytes)
    requires data != [] && WritePush(data).Some?
    ensures ReadPush(WritePush(data).value + rest) == Some((data, rest))
  {
    var w := WritePush(data).value;
    var k := if |data| < 76 then 1 else if |data| <= 0xff then 2 else 3;
    if k == 3 {
      WidthBounds();
      LeNatOfLeBytes(|data|, 2);
      hide LeNat, LeBytes;
      assert (w + rest)[1..3] == LeBytes(|data|, 2);
    }
    assert (w + rest)[k..] == data + rest;
    TakeWritten(data, rest);
  }

  // ---- extensions ----

  function EncodePacket(p: Packet): Bytes {
    [p.typ] + WriteUvarint(|p.data|) + p.data
  }

  function EncodePackets(ps: seq<Packet>): Bytes {
    if ps == [] then [] else EncodePacket(ps[0]) + EncodePackets(ps[1..])
  }

  function EncodeExtension(ps: seq<Packet>): Option<Bytes> {
    match WritePush(ARK_MAGIC + EncodePackets(ps))
    case None => None
    case Some(push) => Some([OP_RETURN] + push)
  }

  function ParsePacket(s: Bytes): Parsed<Packet>
    requires s != []
  {
    match ReadUvarint(s[1..], UVARINT_BYTES)
    case None => None
    case Some((size, rest)) =>
      match Take(rest, size)
      case None => None
      case Some((data, tail)) => Some((Packet(s[0], data), tail))
  }

  lemma {:induction false} UvarintShrinks(s: Bytes, budget: nat)
    ensures ReadUvarint(s, budget).Some? ==> |ReadUvarint(s, budget).value.1| < |s|
  {
    if budget > 0 && s != [] {
      UvarintShrinks(s[1..], budget - 1);
    }
  }

  function ParsePackets(s: Bytes): Option<seq<Packet>>
    decreases |s|
  {
    if s == [] then Some([])
    else
      (UvarintShrinks(s[1..], UVARINT_BYTES);
       match ParsePacket(s)
       case None => None
       case Some((p, rest)) =>
         match ParsePackets(rest)
         case None => None
         case Some(ps) => Some([p] + ps))
  }

  predicate DistinctTypes(ps: seq<Packet>) {
    forall i, j :: 0 <= i < j < |ps| ==> ps[i].typ != ps[j].typ
  }

  /** The pushed payload of an output script that is OP_RETURN and one push. */
  function PushedPayload(script: Bytes): Option<Bytes> {
    if script == [] || script[0] != OP_RETURN then None
    else
      match ReadPush(script[1..])
      case None => None
      case Some((data, rest)) => if rest == [] then Some(data) else None
  }

  predicate IsExtension(script: Bytes) {
    PushedPayload(script).Some? && ARK_MAGIC <= PushedPayload(script).value
  }

  function ParseExtension(script: Bytes): Option<seq<Packet>> {
    if !IsExtension(script) then None
    else
      match ParsePackets(PushedPayload(script).value[3..])
      case None => None
      case Some(ps) => if ps != [] && DistinctTypes(ps) then Some(ps) else None
  }

  lemma ParseEncodedPacket(p: Packet, rest: Bytes)
    requires |p.data| <= 0xffff
    ensures ParsePacket(EncodePacket(p) + rest) == Some((p, rest))
  {
    UvarintWidth(|p.data|);
    ReadWrittenUvarint(|p.data|, UVARINT_BYTES, p.data + rest);
    var s := EncodePacket(p) + rest;
    assert s[1..] == WriteUvarint(|p.data|) + (p.data + rest);
    TakeWritten(p.data, rest);
  }

  lemma {:induction false} ParseEncodedPackets(ps: seq<Packet>)
    requires |EncodePackets(ps)| <= 0xffff
    ensures ParsePackets(EncodePackets(ps)) == Some(ps)
  {
    if ps != [] {
      ParseEncodedPacket(ps[0], EncodePackets(ps[1..]));
      ParseEncodedPackets(ps[1..]);
      assert ps == [ps[0]] + ps[1..];
    }
  }

  /** Parsing undoes encoding on every list of packets with distinct types. */
  lemma ParseEncodedExtension(ps: seq<Packet>)
    requires ps != [] && DistinctTypes(ps) && EncodeExtension(ps).Some?
    ensures IsExtension(EncodeExtension(ps).value)
    ensures ParseExtension(EncodeExtension(ps).value) == Some(ps)
  {
    var body := ARK_MAGIC + EncodePackets(ps);
    var push := WritePush(body).value;
    var script := [OP_RETURN] + push;
    ReadWrittenPush(body, []);
    assert push + [] == push && script[1..] == push;
    assert body[3..] == EncodePackets(ps);
    ParseEncodedPackets(ps);
  }
}
