/** The browser's codec for the packet output: readers that walk a buffer by
    offset, encoders, and the canonical-form check built from both. */
module WebCodec {
  import opened Common
  import opened ExtensionFormat

  const PACKET_TYPE: byte := 0x01

  datatype WebEntry = WebEntry(vin: nat, script: Bytes, items: seq<Bytes>)

  // ---- encoders: None stands for a thrown error ----

  function Join(a: Option<Bytes>, b: Option<Bytes>): Option<Bytes> {
    if a.Some? && b.Some? then Some(a.value + b.value) else None
  }

  /** A compact size and the bytes it counts. */
  function WriteSized(b: Bytes): Option<Bytes> {
    Join(WriteCompactSize(|b|), Some(b))
  }

  function WriteAllSized(items: seq<Bytes>): Option<Bytes> {
    if items == [] then Some([]) else Join(WriteSized(items[0]), WriteAllSized(items[1..]))
  }

  /** writeTxWitness. */
  function WriteItems(items: seq<Bytes>): Option<Bytes> {
    Join(WriteCompactSize(|items|), WriteAllSized(items))
  }

  /** encodeEmulatorPacket: an empty stack takes no bytes at all. */
  function EncodeEntry(e: WebEntry): Option<Bytes> {
    var items := if e.items == [] then Some([]) else WriteItems(e.items);
    if items.None? then None
    else Join(Some([1] + LeBytes(e.vin, 2)), Join(WriteSized(e.script), WriteSized(items.value)))
  }

  // ---- readers ----

  function ReadSized(s: Bytes): Parsed<Bytes> {
    match ReadCompactSize(s)
    case None => None
    case Some((n, rest)) => Take(rest, n)
  }

  function ReadAllSized(s: Bytes, count: nat): Parsed<seq<Bytes>> {
    if count == 0 then Some(([], s))
    else
      match ReadSized(s)
      case None => None
      case Some((item, rest)) =>
        match ReadAllSized(rest, count - 1)
        case None => None
        case Some((items, tail)) => Some(([item] + items, tail))
  }

  /** readTxWitness. */
  function ReadItems(s: Bytes): Option<seq<Bytes>> {
    match ReadCompactSize(s)
    case None => None
    case Some((count, rest)) =>
      if count > |s| then None
      else
        match ReadAllSized(rest, count)
        case None => None
        case Some((items, tail)) => if tail == [] then Some(items) else None
  }

  /** parseEmulatorPacket. */
  function ParseEntry(data: Bytes): Option<WebEntry> {
    match ReadCompactSize(data)
    case None => None
    case Some((count, s)) =>
      if count != 1 || |s| < 2 then None
      else
        match ReadSized(s[2..])
        case None => None
        case Some((script, s2)) =>
          match ReadSized(s2)
          case None => None
          case Some((blob, s3)) =>
            if s3 != [] then None
            else if blob == [] then Some(WebEntry(LeNat(s[..2]), script, []))
            else
              match ReadItems(blob)
              case None => None
              case Some(items) => Some(WebEntry(LeNat(s[..2]), script, items))
  }

  // ---- the source's readers, by offset ----

  /** What a reader at some offset returns, against reading the rest of the buffer. */
  predicate Agrees<T(==)>(buf: Bytes, r: Option<(T, nat)>, p: Parsed<T>) {
    match p
    case None => r.None?
    case Some((v, rest)) => r.Some? && r.value.0 == v && r.value.1 <= |buf| && rest == buf[r.value.1..]
  }

  method ReadCompactSizeAt(buf: Bytes, off: nat) returns (r: Option<(nat, nat)>)
    requires off <= |buf|
    ensures Agrees(buf, r, ReadCompactSize(buf[off..]))
  {
    if off >= |buf| {
      return None;
    }
    var first := buf[off];
    if first < 0xfd {
      return Some((first as nat, off + 1));
    }
    if first == 0xfd {
      if off + 3 > |buf| {
        return None;
      }
      TwoBytes(buf[off..][1..3]);
      return Some((buf[off + 1] as nat + 0x100 * buf[off + 2] as nat, off + 3));
    }
    if first == 0xfe {
      if off + 5 > |buf| {
        return None;
      }
      FourBytes(buf[off..][1..5]);
      return Some((buf[off + 1] as nat + 0x100 * buf[off + 2] as nat + 0x1_0000 * buf[off + 3] as nat
                   + 0x100_0000 * buf[off + 4] as nat, off + 5));
    }
    return None;
  }

  lemma TwoBytes(b: Bytes)
    requires |b| == 2
    ensures LeNat(b) == b[0] as nat + 0x100 * b[1] as nat
  {
    assert b[1..][1..] == [];
    assert LeNat(b[1..]) == b[1] as nat;
  }

  lemma FourBytes(b: Bytes)
    requires |b| == 4
    ensures LeNat(b) == b[0] as nat + 0x100 * b[1] as nat + 0x1_0000 * b[2] as nat + 0x100_0000 * b[3] as nat
  {
    TwoBytes(b[2..]);
    assert b[1..][1..] == b[2..];
  }

  method ReadUvarintAt(buf: Bytes, off: nat) returns (r: Option<(nat, nat)>)
    requires off <= |buf|
    ensures Agrees(buf, r, ReadUvarint(buf[off..], UVARINT_BYTES))
  {
    var x: nat, unit: nat := 0, 1;
    for i := 0 to UVARINT_BYTES
      invariant off + i <= |buf| && unit > 0
      invariant ReadUvarint(buf[off..], UVARINT_BYTES) == Scaled(x, unit,
        ReadUvarint(buf[off + i..], UVARINT_BYTES - i))
    {
      if off + i >= |buf| {
        return None;
      }
      var b := buf[off + i];
      assert buf[off + i..][1..] == buf[off + i + 1..];
      if b < 0x80 {
        return Some((x + b as nat * unit, off + i + 1));
      }
      ScaledStep(x, unit, b as nat - 0x80, ReadUvarint(buf[off + i + 1..], UVARINT_BYTES - i - 1));
      x := x + (b as nat - 0x80) * unit;
      unit := unit * 0x80;
    }
    return None;
  }

  /** A value read behind some lower digits. */
  function Scaled(x: nat, unit: nat, p: Parsed<nat>): Parsed<nat> {
    match p
    case None => None
    case Some((v, rest)) => Some((x + v * unit, rest))
  }

  lemma ScaledStep(x: nat, unit: nat, digit: nat, p: Parsed<nat>)
    ensures Scaled(x, unit, match p case None => None case Some((v, rest)) => Some((digit + 128 * v, rest)))
            == Scaled(x + digit * unit, unit * 0x80, p)
  {
    if p.Some? {
      var v := p.value.0;
      assert (digit + 128 * v) * unit == digit * unit + v * (unit * 128);
    }
  }

  method WriteUvarintLoop(n: nat) returns (out: Bytes)
    ensures out == WriteUvarint(n)
  {
    out := [];
    var x := n;
    while x >= 0x80
      invariant WriteUvarint(n) == out + WriteUvarint(x)
      decreases x
    {
      Assoc(out, [(x % 0x80 + 0x80) as byte], WriteUvarint(x / 0x80));
      out := out + [(x % 0x80 + 0x80) as byte];
      x := x / 0x80;
    }
    out := out + [x as byte];
  }

  method ReadSizedAt(buf: Bytes, off: nat) returns (r: Option<(Bytes, nat)>)
    requires off <= |buf|
    ensures Agrees(buf, r, ReadSized(buf[off..]))
  {
    hide ReadCompactSize;
    var length := ReadCompactSizeAt(buf, off);
    if length.None? {
      return None;
    }
    var (n, start) := length.value;
    if n > |buf| - start {
      return None;
    }
    assert buf[start..][..n] == buf[start..start + n];
    assert buf[start..][n..] == buf[start + n..];
    return Some((buf[start..start + n], start + n));
  }

  method ReadTxItems(buf: Bytes) returns (r: Option<seq<Bytes>>)
    ensures r == ReadItems(buf)
  {
    hide ReadSized, ReadCompactSize;
    assert buf[0..] == buf;
    var count := ReadCompactSizeAt(buf, 0);
    if count.None? || count.value.0 > |buf| {
      return None;
    }
    var n: nat, off: nat := count.value.0, count.value.1;
    var items: seq<Bytes> := [];
    ghost var all := ReadAllSized(buf[off..], n);
    GatheredNothing(all);
    for i := 0 to n
      invariant off <= |buf|
      invariant all == Gathered(items, ReadAllSized(buf[off..], n - i))
    {
      var item := ReadSizedAt(buf, off);
      if item.None? {
        return None;
      }
      GatheredStep(items, item.value.0, ReadAllSized(buf[item.value.1..], n - i - 1));
      items := items + [item.value.0];
      off := item.value.1;
    }
    if off != |buf| {
      return None;
    }
    assert buf[off..] == [] && items + [] == items;
    return Some(items);
  }

  function Gathered<T>(done: seq<T>, p: Parsed<seq<T>>): Parsed<seq<T>> {
    match p
    case None => None
    case Some((more, rest)) => Some((done + more, rest))
  }

  lemma GatheredNothing<T>(p: Parsed<seq<T>>)
    ensures Gathered([], p) == p
  {
    if p.Some? {
      assert [] + p.value.0 == p.value.0;
    }
  }

  lemma GatheredStep<T>(done: seq<T>, x: T, p: Parsed<seq<T>>)
    ensures Gathered(done, match p case None => None case Some((more, rest)) => Some(([x] + more, rest)))
            == Gathered(done + [x], p)
  {
    if p.Some? {
      Assoc(done, [x], p.value.0);
    }
  }

  method ParseEmulatorPacket(data: Bytes) returns (r: Option<WebEntry>)
    ensures r == ParseEntry(data)
  {
    hide ReadSized, ReadCompactSize, ReadItems;
    assert data[0..] == data;
    var count := ReadCompactSizeAt(data, 0);
    if count.None? || count.value.0 != 1 {
      return None;
    }
    var off := count.value.1;
    if off + 2 > |data| {
      return None;
    }
    TwoBytes(data[off..][..2]);
    var vin := data[off] as nat + 0x100 * data[off + 1] as nat;
    assert data[off..][2..] == data[off + 2..];
    off := off + 2;
    var script := ReadSizedAt(data, off);
    if script.None? {
      return None;
    }
    var blob := ReadSizedAt(data, script.value.1);
    if blob.None? || blob.value.1 != |data| {
      return None;
    }
    if |blob.value.0| == 0 {
      return Some(WebEntry(vin, script.value.0, []));
    }
    var items := ReadTxItems(blob.value.0);
    if items.None? {
      return None;
    }
    return Some(WebEntry(vin, script.value.0, items.value));
  }

  method ParseExtensionPackets(script: Bytes) returns (r: Option<seq<Packet>>)
    ensures r == ParseExtension(script)
  {
    hide ParsePackets, PushedPayload;
    var payload := PushedPayload(script);
    if payload.None? || |payload.value| < 3 || payload.value[..3] != ARK_MAGIC {
      return None;
    }
    var packets := WalkPackets(payload.value);
    if packets.None? || |packets.value| == 0 {
      return None;
    }
    var ps := packets.value;
    var seen: set<byte> := {};
    for i := 0 to |ps|
      invariant forall t :: t in seen <==> exists j :: 0 <= j < i && ps[j].typ == t
      invariant DistinctTypes(ps[..i])
    {
      if ps[i].typ in seen {
        return None;
      }
      seen := seen + {ps[i].typ};
    }
    assert ps[..|ps|] == ps;
    return Some(ps);
  }

  /** The loop over the payload, after the magic bytes. */
  method WalkPackets(buf: Bytes) returns (r: Option<seq<Packet>>)
    requires |buf| >= 3
    ensures r == ParsePackets(buf[3..])
  {
    hide ReadUvarint, ParsePackets, ParsePacket;
    var off: nat := 3;
    var packets: seq<Packet> := [];
    NoPackets(ParsePackets(buf[3..]));
    while off < |buf|
      invariant 3 <= off <= |buf|
      invariant ParsePackets(buf[3..]) == PacketsAfter(packets, ParsePackets(buf[off..]))
    {
      OnePacket(buf, off);
      var typ := buf[off];
      var length := ReadUvarintAt(buf, off + 1);
      if length.None? {
        return None;
      }
      var size: nat, start: nat := length.value.0, length.value.1;
      if size > |buf| - start {
        return None;
      }
      var p := Packet(typ, buf[start..start + size]);
      PacketsStep(packets, p, ParsePackets(buf[start + size..]));
      packets := packets + [p];
      off := start + size;
    }
    assert buf[off..] == [];
    NothingLeft(packets);
    return Some(packets);
  }

  lemma NothingLeft(packets: seq<Packet>)
    ensures PacketsAfter(packets, ParsePackets([])) == Some(packets)
  {
    assert packets + [] == packets;
  }

  lemma NoPackets(more: Option<seq<Packet>>)
    ensures PacketsAfter([], more) == more
  {
    if more.Some? {
      assert [] + more.value == more.value;
    }
  }

  /** The packets from an offset, one packet at a time. */
  lemma OnePacket(buf: Bytes, off: nat)
    requires off < |buf|
    ensures match ReadUvarint(buf[off + 1..], UVARINT_BYTES)
            case None => ParsePackets(buf[off..]) == None
            case Some((size, rest)) =>
              var start := |buf| - |rest|;
              && off < start <= |buf| && rest == buf[start..]
              && if size > |rest| then ParsePackets(buf[off..]) == None
                 else
                   var more := ParsePackets(buf[start + size..]);
                   ParsePackets(buf[off..])
                   == if more.Some? then Some([Packet(buf[off], buf[start..start + size])] + more.value) else None
  {
    hide ReadUvarint, ParsePackets;
    var s := buf[off..];
    ParseStep(s);
    UvarintShrinks(s[1..], UVARINT_BYTES);
    UvarintSuffix(s[1..], UVARINT_BYTES);
    Suffix(buf, off, 1);
    var length := ReadUvarint(s[1..], UVARINT_BYTES);
    if length.Some? {
      var (size, rest) := length.value;
      var start := |buf| - |rest|;
      Suffix(buf, off + 1, |s[1..]| - |rest|);
      assert rest == buf[start..];
      if size <= |rest| {
        Slices(buf, start, size);
      }
    }
  }

  /** The first packet and the rest. */
  lemma ParseStep(s: Bytes)
    requires s != []
    ensures ParsePackets(s) ==
            match ReadUvarint(s[1..], UVARINT_BYTES)
            case None => None
            case Some((size, rest)) =>
              if size > |rest| then None
              else
                match ParsePackets(rest[size..])
                case None => None
                case Some(more) => Some([Packet(s[0], rest[..size])] + more)
  {
    hide ReadUvarint;
  }

  lemma Suffix(buf: Bytes, i: nat, k: nat)
    requires i + k <= |buf|
    ensures buf[i..][k..] == buf[i + k..]
  {
  }

  lemma Slices(buf: Bytes, start: nat, size: nat)
    requires start + size <= |buf|
    ensures buf[start..][..size] == buf[start..start + size] && buf[start..][size..] == buf[start + size..]
  {
  }

  lemma {:induction false} UvarintSuffix(s: Bytes, budget: nat)
    ensures ReadUvarint(s, budget).Some? ==>
              var rest := ReadUvarint(s, budget).value.1; |rest| <= |s| && rest == s[|s| - |rest|..]
  {
    if budget > 0 && s != [] {
      UvarintSuffix(s[1..], budget - 1);
    }
  }

  function PacketsAfter(done: seq<Packet>, more: Option<seq<Packet>>): Option<seq<Packet>> {
    if more.Some? then Some(done + more.value) else None
  }

  lemma PacketsStep(done: seq<Packet>, p: Packet, more: Option<seq<Packet>>)
    ensures PacketsAfter(done, if more.Some? then Some([p] + more.value) else None) == PacketsAfter(done + [p], more)
  {
    if more.Some? {
      Assoc(done, [p], more.value);
    }
  }

  // ---- reading undoes writing ----

  lemma ReadWrittenSized(b: Bytes, rest: Bytes)
    requires WriteSized(b).Some?
    ensures ReadSized(WriteSized(b).value + rest) == Some((b, rest))
    ensures |WriteSized(b).value| > 0
  {
    ReadWrittenCompactSize(|b|, b + rest);
    hide ReadCompactSize, WriteCompactSize;
    Assoc(WriteCompactSize(|b|).value, b, rest);
    TakeWritten(b, rest);
  }

  lemma {:induction false} ReadWrittenAll(items: seq<Bytes>, rest: Bytes)
    requires WriteAllSized(items).Some?
    ensures ReadAllSized(WriteAllSized(items).value + rest, |items|) == Some((items, rest))
    ensures |items| <= |WriteAllSized(items).value|
  {
    hide ReadSized, WriteSized;
    if items == [] {
      assert WriteAllSized(items).value + rest == rest;
    } else {
      var tail := WriteAllSized(items[1..]).value;
      ReadWrittenSized(items[0], tail + rest);
      ReadWrittenAll(items[1..], rest);
      Assoc(WriteSized(items[0]).value, tail, rest);
      assert [items[0]] + items[1..] == items;
    }
  }

  lemma ReadWrittenItems(items: seq<Bytes>)
    requires WriteItems(items).Some?
    ensures ReadItems(WriteItems(items).value) == Some(items) && WriteItems(items).value != []
  {
    hide ReadCompactSize, WriteCompactSize, ReadAllSized, WriteAllSized;
    var all := WriteAllSized(items).value;
    ReadWrittenCompactSize(|items|, all);
    ReadWrittenAll(items, []);
    assert all + [] == all;
  }

  /** Parsing undoes encoding on every entry, with items or without. */
  lemma ParseEncodedEntry(e: WebEntry)
    requires EncodeEntry(e).Some? && e.vin <= 0xffff
    ensures ParseEntry(EncodeEntry(e).value) == Some(e)
  {
    hide ReadSized, WriteSized, ReadItems, WriteItems, LeBytes, LeNat;
    var blob := if e.items == [] then [] else WriteItems(e.items).value;
    if e.items != [] {
      ReadWrittenItems(e.items);
    }
    var sized := WriteSized(blob).value;
    ReadWrittenSized(e.script, sized);
    ReadWrittenSized(blob, []);
    VinBytes(e.vin);
    EntryParts(LeBytes(e.vin, 2), WriteSized(e.script).value + sized);
    assert sized + [] == sized;
  }

  lemma VinBytes(vin: nat)
    requires vin <= 0xffff
    ensures LeNat(LeBytes(vin, 2)) == vin
  {
    WidthBounds();
    LeNatOfLeBytes(vin, 2);
  }

  lemma EntryParts(vin: Bytes, tail: Bytes)
    requires |vin| == 2
    ensures var data := [1] + vin + tail;
            ReadCompactSize(data) == Some((1, vin + tail)) && (vin + tail)[..2] == vin && (vin + tail)[2..] == tail
  {
    var data: Bytes := [1] + vin + tail;
    assert data[1..] == vin + tail;
  }

  // ---- the canonical form ----

  /** The entry of a draft carries no item, of a bound packet exactly one. */
  predicate RequiredShape(e: WebEntry, expectEmpty: bool) {
    e.vin == 0 && e.script != [] && |e.items| == if expectEmpty then 0 else 1
  }

  /** parseCanonicalPacket. */
  function ParseCanonical(script: Bytes, expectEmpty: bool): Option<WebEntry> {
    match ParseExtension(script)
    case None => None
    case Some(ps) =>
      if EncodeExtension(ps) != Some(script) || |ps| != 1 || ps[0].typ != PACKET_TYPE then None
      else
        match ParseEntry(ps[0].data)
        case None => None
        case Some(e) => if EncodeEntry(e) == Some(ps[0].data) && RequiredShape(e, expectEmpty) then Some(e) else None
  }

  method ParseCanonicalPacket(script: Bytes, expectEmpty: bool) returns (r: Option<WebEntry>)
    ensures r == ParseCanonical(script, expectEmpty)
  {
    hide ParseExtension, EncodeExtension, ParseEntry, EncodeEntry;
    var packets := ParseExtensionPackets(script);
    if packets.None? {
      return None;
    }
    var ps := packets.value;
    if EncodeExtension(ps) != Some(script) {
      return None;
    }
    if |ps| != 1 || ps[0].typ != PACKET_TYPE {
      return None;
    }
    var entry := ParseEmulatorPacket(ps[0].data);
    if entry.None? {
      return None;
    }
    var e := entry.value;
    if EncodeEntry(e) != Some(ps[0].data) {
      return None;
    }
    if e.vin != 0 || |e.script| == 0 {
      return None;
    }
    if expectEmpty && |e.items| != 0 {
      return None;
    }
    if !expectEmpty && |e.items| != 1 {
      return None;
    }
    return Some(e);
  }

  /** The one script that carries an entry. */
  function EncodeScript(e: WebEntry): Option<Bytes> {
    match EncodeEntry(e)
    case None => None
    case Some(data) => EncodeExtension([Packet(PACKET_TYPE, data)])
  }

  /** A script is accepted as an entry exactly when it is the encoding of that entry
      and the entry has the required shape. */
  lemma CanonicalIsEncoding(script: Bytes, expectEmpty: bool, e: WebEntry)
    ensures ParseCanonical(script, expectEmpty) == Some(e)
            <==> EncodeScript(e) == Some(script) && RequiredShape(e, expectEmpty)
  {
    hide EncodeExtension, ParseExtension, EncodeEntry, ParseEntry;
    if ParseCanonical(script, expectEmpty) == Some(e) {
      var ps := ParseExtension(script).value;
      assert ps == [Packet(PACKET_TYPE, ps[0].data)];
    }
    if EncodeScript(e) == Some(script) && RequiredShape(e, expectEmpty) {
      var ps := [Packet(PACKET_TYPE, EncodeEntry(e).value)];
      ParseEncodedExtension(ps);
      ParseEncodedEntry(e);
    }
  }

  /** No two accepted scripts denote the same entry. */
  lemma OneScriptPerEntry(s: Bytes, t: Bytes, expectEmpty: bool)
    requires ParseCanonical(s, expectEmpty).Some?
    requires ParseCanonical(s, expectEmpty) == ParseCanonical(t, expectEmpty)
    ensures s == t
  {
    hide ParseCanonical, EncodeScript;
    CanonicalIsEncoding(s, expectEmpty, ParseCanonical(s, expectEmpty).value);
    CanonicalIsEncoding(t, expectEmpty, ParseCanonical(t, expectEmpty).value);
  }

  /** The raw reader alone does not have this property: a longer push header denotes
      the same packets. */
  lemma OverlongPushAccepted(ps: seq<Packet>)
    requires ps != [] && DistinctTypes(ps) && |ARK_MAGIC + EncodePackets(ps)| < 76
    ensures var body := ARK_MAGIC + EncodePackets(ps);
            var long := [OP_RETURN, 0x4c, |body| as byte] + body;
            ParseExtension(long) == Some(ps) && EncodeExtension(ps) != Some(long)
  {
    hide ParsePackets, EncodePackets;
    var body := ARK_MAGIC + EncodePackets(ps);
    var long: Bytes := [OP_RETURN, 0x4c, |body| as byte] + body;
    ParseEncodedPackets(ps);
    TakeWritten(body, []);
    assert body + [] == body && body[3..] == EncodePackets(ps);
    assert long[1..][2..] == body;
    assert PushedPayload(long) == Some(body);
  }

  /** And so does a longer length. */
  lemma OverlongLengthAccepted(n: nat, rest: Bytes)
    requires n < 0xfd
    ensures var long := [0xfd] + LeBytes(n, 2);
            ReadCompactSize(long + rest) == Some((n, rest)) && WriteCompactSize(n) != Some(long)
  {
    hide LeNat, LeBytes;
    WidthBounds();
    LeNatOfLeBytes(n, 2);
    var long := [0xfd] + LeBytes(n, 2);
    assert (long + rest)[1..3] == LeBytes(n, 2) && (long + rest)[3..] == rest;
  }
}
