/** The emulator packet: entries of an input index, a script and a stack of
    items, written into and read back from one extension packet. */
module EmulatorPackets {
  import opened Common
  import opened ExtensionFormat

  const MAX_ENTRIES: nat := 1_000
  const MAX_SCRIPT: nat := 10_000
  const MAX_BLOB: nat := 1_000_000
  const MAX_TOTAL: nat := MAX_SCRIPT + MAX_BLOB

  datatype Entry = Entry(vin: nat, script: Bytes, stack: seq<Bytes>)

  datatype PacketError =
    | Truncated | NotCanonical | TooManyEntries | ScriptTooLong | BlobTooLong | TotalTooLarge
    | BadStack | TrailingBytes | EmptyPacket | EmptyScript | DuplicateVin

  // ---- canonical variable-length integers ----

  function WriteVarInt(n: nat): Bytes {
    if n < 0xfd then [n as byte]
    else if n <= 0xffff then [0xfd] + LeBytes(n, 2)
    else if n <= 0xffff_ffff then [0xfe] + LeBytes(n, 4)
    else [0xff] + LeBytes(n, 8)
  }

  function PrefixWidth(b: byte): nat {
    if b < 0xfd then 0 else if b == 0xfd then 2 else if b == 0xfe then 4 else 8
  }

  /** A value is refused when fewer bytes could have carried it. */
  function ReadVarInt(s: Bytes): Result<(nat, Bytes), PacketError> {
    if s == [] then Err(Truncated)
    else
      var width := PrefixWidth(s[0]);
      if width == 0 then Ok((s[0] as nat, s[1..]))
      else if |s| <= width then Err(Truncated)
      else
        var n := LeNat(s[1..width + 1]);
        if n < (if width == 2 then 0xfd else if width == 4 then 0x1_0000 else 0x1_0000_0000) then Err(NotCanonical)
        else Ok((n, s[width + 1..]))
  }

  lemma LongBounds()
    ensures Scale(1, 16) == 0x1_0000 && Scale(1, 32) == 0x1_0000_0000
    ensures Scale(1, 64) == 0x1_0000_0000_0000_0000
  {
    WidthBounds();
    ScaleByte(1, 32);
    ScaleByte(1, 40);
    ScaleByte(1, 48);
    ScaleByte(1, 56);
  }

  lemma ReadWrittenVarInt(n: nat, rest: Bytes)
    requires n < 0x1_0000_0000_0000_0000
    ensures ReadVarInt(WriteVarInt(n) + rest) == Ok((n, rest))
  {
    LongBounds();
    var w := WriteVarInt(n);
    if n >= 0xfd {
      var width := if n <= 0xffff then 2 else if n <= 0xffff_ffff then 4 else 8;
      LeNatOfLeBytes(n, width);
      hide LeNat, LeBytes;
      assert (w + rest)[1..width + 1] == LeBytes(n, width);
      assert (w + rest)[width + 1..] == rest;
    }
  }

  /** Only the shortest form is read. */
  lemma ReadVarIntIsCanonical(s: Bytes)
    requires ReadVarInt(s).Ok?
    ensures var (n, rest) := ReadVarInt(s).value;
            n < 0x1_0000_0000_0000_0000 && s == WriteVarInt(n) + rest && |rest| < |s|
  {
    LongBounds();
    var width := PrefixWidth(s[0]);
    if width > 0 {
      LeNatBound(s[1..width + 1]);
      LeBytesOfLeNat(s[1..width + 1]);
      assert s == [s[0]] + s[1..width + 1] + s[width + 1..];
    } else {
      assert s == [s[0]] + s[1..];
    }
  }

  // ---- byte strings and stacks of items ----

  function WriteVarBytes(b: Bytes): Bytes {
    WriteVarInt(|b|) + b
  }

  function WriteItems(items: seq<Bytes>): Bytes {
    if items == [] then [] else WriteVarBytes(items[0]) + WriteItems(items[1..])
  }

  /** An empty stack is written in some form of its own; any other as a count and
      its items. */
  function WriteStack(items: seq<Bytes>, empty: Bytes): Bytes {
    if items == [] then empty else WriteVarInt(|items|) + WriteItems(items)
  }

  function ReadItems(s: Bytes, count: nat): Option<(seq<Bytes>, Bytes)> {
    if count == 0 then Some(([], s))
    else
      var length := ReadVarInt(s);
      if length.Err? || length.value.0 > |length.value.1| then None
      else
        var (n, rest) := length.value;
        match ReadItems(rest[n..], count - 1)
        case None => None
        case Some((items, tail)) => Some(([rest[..n]] + items, tail))
  }

  function ReadStack(s: Bytes): Option<seq<Bytes>> {
    var count := ReadVarInt(s);
    if count.Err? then None
    else
      match ReadItems(count.value.1, count.value.0)
      case None => None
      case Some((items, tail)) => if tail == [] then Some(items) else None
  }

  lemma ReadWrittenVarBytes(b: Bytes, rest: Bytes)
    requires |b| < 0x1_0000_0000_0000_0000
    ensures ReadVarInt(WriteVarBytes(b) + rest) == Ok((|b|, b + rest))
    ensures (b + rest)[..|b|] == b && (b + rest)[|b|..] == rest
  {
    ReadWrittenVarInt(|b|, b + rest);
    assert WriteVarBytes(b) + rest == WriteVarInt(|b|) + (b + rest);
  }

  lemma {:induction false} ReadWrittenItems(items: seq<Bytes>, rest: Bytes)
    requires |WriteItems(items)| < 0x1_0000_0000_0000_0000
    ensures ReadItems(WriteItems(items) + rest, |items|) == Some((items, rest))
  {
    hide WriteVarInt, ReadVarInt;
    if items == [] {
      assert WriteItems(items) + rest == rest;
    } else {
      var tail := WriteItems(items[1..]) + rest;
      ReadWrittenVarBytes(items[0], tail);
      ReadWrittenItems(items[1..], rest);
      assert WriteItems(items) + rest == WriteVarBytes(items[0]) + tail;
      assert [items[0]] + items[1..] == items;
    }
  }

  /** Any form of the empty stack that reads back, or is skipped for being empty. */
  predicate EmptyForm(empty: Bytes) {
    empty == [] || ReadStack(empty) == Some([])
  }

  lemma {:induction false} ItemsWritten(items: seq<Bytes>)
    ensures |items| <= |WriteItems(items)|
  {
    if items != [] {
      ItemsWritten(items[1..]);
    }
  }

  lemma ReadWrittenStack(items: seq<Bytes>, empty: Bytes)
    requires items != [] && |WriteStack(items, empty)| <= MAX_BLOB
    ensures WriteStack(items, empty) != [] && ReadStack(WriteStack(items, empty)) == Some(items)
  {
    hide ReadVarInt, WriteVarInt, ReadItems, WriteItems;
    ItemsWritten(items);
    ReadWrittenVarInt(|items|, WriteItems(items));
    ReadWrittenItems(items, []);
    assert WriteItems(items) + [] == WriteItems(items);
    assert |WriteStack(items, empty)| >= |WriteItems(items)| >= 1;
  }

  // ---- writing a packet ----

  function WriteEntry(e: Entry, empty: Bytes): Bytes {
    LeBytes(e.vin, 2) + WriteVarBytes(e.script) + WriteVarBytes(WriteStack(e.stack, empty))
  }

  function WriteEntries(es: seq<Entry>, empty: Bytes): Bytes {
    if es == [] then [] else WriteEntry(es[0], empty) + WriteEntries(es[1..], empty)
  }

  function WriteContent(es: seq<Entry>, empty: Bytes): Bytes {
    WriteVarInt(|es|) + WriteEntries(es, empty)
  }

  lemma {:induction false} WriteOneMore(es: seq<Entry>, e: Entry, empty: Bytes)
    ensures WriteEntries(es + [e], empty) == WriteEntries(es, empty) + WriteEntry(e, empty)
  {
    hide WriteEntry;
    if es == [] {
      assert [e][1..] == [];
    } else {
      WriteOneMore(es[1..], e, empty);
      assert (es + [e])[1..] == es[1..] + [e];
    }
  }

  method Serialize(es: seq<Entry>, empty: Bytes) returns (buf: Bytes)
    ensures buf == WriteContent(es, empty)
  {
    hide WriteVarInt, WriteVarBytes, WriteStack, WriteItems;
    buf := WriteVarInt(|es|);
    for i := 0 to |es|
      invariant buf == WriteVarInt(|es|) + WriteEntries(es[..i], empty)
    {
      WriteOneMore(es[..i], es[i], empty);
      assert es[..i] + [es[i]] == es[..i + 1];
      ghost var before := buf;
      buf := buf + LeBytes(es[i].vin, 2);
      buf := buf + WriteVarBytes(es[i].script);
      buf := buf + WriteVarBytes(WriteStack(es[i].stack, empty));
      assert buf == before + WriteEntry(es[i], empty);
    }
    assert es[..|es|] == es;
  }

  /** The entry without its stack. */
  function Mask(e: Entry): Entry {
    e.(stack := [])
  }

  function MaskAll(es: seq<Entry>): (r: seq<Entry>)
    ensures |r| == |es|
    ensures forall i :: 0 <= i < |es| ==> r[i] == Mask(es[i])
  {
    if es == [] then [] else [Mask(es[0])] + MaskAll(es[1..])
  }

  /** The masked form leaves every stack out entirely. */
  method SerializeMasked(es: seq<Entry>) returns (buf: Bytes)
    ensures buf == WriteContent(MaskAll(es), [])
  {
    hide WriteVarBytes;
    ghost var masked := MaskAll(es);
    buf := WriteVarInt(|es|);
    for i := 0 to |es|
      invariant buf == WriteVarInt(|es|) + WriteEntries(masked[..i], [])
    {
      WriteOneMore(masked[..i], masked[i], []);
      assert masked[..i] + [masked[i]] == masked[..i + 1];
      ghost var before := buf;
      buf := buf + LeBytes(es[i].vin, 2);
      buf := buf + WriteVarBytes(es[i].script);
      buf := buf + WriteVarInt(0);
      EmptyIsZero();
      assert buf == before + WriteEntry(masked[i], []);
    }
    assert masked[..|masked|] == masked;
  }

  lemma EmptyIsZero()
    ensures WriteVarBytes([]) == WriteVarInt(0)
  {
  }

  // ---- validity ----

  predicate ValidPacket(es: seq<Entry>) {
    && es != [] && |es| <= MAX_ENTRIES
    && (forall i :: 0 <= i < |es| ==> es[i].script != [])
    && (forall i, j :: 0 <= i < j < |es| ==> es[i].vin != es[j].vin)
  }

  /** The first fault at or after entry i. */
  function FaultFrom(es: seq<Entry>, i: nat): Option<PacketError>
    requires i <= |es|
    decreases |es| - i
  {
    if i == |es| then None
    else if es[i].script == [] then Some(EmptyScript)
    else if exists j :: 0 <= j < i && es[j].vin == es[i].vin then Some(DuplicateVin)
    else FaultFrom(es, i + 1)
  }

  function PacketFault(es: seq<Entry>): Option<PacketError> {
    if es == [] then Some(EmptyPacket)
    else if |es| > MAX_ENTRIES then Some(TooManyEntries)
    else FaultFrom(es, 0)
  }

  lemma {:induction false} FaultFromExact(es: seq<Entry>, i: nat)
    requires i <= |es|
    ensures FaultFrom(es, i).None? <==>
            forall k :: i <= k < |es| ==> es[k].script != [] && forall j :: 0 <= j < k ==> es[j].vin != es[k].vin
    decreases |es| - i
  {
    if i < |es| {
      FaultFromExact(es, i + 1);
    }
  }

  /** No fault is found in exactly the valid packets. */
  lemma FaultlessIsValid(es: seq<Entry>)
    ensures PacketFault(es).None? <==> ValidPacket(es)
  {
    FaultFromExact(es, 0);
  }

  method Validate(es: seq<Entry>) returns (fault: Option<PacketError>)
    ensures fault == PacketFault(es)
  {
    if |es| == 0 {
      return Some(EmptyPacket);
    }
    if |es| > MAX_ENTRIES {
      return Some(TooManyEntries);
    }
    var seen: set<nat> := {};
    for i := 0 to |es|
      invariant forall v :: v in seen <==> exists j :: 0 <= j < i && es[j].vin == v
      invariant FaultFrom(es, 0) == FaultFrom(es, i)
    {
      if |es[i].script| == 0 {
        return Some(EmptyScript);
      }
      if es[i].vin in seen {
        return Some(DuplicateVin);
      }
      seen := seen + {es[i].vin};
    }
    return None;
  }

  // ---- reading a packet ----

  type Spent<T> = Result<(T, Bytes, nat), PacketError>

  /** A length-prefixed field, charged against its own cap and the total. */
  function ReadField(s: Bytes, total: nat, cap: nat, tooLong: PacketError): Spent<Bytes> {
    var (n, rest) :- ReadVarInt(s);
    if n > cap then Err(tooLong)
    else if total + n > MAX_TOTAL then Err(TotalTooLarge)
    else if n > |rest| then Err(Truncated)
    else Ok((rest[..n], rest[n..], total + n))
  }

  function ReadEntry(s: Bytes, total: nat): Spent<Entry> {
    if |s| < 2 then Err(Truncated)
    else
      var (script, rest, spent) :- ReadField(s[2..], total, MAX_SCRIPT, ScriptTooLong);
      var (blob, tail, after) :- ReadField(rest, spent, MAX_BLOB, BlobTooLong);
      if blob == [] then Ok((Entry(LeNat(s[..2]), script, []), tail, after))
      else
        match ReadStack(blob)
        case None => Err(BadStack)
        case Some(items) => Ok((Entry(LeNat(s[..2]), script, items), tail, after))
  }

  function ReadEntries(s: Bytes, count: nat, total: nat): Result<(seq<Entry>, Bytes), PacketError> {
    if count == 0 then Ok(([], s))
    else
      var (e, rest, spent) :- ReadEntry(s, total);
      var (es, tail) :- ReadEntries(rest, count - 1, spent);
      Ok(([e] + es, tail))
  }

  function ReadContent(data: Bytes): Result<seq<Entry>, PacketError> {
    var (count, rest) :- ReadVarInt(data);
    if count > MAX_ENTRIES then Err(TooManyEntries)
    else
      var (es, tail) :- ReadEntries(rest, count, 0);
      if tail != [] then Err(TrailingBytes)
      else
        match PacketFault(es)
        case Some(fault) => Err(fault)
        case None => Ok(es)
  }

  /** Reading with some entries already in hand. */
  function Remaining(es: seq<Entry>, rest: Bytes, count: nat, total: nat): Result<(seq<Entry>, Bytes), PacketError> {
    var (more, tail) :- ReadEntries(rest, count, total);
    Ok((es + more, tail))
  }

  method ReadFieldFrom(s: Bytes, total: nat, cap: nat, tooLong: PacketError) returns (r: Spent<Bytes>)
    ensures r == ReadField(s, total, cap, tooLong)
  {
    var length := ReadVarInt(s);
    if length.Err? {
      return Err(length.error);
    }
    var (n, rest) := length.value;
    if n > cap {
      return Err(tooLong);
    }
    var spent := total + n;
    if spent > MAX_TOTAL {
      return Err(TotalTooLarge);
    }
    if n > |rest| {
      return Err(Truncated);
    }
    return Ok((rest[..n], rest[n..], spent));
  }

  method Deserialize(data: Bytes) returns (r: Result<seq<Entry>, PacketError>)
    ensures r == ReadContent(data)
  {
    hide ReadVarInt, ReadStack, ReadField, PacketFault;
    var count := ReadVarInt(data);
    if count.Err? {
      return Err(count.error);
    }
    var (entryCount, reader) := count.value;
    if entryCount > MAX_ENTRIES {
      return Err(TooManyEntries);
    }
    var es: seq<Entry> := [];
    var total := 0;
    RemainingAll(reader, entryCount, 0);
    for i := 0 to entryCount
      invariant Remaining([], count.value.1, entryCount, 0) == Remaining(es, reader, entryCount - i, total)
    {
      if |reader| < 2 {
        return Err(Truncated);
      }
      var vin := LeNat(reader[..2]);
      var script := ReadFieldFrom(reader[2..], total, MAX_SCRIPT, ScriptTooLong);
      if script.Err? {
        return Err(script.error);
      }
      var blob := ReadFieldFrom(script.value.1, script.value.2, MAX_BLOB, BlobTooLong);
      if blob.Err? {
        return Err(blob.error);
      }
      var stack: seq<Bytes> := [];
      if blob.value.0 != [] {
        var items := ReadStack(blob.value.0);
        if items.None? {
          return Err(BadStack);
        }
        stack := items.value;
      }
      var e := Entry(vin, script.value.0, stack);
      RemainingStep(es, reader, entryCount - i, total, e, blob.value.1, blob.value.2);
      es := es + [e];
      reader, total := blob.value.1, blob.value.2;
    }
    assert es + [] == es;
    if reader != [] {
      return Err(TrailingBytes);
    }
    var fault := Validate(es);
    if fault.Some? {
      return Err(fault.value);
    }
    return Ok(es);
  }

  lemma RemainingAll(s: Bytes, count: nat, total: nat)
    ensures Remaining([], s, count, total) == ReadEntries(s, count, total)
  {
    hide ReadEntries;
    var more := ReadEntries(s, count, total);
    if more.Ok? {
      assert [] + more.value.0 == more.value.0;
    }
  }

  lemma RemainingStep(es: seq<Entry>, s: Bytes, count: nat, total: nat, e: Entry, rest: Bytes, spent: nat)
    requires count > 0 && ReadEntry(s, total) == Ok((e, rest, spent))
    ensures Remaining(es, s, count, total) == Remaining(es + [e], rest, count - 1, spent)
  {
    hide ReadEntry;
    var more := ReadEntries(rest, count - 1, spent);
    if more.Ok? {
      assert es + ([e] + more.value.0) == es + [e] + more.value.0;
    }
  }

  // ---- reading undoes writing ----

  /** What one entry spends of the total. */
  function EntrySize(e: Entry, empty: Bytes): nat {
    |e.script| + |WriteStack(e.stack, empty)|
  }

  function TotalSize(es: seq<Entry>, empty: Bytes): nat {
    if es == [] then 0 else EntrySize(es[0], empty) + TotalSize(es[1..], empty)
  }

  predicate EntryFits(e: Entry, empty: Bytes) {
    e.vin <= 0xffff && |e.script| <= MAX_SCRIPT && |WriteStack(e.stack, empty)| <= MAX_BLOB
  }

  predicate PacketFits(es: seq<Entry>, empty: Bytes) {
    && (forall e :: e in es ==> EntryFits(e, empty))
    && TotalSize(es, empty) <= MAX_TOTAL
  }

  lemma ReadWrittenField(b: Bytes, rest: Bytes, total: nat, cap: nat, tooLong: PacketError)
    requires |b| <= cap && total + |b| <= MAX_TOTAL
    ensures ReadField(WriteVarBytes(b) + rest, total, cap, tooLong) == Ok((b, rest, total + |b|))
  {
    hide WriteVarBytes, ReadVarInt;
    ReadWrittenVarBytes(b, rest);
  }

  lemma ReadWrittenEntry(e: Entry, empty: Bytes, rest: Bytes, total: nat)
    requires EntryFits(e, empty) && EmptyForm(empty) && total + EntrySize(e, empty) <= MAX_TOTAL
    ensures ReadEntry(WriteEntry(e, empty) + rest, total) == Ok((e, rest, total + EntrySize(e, empty)))
  {
    hide WriteVarBytes, WriteStack, ReadStack, ReadField, LeNat, LeBytes;
    var blob := WriteStack(e.stack, empty);
    var tail := WriteVarBytes(blob) + rest;
    StackDenoted(e.stack, empty);
    ReadWrittenField(e.script, tail, total, MAX_SCRIPT, ScriptTooLong);
    ReadWrittenField(blob, rest, total + |e.script|, MAX_BLOB, BlobTooLong);
    VinBytes(e.vin);
    EntryParts(e, empty, rest);
  }

  lemma VinBytes(vin: nat)
    requires vin <= 0xffff
    ensures LeNat(LeBytes(vin, 2)) == vin
  {
    LongBounds();
    LeNatOfLeBytes(vin, 2);
  }

  lemma EntryParts(e: Entry, empty: Bytes, rest: Bytes)
    ensures var s := WriteEntry(e, empty) + rest;
            && |s| >= 2 && s[..2] == LeBytes(e.vin, 2)
            && s[2..] == WriteVarBytes(e.script) + (WriteVarBytes(WriteStack(e.stack, empty)) + rest)
  {
    hide WriteVarBytes, WriteStack, LeBytes;
  }

  /** The bytes of a stack stand for it. */
  predicate Denotes(blob: Bytes, items: seq<Bytes>) {
    if blob == [] then items == [] else ReadStack(blob) == Some(items)
  }

  lemma StackDenoted(items: seq<Bytes>, empty: Bytes)
    requires EmptyForm(empty) && |WriteStack(items, empty)| <= MAX_BLOB
    ensures Denotes(WriteStack(items, empty), items)
  {
    hide ReadStack;
    if items != [] {
      ReadWrittenStack(items, empty);
    }
  }

  lemma {:induction false} ReadWrittenEntries(es: seq<Entry>, empty: Bytes, rest: Bytes, total: nat)
    requires forall e :: e in es ==> EntryFits(e, empty)
    requires EmptyForm(empty) && total + TotalSize(es, empty) <= MAX_TOTAL
    ensures ReadEntries(WriteEntries(es, empty) + rest, |es|, total) == Ok((es, rest))
  {
    hide ReadEntry, WriteEntry, EntryFits, EmptyForm, EntrySize;
    if es == [] {
      assert WriteEntries(es, empty) + rest == rest;
    } else {
      var tail := WriteEntries(es[1..], empty) + rest;
      assert es[0] in es;
      ReadWrittenEntry(es[0], empty, tail, total);
      ReadWrittenEntries(es[1..], empty, rest, total + EntrySize(es[0], empty));
      assert WriteEntries(es, empty) + rest == WriteEntry(es[0], empty) + tail;
      assert [es[0]] + es[1..] == es;
    }
  }

  /** Reading what was written gives back every valid packet within the limits,
      whatever form the empty stack takes. */
  lemma ReadWrittenContent(es: seq<Entry>, empty: Bytes)
    requires ValidPacket(es) && PacketFits(es, empty) && EmptyForm(empty)
    ensures ReadContent(WriteContent(es, empty)) == Ok(es)
  {
    ReadWrittenVarInt(|es|, WriteEntries(es, empty));
    ReadWrittenEntries(es, empty, [], 0);
    assert WriteEntries(es, empty) + [] == WriteEntries(es, empty);
    FaultlessIsValid(es);
    hide ReadVarInt, WriteVarInt, PacketFault, ValidPacket, EmptyForm;
  }

  lemma {:induction false} MaskedFits(es: seq<Entry>, empty: Bytes)
    requires forall e :: e in es ==> EntryFits(e, empty)
    ensures forall e :: e in MaskAll(es) ==> EntryFits(e, [])
    ensures TotalSize(MaskAll(es), []) <= TotalSize(es, empty)
  {
    if es != [] {
      assert es[0] in es;
      MaskedFits(es[1..], empty);
      assert MaskAll(es)[0] == Mask(es[0]) && MaskAll(es)[1..] == MaskAll(es[1..]);
    }
  }

  /** The masked form reads back as the same entries with their stacks dropped. */
  lemma ReadMasked(es: seq<Entry>, empty: Bytes)
    requires ValidPacket(es) && PacketFits(es, empty)
    ensures ReadContent(WriteContent(MaskAll(es), [])) == Ok(MaskAll(es))
  {
    MaskedFits(es, empty);
    hide EntryFits, ReadContent, WriteContent;
    ReadWrittenContent(MaskAll(es), []);
  }

  /** Masked forms are equal exactly when the input indices and scripts are. */
  lemma MaskedInjective(es: seq<Entry>, fs: seq<Entry>, empty: Bytes)
    requires ValidPacket(es) && PacketFits(es, empty) && ValidPacket(fs) && PacketFits(fs, empty)
    ensures WriteContent(MaskAll(es), []) == WriteContent(MaskAll(fs), []) <==>
            |es| == |fs| && forall i :: 0 <= i < |es| ==> es[i].vin == fs[i].vin && es[i].script == fs[i].script
  {
    hide *;
    ReadMasked(es, empty);
    ReadMasked(fs, empty);
    MaskedEqual(es, fs);
  }

  lemma MaskedEqual(es: seq<Entry>, fs: seq<Entry>)
    ensures MaskAll(es) == MaskAll(fs) <==>
            |es| == |fs| && forall i :: 0 <= i < |es| ==> es[i].vin == fs[i].vin && es[i].script == fs[i].script
  {
    if MaskAll(es) == MaskAll(fs) {
      forall i | 0 <= i < |es|
        ensures es[i].vin == fs[i].vin && es[i].script == fs[i].script
      {
        assert MaskAll(es)[i] == MaskAll(fs)[i];
      }
    }
  }

  // ---- what is accepted ----

  lemma FieldIsWritten(s: Bytes, total: nat, cap: nat, tooLong: PacketError)
    requires ReadField(s, total, cap, tooLong).Ok?
    ensures var (b, rest, spent) := ReadField(s, total, cap, tooLong).value;
            s == WriteVarBytes(b) + rest && |b| <= cap && spent == total + |b| <= MAX_TOTAL
  {
    ReadVarIntIsCanonical(s);
    hide WriteVarInt;
    var (n, rest) := ReadVarInt(s).value;
    assert rest == rest[..n] + rest[n..];
    assert WriteVarInt(n) + rest == WriteVarInt(n) + rest[..n] + rest[n..];
  }

  /** Entries whose stacks are written as the given bytes. */
  function WriteBlobs(es: seq<Entry>, blobs: seq<Bytes>): Bytes
    requires |es| == |blobs|
  {
    if es == [] then []
    else LeBytes(es[0].vin, 2) + WriteVarBytes(es[0].script) + WriteVarBytes(blobs[0]) + WriteBlobs(es[1..], blobs[1..])
  }

  /** What the reader counts: scripts and written stacks. */
  function BlobTotal(es: seq<Entry>, blobs: seq<Bytes>): nat
    requires |es| == |blobs|
  {
    if es == [] then 0 else |es[0].script| + |blobs[0]| + BlobTotal(es[1..], blobs[1..])
  }

  /** The scripts alone, which is what masked entries count. */
  lemma {:induction false} MaskedTotal(es: seq<Entry>, blobs: seq<Bytes>)
    requires |es| == |blobs|
    ensures TotalSize(MaskAll(es), []) <= BlobTotal(es, blobs)
  {
    if es != [] {
      MaskedTotal(es[1..], blobs[1..]);
      assert MaskAll(es)[0] == Mask(es[0]) && MaskAll(es)[1..] == MaskAll(es[1..]);
    }
  }

  lemma EntryIsWritten(s: Bytes, total: nat) returns (blob: Bytes)
    requires ReadEntry(s, total).Ok?
    ensures var (e, rest, spent) := ReadEntry(s, total).value;
            && s == LeBytes(e.vin, 2) + WriteVarBytes(e.script) + WriteVarBytes(blob) + rest
            && Denotes(blob, e.stack) && e.vin <= 0xffff
            && |e.script| <= MAX_SCRIPT && |blob| <= MAX_BLOB && spent == total + |e.script| + |blob| <= MAX_TOTAL
  {
    hide WriteVarBytes, ReadField, ReadStack, LeNat, LeBytes;
    var (script, rest, spent) := ReadField(s[2..], total, MAX_SCRIPT, ScriptTooLong).value;
    FieldIsWritten(s[2..], total, MAX_SCRIPT, ScriptTooLong);
    FieldIsWritten(rest, spent, MAX_BLOB, BlobTooLong);
    blob := ReadField(rest, spent, MAX_BLOB, BlobTooLong).value.0;
    var tail := ReadField(rest, spent, MAX_BLOB, BlobTooLong).value.1;
    VinRead(s[..2]);
    Joined(s, WriteVarBytes(script), WriteVarBytes(blob), tail);
  }

  lemma VinRead(b: Bytes)
    requires |b| == 2
    ensures LeNat(b) <= 0xffff && LeBytes(LeNat(b), 2) == b
  {
    LongBounds();
    LeNatBound(b);
    LeBytesOfLeNat(b);
  }

  lemma Joined(s: Bytes, x: Bytes, y: Bytes, z: Bytes)
    requires |s| >= 2 && s[2..] == x + (y + z)
    ensures s == s[..2] + x + y + z
  {
    assert x + (y + z) == x + y + z;
    assert s == s[..2] + s[2..];
  }

  lemma {:induction false} EntriesAreWritten(s: Bytes, count: nat, total: nat) returns (blobs: seq<Bytes>)
    requires ReadEntries(s, count, total).Ok?
    ensures var (es, tail) := ReadEntries(s, count, total).value;
            && |es| == |blobs| == count && s == WriteBlobs(es, blobs) + tail
            && (count > 0 ==> total + BlobTotal(es, blobs) <= MAX_TOTAL)
            && forall i :: 0 <= i < count ==>
                 Denotes(blobs[i], es[i].stack) && es[i].vin <= 0xffff
                   && |es[i].script| <= MAX_SCRIPT && |blobs[i]| <= MAX_BLOB
    decreases count
  {
    hide ReadEntry, Denotes, WriteVarBytes;
    if count == 0 {
      blobs := [];
      assert [] + s == s;
    } else {
      var blob := EntryIsWritten(s, total);
      var (e, rest, spent) := ReadEntry(s, total).value;
      var more := EntriesAreWritten(rest, count - 1, spent);
      blobs := [blob] + more;
      var (es, tail) := ReadEntries(rest, count - 1, spent).value;
      assert ([e] + es)[1..] == es && blobs[1..] == more;
      var head := LeBytes(e.vin, 2) + WriteVarBytes(e.script) + WriteVarBytes(blob);
      assert head + (WriteBlobs(es, more) + tail) == head + WriteBlobs(es, more) + tail;
    }
  }

  /** Every accepted content is a valid packet, written canonically but for the
      inside of its stacks. */
  lemma AcceptedIsWritten(data: Bytes) returns (blobs: seq<Bytes>)
    requires ReadContent(data).Ok?
    ensures var es := ReadContent(data).value;
            && ValidPacket(es) && |es| == |blobs|
            && BlobTotal(es, blobs) <= MAX_TOTAL && TotalSize(MaskAll(es), []) <= MAX_TOTAL
            && data == WriteVarInt(|es|) + WriteBlobs(es, blobs)
            && forall i :: 0 <= i < |es| ==>
                 Denotes(blobs[i], es[i].stack) && es[i].vin <= 0xffff
                   && |es[i].script| <= MAX_SCRIPT && |blobs[i]| <= MAX_BLOB
  {
    hide ReadVarInt, WriteVarInt, Denotes, PacketFault, ValidPacket, ReadEntries;
    ReadVarIntIsCanonical(data);
    var (count, rest) := ReadVarInt(data).value;
    blobs := EntriesAreWritten(rest, count, 0);
    var es := ReadEntries(rest, count, 0).value.0;
    FaultlessIsValid(es);
    MaskedTotal(es, blobs);
    assert WriteBlobs(es, blobs) + [] == WriteBlobs(es, blobs);
  }

  /** Masking is stable: the masked form of an accepted content reads back as the
      masked entries. */
  lemma AcceptedMasks(data: Bytes)
    requires ReadContent(data).Ok?
    ensures var es := MaskAll(ReadContent(data).value); ReadContent(WriteContent(es, [])) == Ok(es)
  {
    hide ReadContent, WriteContent, Denotes, WriteBlobs;
    var blobs := AcceptedIsWritten(data);
    var es := ReadContent(data).value;
    assert ValidPacket(MaskAll(es));
    forall e | e in MaskAll(es)
      ensures EntryFits(e, [])
    {
      var i :| 0 <= i < |es| && e == MaskAll(es)[i];
      assert |blobs[i]| <= MAX_BLOB;
    }
    ReadWrittenContent(MaskAll(es), []);
  }
}
