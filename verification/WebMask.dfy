/** The browser's masking of the packet output, which agrees with the masking of
    the signature message. */
module WebMasks {
  import opened Common
  import opened ExtensionFormat
  import WebCodec
  import EmulatorPackets
  import opened SigMessages

  /** The packets with the emulator entry's items dropped; None for a thrown error. */
  function MaskPackets(ps: seq<Packet>): Option<seq<Packet>> {
    if ps == [] then Some([])
    else
      match MaskPacket(ps[0])
      case None => None
      case Some(p) =>
        match MaskPackets(ps[1..])
        case None => None
        case Some(more) => Some([p] + more)
  }

  function MaskPacket(p: Packet): Option<Packet> {
    if p.typ != PACKET_TYPE then Some(p)
    else
      match WebCodec.ParseEntry(p.data)
      case None => None
      case Some(e) =>
        match WebCodec.EncodeEntry(e.(items := []))
        case None => None
        case Some(data) => Some(Packet(PACKET_TYPE, data))
  }

  predicate HasEmulatorPacket(ps: seq<Packet>) {
    exists i :: 0 <= i < |ps| && ps[i].typ == PACKET_TYPE
  }

  /** maskEmulatorWitness. */
  function WebMaskedScript(script: Bytes): Option<Bytes> {
    if !IsExtension(script) then Some(script)
    else
      match ParseExtension(script)
      case None => None
      case Some(ps) =>
        if EncodeExtension(ps) != Some(script) then None
        else
          match MaskPackets(ps)
          case None => None
          case Some(masked) => if HasEmulatorPacket(ps) then EncodeExtension(masked) else Some(script)
  }

  method MaskEmulatorWitness(script: Bytes) returns (r: Option<Bytes>)
    ensures r == WebMaskedScript(script)
  {
    hide IsExtension, ParseExtension, EncodeExtension, MaskPacket;
    if !IsExtension(script) {
      return Some(script);
    }
    var packets := WebCodec.ParseExtensionPackets(script);
    if packets.None? {
      return None;
    }
    var ps := packets.value;
    if EncodeExtension(ps) != Some(script) {
      return None;
    }
    var found := false;
    var masked: seq<Packet> := [];
    NothingMasked(MaskPackets(ps));
    assert ps[0..] == ps;
    for i := 0 to |ps|
      invariant found <==> exists j :: 0 <= j < i && ps[j].typ == PACKET_TYPE
      invariant MaskPackets(ps) == Prepended(masked, MaskPackets(ps[i..]))
    {
      assert ps[i..][0] == ps[i] && ps[i..][1..] == ps[i + 1..];
      if ps[i].typ == PACKET_TYPE {
        found := true;
      }
      var next := MaskPacket(ps[i]);
      if next.None? {
        return None;
      }
      PrependedStep(masked, next.value, MaskPackets(ps[i + 1..]));
      masked := masked + [next.value];
    }
    assert ps[|ps|..] == [] && masked + [] == masked;
    if !found {
      return Some(script);
    }
    return EncodeExtension(masked);
  }

  function Prepended(done: seq<Packet>, more: Option<seq<Packet>>): Option<seq<Packet>> {
    if more.Some? then Some(done + more.value) else None
  }

  lemma NothingMasked(more: Option<seq<Packet>>)
    ensures Prepended([], more) == more
  {
    if more.Some? {
      assert [] + more.value == more.value;
    }
  }

  lemma PrependedStep(done: seq<Packet>, p: Packet, more: Option<seq<Packet>>)
    ensures Prepended(done, if more.Some? then Some([p] + more.value) else None) == Prepended(done + [p], more)
  {
    if more.Some? {
      Assoc(done, [p], more.value);
    }
  }

  // ---- agreement with the signature message ----

  lemma {:induction false} MaskedAt(ps: seq<Packet>, j: nat)
    requires j < |ps| && ps[j].typ == PACKET_TYPE && forall i :: 0 <= i < |ps| && i != j ==> ps[i].typ != PACKET_TYPE
    requires MaskPackets(ps).Some?
    ensures MaskPacket(ps[j]).Some? && MaskPackets(ps) == Some(ps[j := MaskPacket(ps[j]).value])
  {
    hide WebCodec.ParseEntry, WebCodec.EncodeEntry;
    if j > 0 {
      MaskedAt(ps[1..], j - 1);
      assert [ps[0]] + ps[1..][j - 1 := MaskPacket(ps[j]).value] == ps[j := MaskPacket(ps[j]).value];
    } else {
      NoneMasked(ps[1..]);
      assert [MaskPacket(ps[0]).value] + ps[1..] == ps[0 := MaskPacket(ps[0]).value];
    }
  }

  lemma {:induction false} NoneMasked(ps: seq<Packet>)
    requires forall i :: 0 <= i < |ps| ==> ps[i].typ != PACKET_TYPE
    ensures MaskPackets(ps) == Some(ps)
  {
    if ps != [] {
      NoneMasked(ps[1..]);
      assert [ps[0]] + ps[1..] == ps;
    }
  }

  /** The two integer forms agree where both are written. */
  lemma SameLength(n: nat)
    requires n <= 0xffff_ffff
    ensures WriteCompactSize(n) == Some(EmulatorPackets.WriteVarInt(n))
  {
  }

  lemma SameSized(b: Bytes)
    requires |b| <= 0xffff_ffff
    ensures WebCodec.WriteSized(b) == Some(EmulatorPackets.WriteVarBytes(b))
  {
    SameLength(|b|);
    hide WriteCompactSize, EmulatorPackets.WriteVarInt;
  }

  /** Both sides read the same input index and script from a packet that both
      accept, and write the same masked packet. */
  lemma MaskedDataAgrees(data: Bytes)
    requires WebCodec.ParseEntry(data).Some? && EmulatorPackets.ReadContent(data).Ok?
    ensures var e, es := WebCodec.ParseEntry(data).value, EmulatorPackets.ReadContent(data).value;
            && |es| == 1 && e.vin == es[0].vin && e.script == es[0].script
            && WebCodec.EncodeEntry(e.(items := []))
              == Some(EmulatorPackets.WriteContent(EmulatorPackets.MaskAll(es), []))
  {
    hide EmulatorPackets.ReadContent, EmulatorPackets.WriteVarBytes, EmulatorPackets.Denotes,
      EmulatorPackets.WriteVarInt,
      WebCodec.ReadSized, WebCodec.WriteSized, WebCodec.ReadItems, ReadCompactSize, WriteCompactSize, LeBytes, LeNat;
    var blobs := EmulatorPackets.AcceptedIsWritten(data);
    var es := EmulatorPackets.ReadContent(data).value;
    Counted(data, es, blobs);
    var g, blob := es[0], blobs[0];
    SameSized(g.script);
    SameSized(blob);
    var tail := EmulatorPackets.WriteVarBytes(blob);
    assert es[1..] == [] && blobs[1..] == [];
    EntryBytes(LeBytes(g.vin, 2), EmulatorPackets.WriteVarBytes(g.script), tail);
    WebCodec.ReadWrittenSized(g.script, tail);
    WebCodec.ReadWrittenSized(blob, []);
    assert tail + [] == tail;
    WebCodec.VinBytes(g.vin);
    MaskedBytes(g);
    assert EmulatorPackets.MaskAll(es) == [EmulatorPackets.Mask(g)] by {
      assert EmulatorPackets.MaskAll(es)[0] == EmulatorPackets.Mask(g);
    }
  }

  lemma Counted(data: Bytes, es: seq<EmulatorPackets.Entry>, blobs: seq<Bytes>)
    requires |es| == |blobs| && |es| <= 0xffff_ffff && WebCodec.ParseEntry(data).Some?
    requires data == EmulatorPackets.WriteVarInt(|es|) + EmulatorPackets.WriteBlobs(es, blobs)
    ensures |es| == 1 && ReadCompactSize(data) == Some((1, EmulatorPackets.WriteBlobs(es, blobs)))
  {
    hide EmulatorPackets.WriteVarInt, EmulatorPackets.WriteBlobs, WriteCompactSize;
    hide WebCodec.ReadSized, WebCodec.ReadItems;
    SameLength(|es|);
    ReadWrittenCompactSize(|es|, EmulatorPackets.WriteBlobs(es, blobs));
  }

  lemma EntryBytes(vin: Bytes, script: Bytes, blob: Bytes)
    requires |vin| == 2
    ensures var s := vin + script + blob + []; s[..2] == vin && s[2..] == script + blob
  {
  }

  lemma MaskedBytes(g: EmulatorPackets.Entry)
    requires |g.script| <= 0xffff_ffff
    ensures WebCodec.EncodeEntry(WebCodec.WebEntry(g.vin, g.script, []))
            == Some(EmulatorPackets.WriteContent([EmulatorPackets.Mask(g)], []))
  {
    SameSized(g.script);
    SameSized([]);
    OneIsOne();
    hide WebCodec.WriteSized, EmulatorPackets.WriteVarBytes, EmulatorPackets.WriteVarInt, LeBytes;
    var vin, script, none := LeBytes(g.vin, 2),
      EmulatorPackets.WriteVarBytes(g.script), EmulatorPackets.WriteVarBytes([]);
    var es := [EmulatorPackets.Mask(g)];
    assert es[1..] == [];
    assert EmulatorPackets.WriteEntries(es, []) == vin + script + none;
    assert [1] + vin + (script + none) == [1] + (vin + script + none);
  }

  lemma OneIsOne()
    ensures EmulatorPackets.WriteVarInt(1) == [1]
  {
  }

  /** Where neither side refuses an extension, the browser hashes the same bytes
      for it as the signature message does. */
  lemma MasksAgree(script: Bytes)
    requires IsExtension(script) && WebMaskedScript(script).Some? && MaskedScript(script).Ok?
    ensures WebMaskedScript(script).value ==
            if MaskedScript(script).value.Some? then MaskedScript(script).value.value else script
  {
    var ps := ParseExtension(script).value;
    FirstOfTypeIndex(ps, PACKET_TYPE);
    hide IsExtension, ParsePackets, PushedPayload, EncodeExtension, FirstOfType;
    hide WebCodec.ParseEntry, WebCodec.EncodeEntry, EmulatorPackets.ReadContent, EmulatorPackets.WriteContent;
    if FirstOfType(ps, PACKET_TYPE).Some? {
      var j := FirstOfType(ps, PACKET_TYPE).value;
      MaskedAt(ps, j);
      MaskedDataAgrees(ps[j].data);
    }
  }
}
