/** Transactions as the VM and the policy code see them. */
module Transactions {
  import opened Common
  import opened ScriptErrors
  import opened ExtensionFormat

  const MAX_SATOSHI: int := 2_100_000_000_000_000
  const MAX_SEQUENCE: nat := 0xffff_ffff

  datatype OutPoint = OutPoint(hash: Bytes, index: nat)
  datatype TxIn = TxIn(prevOut: OutPoint, sigScript: Bytes, sequence: nat)
  datatype TxOut = TxOut(value: int, pkScript: Bytes)
  datatype Tx = Tx(version: int, lockTime: nat, ins: seq<TxIn>, outs: seq<TxOut>)

  function VarIntSize(n: nat): nat {
    if n < 0xfd then 1 else if n <= 0xffff then 3 else if n <= 0xffff_ffff then 5 else 9
  }

  function InputsSize(ins: seq<TxIn>): nat {
    if ins == [] then 0
    else 40 + VarIntSize(|ins[0].sigScript|) + |ins[0].sigScript| + InputsSize(ins[1..])
  }

  function OutputsSize(outs: seq<TxOut>): nat {
    if outs == [] then 0
    else 8 + VarIntSize(|outs[0].pkScript|) + |outs[0].pkScript| + OutputsSize(outs[1..])
  }

  /** The serialized size without witness data. */
  function StrippedSize(tx: Tx): (r: nat)
    ensures r > 0
  {
    8 + VarIntSize(|tx.ins|) + VarIntSize(|tx.outs|) + InputsSize(tx.ins) + OutputsSize(tx.outs)
  }

  /** The widths of the wire fields, and of the machine integers that hold sizes. */
  ghost predicate WireWidths(tx: Tx) {
    && -0x8000_0000 <= tx.version < 0x8000_0000
    && tx.lockTime <= 0xffff_ffff
    && |tx.ins| < 0x8000_0000 && |tx.outs| < 0x8000_0000
    && (forall i :: i in tx.ins ==> i.sequence <= 0xffff_ffff && i.prevOut.index <= 0xffff_ffff)
    && StrippedSize(tx) <= 0x1fff_ffff_ffff_ff00
  }

  // ---- witness programs ----

  /** A small-integer opcode and one direct push of 2 to 40 bytes. */
  predicate IsWitnessProgram(s: Bytes) {
    && 4 <= |s| <= 42
    && (s[0] == 0 || 0x51 <= s[0] <= 0x60)
    && s[1] as int == |s| - 2
  }

  function WitnessVersion(s: Bytes): int
    requires IsWitnessProgram(s)
  {
    if s[0] == 0 then 0 else s[0] as int - 0x50
  }

  function WitnessProgram(s: Bytes): Bytes
    requires IsWitnessProgram(s)
  {
    s[2..]
  }

  /** Version and program determine the script. */
  lemma WitnessProgramUnique(s: Bytes, t: Bytes)
    requires IsWitnessProgram(s) && IsWitnessProgram(t)
    ensures s == t <==> WitnessVersion(s) == WitnessVersion(t) && WitnessProgram(s) == WitnessProgram(t)
  {
    if WitnessVersion(s) == WitnessVersion(t) && WitnessProgram(s) == WitnessProgram(t) {
      assert |s| == |t| && s[0] == t[0] && s[1] == t[1];
      assert s == [s[0], s[1]] + s[2..];
      assert t == [t[0], t[1]] + t[2..];
    }
  }

  lemma WitnessProgramIsNoExtension(s: Bytes)
    requires IsWitnessProgram(s)
    ensures !IsExtension(s)
  {
  }

  // ---- extension packets of a transaction ----

  /** The first output that carries an extension, if any. */
  function FirstExtension(outs: seq<TxOut>): Option<nat> {
    if outs == [] then None
    else if IsExtension(outs[0].pkScript) then Some(0)
    else
      match FirstExtension(outs[1..])
      case None => None
      case Some(i) => Some(i + 1)
  }

  lemma {:induction false} FirstExtensionIndex(outs: seq<TxOut>)
    ensures match FirstExtension(outs)
            case None => forall i :: 0 <= i < |outs| ==> !IsExtension(outs[i].pkScript)
            case Some(k) =>
              && k < |outs| && IsExtension(outs[k].pkScript)
              && forall i :: 0 <= i < k ==> !IsExtension(outs[i].pkScript)
  {
    if outs != [] {
      FirstExtensionIndex(outs[1..]);
    }
  }

  lemma {:induction false} FirstExtensionAt(outs: seq<TxOut>, k: nat)
    requires k < |outs| && IsExtension(outs[k].pkScript)
    requires forall i :: 0 <= i < k ==> !IsExtension(outs[i].pkScript)
    ensures FirstExtension(outs) == Some(k)
  {
    hide IsExtension;
    if k > 0 {
      FirstExtensionAt(outs[1..], k - 1);
    }
  }

  lemma {:induction false} NoExtension(outs: seq<TxOut>)
    requires forall i :: 0 <= i < |outs| ==> !IsExtension(outs[i].pkScript)
    ensures FirstExtension(outs) == None
  {
    hide IsExtension;
    if outs != [] {
      NoExtension(outs[1..]);
    }
  }

  function DataOfType(ps: seq<Packet>, typ: byte): Option<Bytes> {
    if ps == [] then None
    else if ps[0].typ == typ then Some(ps[0].data)
    else DataOfType(ps[1..], typ)
  }

  /** findPacketByType: an unreadable extension is an error, a missing one is not. */
  function FindPacket(tx: Tx, typ: byte): Result<Option<Bytes>, ErrorCode> {
    match FirstExtension(tx.outs)
    case None => Ok(None)
    case Some(k) =>
      (FirstExtensionIndex(tx.outs);
       match ParseExtension(tx.outs[k].pkScript)
       case None => Err(InvalidStackOperation)
       case Some(ps) => Ok(DataOfType(ps, typ)))
  }
}
