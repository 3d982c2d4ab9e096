/** Checkpoints of an offchain transaction: each input spends its own checkpoint,
    and the checkpoint passes on the value it takes. */
module Checkpoints {
  import opened Common
  import opened Transactions
  import opened Psbts

  const ANCHOR_OUTPUT: TxOut := TxOut(0, [0x51, 0x02, 0x4e, 0x73])

  datatype CheckpointError =
    | NoArkTransaction | WrongCount | NoTransaction | DuplicateCheckpoint | CheckpointNotFound | CheckpointReused
    | InputOutOfRange | NotOneInput | NotTwoOutputs | NotSpent | NotFirstOutput | OutputMismatch | BadAnchor
    | NoPrevious | InputMismatch | ValueMismatch | ArkLeaf | CheckpointLeaf

  /** A transaction's id, and the check of a taproot leaf against an input. */
  datatype Chain = Chain(txid: Tx -> Bytes, leafValid: (PsbtInput, TapLeaf) -> bool)

  // ---- indexing ----

  predicate AllPresent(cps: seq<Option<Psbt>>) {
    forall i :: 0 <= i < |cps| ==> cps[i].Some?
  }

  function IdOf(chain: Chain, cps: seq<Option<Psbt>>, i: nat): Bytes
    requires i < |cps| && cps[i].Some?
  {
    chain.txid(cps[i].value.tx)
  }

  predicate DistinctIds(chain: Chain, cps: seq<Option<Psbt>>)
    requires AllPresent(cps)
  {
    forall i, j :: 0 <= i < j < |cps| ==> IdOf(chain, cps, i) != IdOf(chain, cps, j)
  }

  predicate DistinctSpends(ins: seq<TxIn>) {
    forall i, j :: 0 <= i < j < |ins| ==> ins[i].prevOut.hash != ins[j].prevOut.hash
  }

  predicate Indexable(chain: Chain, ins: seq<TxIn>, cps: seq<Option<Psbt>>) {
    && |cps| == |ins| && AllPresent(cps) && DistinctIds(chain, cps) && DistinctSpends(ins)
    && forall k :: 0 <= k < |ins| ==> Supplied(chain, cps, ins[k].prevOut.hash)
  }

  predicate Supplied(chain: Chain, cps: seq<Option<Psbt>>, id: Bytes)
    requires AllPresent(cps)
  {
    exists i :: 0 <= i < |cps| && IdOf(chain, cps, i) == id
  }

  /** The index holds the checkpoints by id and nothing else. */
  ghost predicate Indexes(chain: Chain, cps: seq<Option<Psbt>>, m: map<Bytes, Psbt>)
    requires AllPresent(cps)
  {
    && (forall i :: 0 <= i < |cps| ==> IdOf(chain, cps, i) in m && m[IdOf(chain, cps, i)] == cps[i].value)
    && (forall id :: id in m ==> Supplied(chain, cps, id))
  }

  method IndexCheckpoints(chain: Chain, ark: Option<Psbt>, cps: seq<Option<Psbt>>)
    returns (r: Result<map<Bytes, Psbt>, CheckpointError>)
    ensures r.Ok? <==> ark.Some? && Indexable(chain, ark.value.tx.ins, cps)
    ensures r.Ok? ==> Indexes(chain, cps, r.value)
  {
    if ark.None? {
      return Err(NoArkTransaction);
    }
    var ins := ark.value.tx.ins;
    if |cps| != |ins| {
      return Err(WrongCount);
    }
    var indexed: map<Bytes, Psbt> := map[];
    for i := 0 to |cps|
      invariant AllPresent(cps[..i]) && DistinctIds(chain, cps[..i]) && Indexes(chain, cps[..i], indexed)
    {
      if cps[i].None? {
        return Err(NoTransaction);
      }
      var id := chain.txid(cps[i].value.tx);
      if id in indexed {
        var j :| 0 <= j < i && IdOf(chain, cps[..i], j) == id;
        assert AllPresent(cps) ==> IdOf(chain, cps, j) == IdOf(chain, cps, i);
        return Err(DuplicateCheckpoint);
      }
      IndexOne(chain, cps, i, indexed);
      indexed := indexed[id := cps[i].value];
    }
    assert cps[..|cps|] == cps;
    var used: set<Bytes> := {};
    for k := 0 to |ins|
      invariant forall id :: id in used <==> exists j :: 0 <= j < k && ins[j].prevOut.hash == id
      invariant DistinctSpends(ins[..k])
      invariant forall j :: 0 <= j < k ==> Supplied(chain, cps, ins[j].prevOut.hash)
    {
      var id := ins[k].prevOut.hash;
      if id !in indexed {
        return Err(CheckpointNotFound);
      }
      if id in used {
        return Err(CheckpointReused);
      }
      used := used + {id};
    }
    assert ins[..|ins|] == ins;
    return Ok(indexed);
  }

  lemma IndexOne(chain: Chain, cps: seq<Option<Psbt>>, i: nat, m: map<Bytes, Psbt>)
    requires i < |cps| && cps[i].Some? && AllPresent(cps[..i]) && DistinctIds(chain, cps[..i])
    requires Indexes(chain, cps[..i], m) && chain.txid(cps[i].value.tx) !in m
    ensures AllPresent(cps[..i + 1]) && DistinctIds(chain, cps[..i + 1])
    ensures Indexes(chain, cps[..i + 1], m[chain.txid(cps[i].value.tx) := cps[i].value])
  {
    var next, all := m[chain.txid(cps[i].value.tx) := cps[i].value], cps[..i + 1];
    forall j | 0 <= j < i
      ensures IdOf(chain, all, j) == IdOf(chain, cps[..i], j) && IdOf(chain, all, j) in m
    {
    }
    forall id | id in next
      ensures Supplied(chain, all, id)
    {
      if id in m {
        var j :| 0 <= j < i && IdOf(chain, cps[..i], j) == id;
        assert IdOf(chain, all, j) == id;
      } else {
        assert IdOf(chain, all, i) == id;
      }
    }
  }

  function Ids(chain: Chain, cps: seq<Option<Psbt>>): (r: seq<Bytes>)
    requires AllPresent(cps)
    ensures |r| == |cps| && forall i :: 0 <= i < |r| ==> r[i] == IdOf(chain, cps, i)
  {
    seq(|cps|, i requires 0 <= i < |cps| => IdOf(chain, cps, i))
  }

  function Spends(ins: seq<TxIn>): (r: seq<Bytes>)
    ensures |r| == |ins| && forall k :: 0 <= k < |r| ==> r[k] == ins[k].prevOut.hash
  {
    seq(|ins|, k requires 0 <= k < |ins| => ins[k].prevOut.hash)
  }

  /** Inputs and checkpoints are in bijection: every checkpoint is spent, by one
      input. */
  lemma EveryCheckpointSpent(chain: Chain, ins: seq<TxIn>, cps: seq<Option<Psbt>>, i: nat)
    requires Indexable(chain, ins, cps) && i < |cps|
    ensures exists k :: 0 <= k < |ins| && ins[k].prevOut.hash == IdOf(chain, cps, i)
  {
    var spends, ids := Spends(ins), Ids(chain, cps);
    DistinctCount(spends);
    DistinctCount(ids);
    forall x | x in spends
      ensures x in ids
    {
      var k :| 0 <= k < |ins| && spends[k] == x;
      assert Supplied(chain, cps, ins[k].prevOut.hash);
    }
    FullSubset(Members(spends), Members(ids));
    assert ids[i] in Members(ids);
  }

  // ---- one checkpoint ----

  predicate CheckpointOk(chain: Chain, ark: Psbt, k: int, cp: Option<Psbt>, previous: Option<TxOut>, leaf: TapLeaf) {
    && 0 <= k < |ark.inputs| && k < |ark.tx.ins|
    && cp.Some? && |cp.value.inputs| == 1 && |cp.value.tx.ins| == 1 && |cp.value.tx.outs| == 2
    && ark.tx.ins[k].prevOut == OutPoint(chain.txid(cp.value.tx), 0)
    && ark.inputs[k].utxo == Some(cp.value.tx.outs[0])
    && cp.value.tx.outs[1] == ANCHOR_OUTPUT
    && previous.Some? && cp.value.inputs[0].utxo == previous
    && cp.value.tx.outs[0].value == previous.value.value
    && chain.leafValid(ark.inputs[k], leaf) && chain.leafValid(cp.value.inputs[0], leaf)
  }

  method ValidateCheckpoint(chain: Chain, ark: Psbt, k: int, cp: Option<Psbt>, previous: Option<TxOut>, leaf: TapLeaf)
    returns (r: Option<CheckpointError>)
    ensures r.None? <==> CheckpointOk(chain, ark, k, cp, previous, leaf)
  {
    if k < 0 || k >= |ark.inputs| || k >= |ark.tx.ins| {
      return Some(InputOutOfRange);
    }
    if cp.None? || |cp.value.inputs| != 1 || |cp.value.tx.ins| != 1 {
      return Some(NotOneInput);
    }
    if |cp.value.tx.outs| != 2 {
      return Some(NotTwoOutputs);
    }
    var outpoint := ark.tx.ins[k].prevOut;
    if outpoint.hash != chain.txid(cp.value.tx) {
      return Some(NotSpent);
    }
    if outpoint.index != 0 {
      return Some(NotFirstOutput);
    }
    if ark.inputs[k].utxo != Some(cp.value.tx.outs[outpoint.index]) {
      return Some(OutputMismatch);
    }
    if cp.value.tx.outs[1] != ANCHOR_OUTPUT {
      return Some(BadAnchor);
    }
    if previous.None? {
      return Some(NoPrevious);
    }
    if cp.value.inputs[0].utxo != Some(previous.value) {
      return Some(InputMismatch);
    }
    if cp.value.tx.outs[0].value != previous.value.value {
      return Some(ValueMismatch);
    }
    if !chain.leafValid(ark.inputs[k], leaf) {
      return Some(ArkLeaf);
    }
    if !chain.leafValid(cp.value.inputs[0], leaf) {
      return Some(CheckpointLeaf);
    }
    return None;
  }

  /** An accepted checkpoint on its fields: one input that spends the previous
      output, two outputs, the first of the same value and spent by the ark input, the
      second the worthless anchor; and both inputs carry the leaf. So all it pays out
      is what it takes in, and it has no second output of any value. */
  lemma AcceptedCheckpoint(chain: Chain, ark: Psbt, k: int, cp: Option<Psbt>, previous: Option<TxOut>, leaf: TapLeaf)
    requires CheckpointOk(chain, ark, k, cp, previous, leaf)
    ensures 0 <= k < |ark.tx.ins| && k < |ark.inputs| && cp.Some? && previous.Some?
    ensures ark.tx.ins[k].prevOut.hash == chain.txid(cp.value.tx) && ark.tx.ins[k].prevOut.index == 0
    ensures |cp.value.tx.ins| == 1 && |cp.value.inputs| == 1 && cp.value.inputs[0].utxo == previous
    ensures |cp.value.tx.outs| == 2 && ark.inputs[k].utxo == Some(cp.value.tx.outs[0])
    ensures cp.value.tx.outs[1].value == 0 && cp.value.tx.outs[1].pkScript == [0x51, 0x02, 0x4e, 0x73]
    ensures cp.value.tx.outs[0].value + cp.value.tx.outs[1].value == previous.value.value
    ensures chain.leafValid(ark.inputs[k], leaf) && chain.leafValid(cp.value.inputs[0], leaf)
  {
  }

  /** And nothing else is asked of it. */
  lemma CheckpointAccepted(chain: Chain, ark: Psbt, k: int, cp: Psbt, previous: TxOut, leaf: TapLeaf)
    requires 0 <= k < |ark.tx.ins| && k < |ark.inputs|
    requires ark.tx.ins[k].prevOut.hash == chain.txid(cp.tx) && ark.tx.ins[k].prevOut.index == 0
    requires |cp.tx.ins| == 1 && |cp.inputs| == 1 && cp.inputs[0].utxo == Some(previous)
    requires |cp.tx.outs| == 2 && ark.inputs[k].utxo == Some(cp.tx.outs[0])
    requires cp.tx.outs[1].value == 0 && cp.tx.outs[1].pkScript == [0x51, 0x02, 0x4e, 0x73]
    requires cp.tx.outs[0].value == previous.value
    requires chain.leafValid(ark.inputs[k], leaf) && chain.leafValid(cp.inputs[0], leaf)
    ensures CheckpointOk(chain, ark, k, Some(cp), Some(previous), leaf)
  {
    assert cp.tx.outs[1] == TxOut(0, [0x51, 0x02, 0x4e, 0x73]);
    assert ark.tx.ins[k].prevOut == OutPoint(chain.txid(cp.tx), 0);
  }

  // ---- what the signed inputs are worth ----

  /** A signed input: its position, previous output and leaf. */
  datatype SignedInput = SignedInput(k: nat, previous: TxOut, leaf: TapLeaf)

  /** The checkpoint the index holds for an input. */
  function CheckpointOf(ark: Psbt, indexed: map<Bytes, Psbt>, k: nat): Option<Psbt> {
    if k < |ark.tx.ins| && ark.tx.ins[k].prevOut.hash in indexed then Some(indexed[ark.tx.ins[k].prevOut.hash])
    else None
  }

  predicate AllValidated(chain: Chain, ark: Psbt, indexed: map<Bytes, Psbt>, signed: seq<SignedInput>) {
    && (forall s :: s in signed ==>
          CheckpointOk(chain, ark, s.k, CheckpointOf(ark, indexed, s.k), Some(s.previous), s.leaf))
    && (forall i, j :: 0 <= i < j < |signed| ==> signed[i].k != signed[j].k)
  }

  function InputTotal(ark: Psbt, signed: seq<SignedInput>): int
    requires forall s :: s in signed ==> s.k < |ark.inputs| && ark.inputs[s.k].utxo.Some?
  {
    if signed == [] then 0 else ark.inputs[signed[0].k].utxo.value.value + InputTotal(ark, signed[1..])
  }

  function PreviousTotal(signed: seq<SignedInput>): int {
    if signed == [] then 0 else signed[0].previous.value + PreviousTotal(signed[1..])
  }

  /** With the index that indexing returned, the signed inputs are worth what their
      checkpoints spend; each of these is one of the submitted checkpoints, and none
      is counted twice. */
  lemma {:induction false} ValueConserved(
      chain: Chain, ark: Psbt, cps: seq<Option<Psbt>>, indexed: map<Bytes, Psbt>, signed: seq<SignedInput>)
    requires Indexable(chain, ark.tx.ins, cps) && Indexes(chain, cps, indexed)
    requires AllValidated(chain, ark, indexed, signed)
    ensures InputTotal(ark, signed) == PreviousTotal(signed)
    ensures forall i :: 0 <= i < |signed| ==> CheckpointOf(ark, indexed, signed[i].k) in cps
    ensures forall i, j :: 0 <= i < j < |signed| ==>
              CheckpointOf(ark, indexed, signed[i].k) != CheckpointOf(ark, indexed, signed[j].k)
    decreases |signed|
  {
    forall i | 0 <= i < |signed|
      ensures CheckpointOf(ark, indexed, signed[i].k) in cps
    {
      assert signed[i] in signed;
      OneOfThem(chain, ark, cps, indexed, signed[i].k);
    }
    forall i, j | 0 <= i < j < |signed|
      ensures CheckpointOf(ark, indexed, signed[i].k) != CheckpointOf(ark, indexed, signed[j].k)
    {
      assert signed[i] in signed && signed[j] in signed;
    }
    if signed != [] {
      assert signed[0] in signed;
      ValueConserved(chain, ark, cps, indexed, signed[1..]);
    }
  }

  lemma OneOfThem(chain: Chain, ark: Psbt, cps: seq<Option<Psbt>>, indexed: map<Bytes, Psbt>, k: nat)
    requires Indexable(chain, ark.tx.ins, cps) && Indexes(chain, cps, indexed) && k < |ark.tx.ins|
    ensures CheckpointOf(ark, indexed, k).Some? && CheckpointOf(ark, indexed, k) in cps
  {
    var id := ark.tx.ins[k].prevOut.hash;
    assert Supplied(chain, cps, id);
    var i :| 0 <= i < |cps| && IdOf(chain, cps, i) == id;
    assert cps[i] in cps;
  }
}
