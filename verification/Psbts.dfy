/** Partially signed transactions, as far as the signing pipeline looks at them.
    A reference that may be nil is an option; fields nobody inspects are one blob. */
module Psbts {
  import opened Common
  import opened Transactions

  const SIGHASH_DEFAULT: nat := 0
  const BASE_LEAF_VERSION: byte := 0xc0

  datatype TapLeaf = TapLeaf(script: Bytes, control: Bytes, version: byte)

  datatype SpendSig = SpendSig(key: Bytes, leafHash: Bytes, signature: Bytes, sigHash: nat)

  datatype PsbtInput = PsbtInput(
    utxo: Option<TxOut>,
    sigHashType: nat,
    leaves: seq<Option<TapLeaf>>,
    sigs: seq<Option<SpendSig>>,
    others: Bytes)

  datatype Psbt = Psbt(tx: Tx, inputs: seq<PsbtInput>, others: Bytes)
}
