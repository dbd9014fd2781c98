/** The records that the block reader fills and every other part of the indexer reads. */
module BlockchainTypes {
  datatype Option<+T> = None | Some(value: T)

  type Byte = x: nat | x < 256

  /** Block and transaction hashes are kept as the reversed hexadecimal text used by block explorers. */
  type Hash = string

  type Address = string

  type Script = seq<Byte>

  /** The hash that the genesis block names as its predecessor, and a coinbase input as its source. */
  const ZERO_HASH: Hash := "0000000000000000" + "0000000000000000" + "0000000000000000" + "0000000000000000"

  datatype Outpoint = Outpoint(txHash: Hash, index: nat)

  datatype TransactionInput = TransactionInput(
    index: nat,
    txHash: Hash,
    txoIndex: nat,
    sequence: nat,
    coinbase: bool,
    script: Script,
    witnessData: seq<seq<Byte>>)

  datatype TransactionOutput = TransactionOutput(value: nat, script: Script, index: nat)

  datatype Transaction = Transaction(
    inputs: seq<TransactionInput>,
    outputs: seq<TransactionOutput>,
    txHash: Hash,
    txWitHash: Hash,
    filePosition: nat,
    byteSize: nat,
    version: nat,
    lockTime: nat)

  datatype Block = Block(
    fileName: string,
    filePosition: nat,
    blockHash: Hash,
    previousBlockHash: Hash,
    merkleRoot: Hash,
    height: nat,
    byteSize: nat,
    time: nat,
    bits: nat,
    nonce: nat,
    version: nat,
    transactions: seq<Transaction>,
    mainChain: bool)

  datatype ScannedBlock = ScannedBlock(
    fileName: string,
    filePosition: nat,
    blockHash: Hash,
    previousBlockHash: Hash,
    mainChain: bool)
}
