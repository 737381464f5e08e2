/**
 * The Bitcoin values the cache stores, with their consensus encodings.
 * Hashing (double SHA-256) and the contents of a block's transactions are
 * not modelled: a header is its 80-byte encoding, a block's transactions are
 * carried as their encoded bytes, and the header hash is a function the
 * cache is given.
 */
module Consensus {
  import opened Wrappers
  import opened Bytes

  const HASH_LEN: nat := 32
  const HEADER_LEN: nat := 80

  type Bytes32 = s: seq<uint8> | |s| == 32 witness seq(32, i => 0)
  type Bytes80 = s: seq<uint8> | |s| == 80 witness seq(80, i => 0)

  datatype BlockHash = BlockHash(bytes: Bytes32)
  datatype BlockHeader = BlockHeader(bytes: Bytes80)
  datatype Block = Block(header: BlockHeader, txdata: seq<uint8>)

  const TWO_POW_256: nat := Pow256(32)
  type Uint256 = n: nat | n < TWO_POW_256

  function SerializeHash(h: BlockHash): (b: seq<uint8>) {
    h.bytes
  }

  function DeserializeHash(b: seq<uint8>): (r: Option<BlockHash>)
    ensures r.Some? <==> |b| == HASH_LEN
  {
    if |b| == HASH_LEN then Some(BlockHash(b)) else None
  }

  function SerializeHeader(h: BlockHeader): (b: seq<uint8>) {
    h.bytes
  }

  function DeserializeHeader(b: seq<uint8>): (r: Option<BlockHeader>)
    ensures r.Some? <==> |b| == HEADER_LEN
  {
    if |b| == HEADER_LEN then Some(BlockHeader(b)) else None
  }

  /** A block is encoded as its header followed by its transactions. */
  function SerializeBlock(b: Block): (s: seq<uint8>)
    ensures |s| >= HEADER_LEN && s[..HEADER_LEN] == SerializeHeader(b.header)
  {
    b.header.bytes + b.txdata
  }

  function DeserializeBlock(b: seq<uint8>): (r: Option<Block>)
    ensures r.Some? <==> |b| >= HEADER_LEN
  {
    if |b| >= HEADER_LEN then Some(Block(BlockHeader(b[..HEADER_LEN]), b[HEADER_LEN..])) else None
  }

  /** `k` bytes of `n`, least significant first. */
  function LeBytes(n: nat, k: nat): (s: seq<uint8>)
    ensures |s| == k
  {
    if k == 0 then [] else [n % 256] + LeBytes(n / 256, k - 1)
  }

  function LeValue(s: seq<uint8>): (v: nat) {
    if |s| == 0 then 0 else s[0] + 256 * LeValue(s[1..])
  }

  function Pow256(k: nat): (p: nat)
    ensures p >= 1
  {
    if k == 0 then 1 else 256 * Pow256(k - 1)
  }

  lemma {:induction false} LeRoundTrip(n: nat, k: nat)
    requires n < Pow256(k)
    ensures LeValue(LeBytes(n, k)) == n
  {
    if k > 0 {
      LeRoundTrip(n / 256, k - 1);
    }
  }

  lemma {:induction false} LeValueBound(s: seq<uint8>)
    ensures LeValue(s) < Pow256(|s|)
  {
    if |s| > 0 {
      LeValueBound(s[1..]);
    }
  }

  /** `Uint256` is encoded as 32 bytes, least significant first. */
  function SerializeUint256(n: Uint256): (s: seq<uint8>)
    ensures |s| == 32
  {
    LeBytes(n, 32)
  }

  function DeserializeUint256(b: seq<uint8>): (r: Option<Uint256>)
    ensures r.Some? <==> |b| == 32
  {
    if |b| == 32 then
      LeValueBound(b);
      Some(LeValue(b))
    else None
  }

  /** Decoding inverts encoding for every value the cache stores. */
  lemma ConsensusRoundTrip(h: BlockHash, hd: BlockHeader, b: Block, w: Uint256)
    ensures DeserializeHash(SerializeHash(h)) == Some(h)
    ensures DeserializeHeader(SerializeHeader(hd)) == Some(hd)
    ensures DeserializeBlock(SerializeBlock(b)) == Some(b)
    ensures DeserializeUint256(SerializeUint256(w)) == Some(w)
  {
    var s := SerializeBlock(b);
    assert s[HEADER_LEN..] == b.txdata;
    LeRoundTrip(w, 32);
  }
}
