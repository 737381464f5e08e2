/**
 * The pure half of the chain cache (src/lib.rs): the key names, the record
 * formats written under them and their parsers, what each `get_*` returns for
 * a given medium, and the four writes of `block_connected`.
 */
module CacheRecords {
  import opened Wrappers
  import opened Bytes
  import opened Hex
  import opened Decimal
  import opened Consensus
  import opened StoreInterface

  /**
   * `BitcoindCacheError`. `Corrupt` stands for the `unwrap`/`expect` panics
   * on a stored record that does not decode.
   */
  datatype BitcoindCacheError = Store(cause: StoreError) | Corrupt(key: string)

  // Key derivation

  /** `best_block_hash_path`: a fixed, flat file name with no dot, so no hash key can equal it. */
  function BestBlockHashPath(): (key: string)
    ensures |key| > 0 && IsAscii(key) && '/' !in key && '.' !in key
  {
    "best-block-hash"
  }

  /** `best_block_height_path`: a fixed, flat file name with no dot, so no hash key can equal it. */
  function BestBlockHeightPath(): (key: string)
    ensures |key| > 0 && IsAscii(key) && '/' !in key && '.' !in key
  {
    "best-block-height"
  }

  /** `header_path`: the hash text followed by `.header`; flat whenever the hash text is. */
  function HeaderPath(blockHash: string): (key: string)
    ensures |key| == |blockHash| + 7 && key[..|blockHash|] == blockHash && key[|blockHash|..] == ".header"
    ensures '/' !in blockHash ==> '/' !in key
  {
    var key := blockHash + ".header";
    assert key[..|blockHash|] == blockHash && key[|blockHash|..] == ".header";
    key
  }

  /** `block_path`: the hash text followed by `.block`; flat whenever the hash text is. */
  function BlockPath(blockHash: string): (key: string)
    ensures |key| == |blockHash| + 6 && key[..|blockHash|] == blockHash && key[|blockHash|..] == ".block"
    ensures '/' !in blockHash ==> '/' !in key
  {
    var key := blockHash + ".block";
    assert key[..|blockHash|] == blockHash && key[|blockHash|..] == ".block";
    key
  }

  /** `BlockHash::to_hex`: hashes are displayed with their bytes reversed. */
  function HashHex(h: BlockHash): (s: string)
    ensures |s| == 64 && IsLowerHex(s)
  {
    ToHex(Reverse(h.bytes))
  }

  /** The four key shapes never collide, and each per-hash key determines its hash text. */
  lemma KeyShapesDistinct(a: string, b: string)
    ensures HeaderPath(a) != BlockPath(b)
    ensures HeaderPath(a) != BestBlockHashPath() && HeaderPath(a) != BestBlockHeightPath()
    ensures BlockPath(a) != BestBlockHashPath() && BlockPath(a) != BestBlockHeightPath()
    ensures BestBlockHashPath() != BestBlockHeightPath()
    ensures HeaderPath(a) == HeaderPath(b) ==> a == b
    ensures BlockPath(a) == BlockPath(b) ==> a == b
  {
    var ha, ba, hb, bb := HeaderPath(a), BlockPath(a), HeaderPath(b), BlockPath(b);
    assert ha[|ha| - 1] == 'r' && bb[|bb| - 1] == 'k' && ba[|ba| - 1] == 'k';
    assert BestBlockHashPath()[14] == 'h' && BestBlockHeightPath()[16] == 't';
    if ha == hb {
      assert a == ha[..|a|] && b == hb[..|b|];
    }
    if ba == bb {
      assert a == ba[..|a|] && b == bb[..|b|];
    }
  }

  /** Distinct block hashes get distinct header keys and distinct block keys. */
  lemma HashKeysInjective(a: BlockHash, b: BlockHash)
    ensures HeaderPath(HashHex(a)) == HeaderPath(HashHex(b)) ==> a == b
    ensures BlockPath(HashHex(a)) == BlockPath(HashHex(b)) ==> a == b
  {
    KeyShapesDistinct(HashHex(a), HashHex(b));
    HexInjective(Reverse(a.bytes), Reverse(b.bytes));
    ReverseInjective(a.bytes, b.bytes);
  }

  // Record formats

  /** `hex(header),decimal(height),hex(chainwork)`. */
  function HeaderRecordText(header: BlockHeader, height: uint32, chainwork: Uint256): (s: string)
    ensures IsAscii(s)
  {
    ToHex(SerializeHeader(header)) + "," + ToDecimal(height) + "," + ToHex(SerializeUint256(chainwork))
  }

  /**
   * The bytes `put_header` stores: valid UTF-8 text of 160 header digits, a
   * comma, the height's digits, a comma and 64 chainwork digits.
   */
  function HeaderRecord(header: BlockHeader, height: uint32, chainwork: Uint256): (record: seq<uint8>)
    ensures ValidUtf8(record)
    ensures |record| == 2 * HEADER_LEN + 1 + |ToDecimal(height)| + 1 + 2 * 32
  {
    var record := AsciiBytes(HeaderRecordText(header, height, chainwork));
    AsciiIsUtf8(record);
    record
  }

  /**
   * The decoding in `get_header_by_hash`: UTF-8 text, split on ',', the
   * first three fields parsed as header hex, decimal height and chainwork
   * hex. Fewer than three fields or a field that does not parse is corrupt
   * (None); fields after the third are ignored.
   */
  function ParseHeaderRecord(record: seq<uint8>): (r: Option<(BlockHeader, uint32, Uint256)>)
    ensures !ValidUtf8(record) ==> r.None?
    ensures |Split(record, COMMA)| < 3 ==> r.None?
    ensures r.Some? ==> ParseU32(Split(record, COMMA)[1]) == Some(r.value.1)
  {
    if !ValidUtf8(record) then None
    else
      var parts := Split(record, COMMA);
      if |parts| < 3 then None
      else
        match (FromHex(parts[0]), ParseU32(parts[1]), FromHex(parts[2]))
        case (Some(headerBytes), Some(height), Some(workBytes)) =>
          (match (DeserializeHeader(headerBytes), DeserializeUint256(workBytes))
           case (Some(header), Some(chainwork)) => Some((header, height, chainwork))
           case _ => None)
        case _ => None
  }

  /** A header record is the three fields' bytes joined by commas. */
  lemma HeaderRecordBytes(header: BlockHeader, height: uint32, chainwork: Uint256)
    ensures HeaderRecord(header, height, chainwork)
      == AsciiBytes(ToHex(SerializeHeader(header))) + [COMMA]
         + AsciiBytes(ToDecimal(height)) + [COMMA]
         + AsciiBytes(ToHex(SerializeUint256(chainwork)))
  {
    var hx, dec, wx := ToHex(SerializeHeader(header)), ToDecimal(height), ToHex(SerializeUint256(chainwork));
    AsciiBytesConcat(hx, ",");
    AsciiBytesConcat(hx + ",", dec);
    AsciiBytesConcat(hx + "," + dec, ",");
    AsciiBytesConcat(hx + "," + dec + ",", wx);
    assert AsciiBytes(",") == [COMMA];
  }

  /** A header record reads back as the triple that was written. */
  lemma HeaderRecordRoundTrip(header: BlockHeader, height: uint32, chainwork: Uint256)
    ensures ParseHeaderRecord(HeaderRecord(header, height, chainwork)) == Some((header, height, chainwork))
  {
    var a := AsciiBytes(ToHex(SerializeHeader(header)));
    var b := AsciiBytes(ToDecimal(height));
    var c := AsciiBytes(ToHex(SerializeUint256(chainwork)));
    var record := HeaderRecord(header, height, chainwork);
    HeaderRecordBytes(header, height, chainwork);
    AsciiIsUtf8(record);
    HexHasNoComma(SerializeHeader(header));
    DecimalHasNoComma(height);
    HexHasNoComma(SerializeUint256(chainwork));
    SplitThree(a, b, c, COMMA);
    assert Split(record, COMMA) == [a, b, c];
    HexRoundTrip(SerializeHeader(header));
    HexRoundTrip(SerializeUint256(chainwork));
    DecimalRoundTrip(height);
    ConsensusRoundTrip(BlockHash(seq(32, i => 0)), header, Block(header, []), chainwork);
  }

  /** `height.to_string()` as bytes. */
  function HeightRecord(height: uint32): (record: seq<uint8>)
    ensures ValidUtf8(record)
    ensures |record| > 0 && AllDigits(record) && DigitsValue(record) == height
  {
    var record := AsciiBytes(ToDecimal(height));
    AsciiIsUtf8(record);
    DecimalValue(height);
    record
  }

  /** `String::from_utf8(..).unwrap().parse().unwrap()`; None is corrupt. */
  function ParseHeightRecord(record: seq<uint8>): (r: Option<uint32>)
    ensures !ValidUtf8(record) ==> r.None?
    ensures ValidUtf8(record) ==> r == ParseU32(record)
  {
    if !ValidUtf8(record) then None else ParseU32(record)
  }

  /** A height record reads back as the height that was written. */
  lemma HeightRecordRoundTrip(height: uint32)
    ensures ParseHeightRecord(HeightRecord(height)) == Some(height)
  {
    AsciiIsUtf8(HeightRecord(height));
    DecimalRoundTrip(height);
  }

  // Reads

  /**
   * A `get_*` result: a store error is wrapped, absence stays absence, and
   * present bytes are decoded, a decoding failure being `Corrupt(key)`.
   */
  function Decoded<T>(key: string, lookup: Result<Option<seq<uint8>>, StoreError>, decode: seq<uint8> -> Option<T>)
    : (r: Result<Option<T>, BitcoindCacheError>)
  {
    match lookup
    case Err(e) => Err(Store(e))
    case Ok(None) => Ok(None)
    case Ok(Some(bytes)) =>
      match decode(bytes)
      case Some(v) => Ok(Some(v))
      case None => Err(Corrupt(key))
  }

  function ReadHeader(objects: map<string, seq<uint8>>, getFaults: map<string, StoreError>, hash: BlockHash)
    : (r: Result<Option<(BlockHeader, uint32, Uint256)>, BitcoindCacheError>)
    ensures var key := HeaderPath(HashHex(hash));
      && (key !in getFaults ==> (r == Ok(None) <==> key !in objects))
      && (key in getFaults ==> r == Err(Store(getFaults[key])))
  {
    var key := HeaderPath(HashHex(hash));
    Decoded(key, Lookup(objects, getFaults, key), ParseHeaderRecord)
  }

  function ReadBlock(objects: map<string, seq<uint8>>, getFaults: map<string, StoreError>, hash: BlockHash)
    : (r: Result<Option<Block>, BitcoindCacheError>)
    ensures var key := BlockPath(HashHex(hash));
      && (key !in getFaults ==> (r == Ok(None) <==> key !in objects))
      && (key in getFaults ==> r == Err(Store(getFaults[key])))
  {
    var key := BlockPath(HashHex(hash));
    Decoded(key, Lookup(objects, getFaults, key), DeserializeBlock)
  }

  function ReadBestHash(objects: map<string, seq<uint8>>, getFaults: map<string, StoreError>)
    : (r: Result<Option<BlockHash>, BitcoindCacheError>)
    ensures var key := BestBlockHashPath();
      && (key !in getFaults ==> (r == Ok(None) <==> key !in objects))
      && (key in getFaults ==> r == Err(Store(getFaults[key])))
  {
    var key := BestBlockHashPath();
    Decoded(key, Lookup(objects, getFaults, key), DeserializeHash)
  }

  function ReadBestHeight(objects: map<string, seq<uint8>>, getFaults: map<string, StoreError>)
    : (r: Result<Option<uint32>, BitcoindCacheError>)
    ensures var key := BestBlockHeightPath();
      && (key !in getFaults ==> (r == Ok(None) <==> key !in objects))
      && (key in getFaults ==> r == Err(Store(getFaults[key])))
  {
    var key := BestBlockHeightPath();
    Decoded(key, Lookup(objects, getFaults, key), ParseHeightRecord)
  }

  // Writes

  datatype Write = Write(key: string, content: seq<uint8>)

  function BlockWrite(hashOf: BlockHeader -> BlockHash, block: Block): (w: Write) {
    Write(BlockPath(HashHex(hashOf(block.header))), SerializeBlock(block))
  }

  function HeaderWrite(hashOf: BlockHeader -> BlockHash, header: BlockHeader, height: uint32, chainwork: Uint256): (w: Write) {
    Write(HeaderPath(HashHex(hashOf(header))), HeaderRecord(header, height, chainwork))
  }

  function BestHashWrite(hash: BlockHash): (w: Write) {
    Write(BestBlockHashPath(), SerializeHash(hash))
  }

  function BestHeightWrite(height: uint32): (w: Write) {
    Write(BestBlockHeightPath(), HeightRecord(height))
  }

  /** What a single `put_*` returns: the store's error wrapped, or `Ok`. */
  function PutResult(putFaults: map<string, StoreError>, w: Write): (r: Result<(), BitcoindCacheError>)
    ensures r.Ok? <==> w.key !in putFaults
  {
    if w.key in putFaults then Err(Store(putFaults[w.key])) else Ok(())
  }

  /** The writes of `block_connected`, in the order it performs them. */
  function ConnectWrites(hashOf: BlockHeader -> BlockHash, block: Block, height: uint32, chainwork: Uint256): (writes: seq<Write>) {
    [ BlockWrite(hashOf, block),
      HeaderWrite(hashOf, block.header, height, chainwork),
      BestHashWrite(hashOf(block.header)),
      BestHeightWrite(height) ]
  }

  lemma ConnectWritesAre(hashOf: BlockHeader -> BlockHash, block: Block, height: uint32, chainwork: Uint256)
    ensures var writes := ConnectWrites(hashOf, block, height, chainwork);
      && |writes| == 4
      && writes[0] == BlockWrite(hashOf, block)
      && writes[1] == HeaderWrite(hashOf, block.header, height, chainwork)
      && writes[2] == BestHashWrite(hashOf(block.header))
      && writes[3] == BestHeightWrite(height)
  {
  }

  /** The medium after the given writes all succeed, in order. */
  function ApplyAll(objects: map<string, seq<uint8>>, writes: seq<Write>): (m: map<string, seq<uint8>>) {
    if |writes| == 0 then objects
    else
      var last := writes[|writes| - 1];
      ApplyAll(objects, writes[..|writes| - 1])[last.key := last.content]
  }

  /** The medium holds exactly the first k writes applied to `before`, and none of them failed. */
  ghost predicate Applied(before: map<string, seq<uint8>>, writes: seq<Write>, putFaults: map<string, StoreError>,
                          k: nat, objects: map<string, seq<uint8>>)
  {
    && k <= |writes|
    && (forall j | 0 <= j < k :: writes[j].key !in putFaults)
    && objects == ApplyAll(before, writes[..k])
  }

  /**
   * One step of a write sequence that stops at its first failure: write k
   * either fails, which ends the sequence with its error and the medium
   * unchanged, or extends the applied prefix by one.
   */
  lemma WriteStep(before: map<string, seq<uint8>>, writes: seq<Write>, putFaults: map<string, StoreError>,
                  k: nat, objects: map<string, seq<uint8>>)
    requires k < |writes| && Applied(before, writes, putFaults, k, objects)
    ensures var after := Put(objects, putFaults, writes[k].key, writes[k].content);
      if writes[k].key in putFaults then
        && PutResult(putFaults, writes[k]) == WritesResult(writes, putFaults)
        && after == ApplyAll(before, writes[..FirstFailure(writes, putFaults)])
      else
        && PutResult(putFaults, writes[k]) == Ok(())
        && Applied(before, writes, putFaults, k + 1, after)
  {
    if writes[k].key in putFaults {
      FirstFailureAt(writes, putFaults, k);
    } else {
      assert writes[..k + 1][..k] == writes[..k];
    }
  }

  /** Nothing has been written yet. */
  lemma AppliedNone(before: map<string, seq<uint8>>, writes: seq<Write>, putFaults: map<string, StoreError>)
    ensures Applied(before, writes, putFaults, 0, before)
  {
    assert writes[..0] == [];
  }

  /** When every write has succeeded, the sequence's result is `Ok` and the medium has all of them. */
  lemma AppliedAll(before: map<string, seq<uint8>>, writes: seq<Write>, putFaults: map<string, StoreError>,
                   objects: map<string, seq<uint8>>)
    requires Applied(before, writes, putFaults, |writes|, objects)
    ensures WritesResult(writes, putFaults) == Ok(())
    ensures objects == ApplyAll(before, writes[..FirstFailure(writes, putFaults)])
  {
    FirstFailureAt(writes, putFaults, |writes|);
    assert writes[..|writes|] == writes;
  }

  /** The index of the first write whose key fails, or the number of writes when none does. */
  function FirstFailure(writes: seq<Write>, putFaults: map<string, StoreError>): (k: nat)
    ensures k <= |writes|
    ensures forall i | 0 <= i < k :: writes[i].key !in putFaults
    ensures k < |writes| ==> writes[k].key in putFaults
  {
    if |writes| == 0 then 0
    else if writes[0].key in putFaults then 0
    else 1 + FirstFailure(writes[1..], putFaults)
  }

  /** The first failure is at i when the writes before i succeed and write i (if any) fails. */
  lemma FirstFailureAt(writes: seq<Write>, putFaults: map<string, StoreError>, i: nat)
    requires i <= |writes|
    requires forall j | 0 <= j < i :: writes[j].key !in putFaults
    requires i < |writes| ==> writes[i].key in putFaults
    ensures FirstFailure(writes, putFaults) == i
  {
  }

  /** `Ok` when every write succeeds, otherwise the first failing write's error, wrapped. */
  function WritesResult(writes: seq<Write>, putFaults: map<string, StoreError>): (r: Result<(), BitcoindCacheError>) {
    var k := FirstFailure(writes, putFaults);
    if k == |writes| then Ok(()) else Err(Store(putFaults[writes[k].key]))
  }

  predicate SameAt(m: map<string, seq<uint8>>, m': map<string, seq<uint8>>, key: string) {
    (key in m <==> key in m') && (key in m ==> m[key] == m'[key])
  }

  predicate DistinctKeys(writes: seq<Write>) {
    forall i, j | 0 <= i < j < |writes| :: writes[i].key != writes[j].key
  }

  function KeysOf(writes: seq<Write>): (keys: set<string>) {
    set i | 0 <= i < |writes| :: writes[i].key
  }

  /** With distinct keys every write lands, and a key no write names keeps its old state. */
  lemma {:induction false} ApplyDistinct(objects: map<string, seq<uint8>>, writes: seq<Write>)
    requires DistinctKeys(writes)
    ensures forall i | 0 <= i < |writes| ::
      writes[i].key in ApplyAll(objects, writes) && ApplyAll(objects, writes)[writes[i].key] == writes[i].content
    ensures forall key | key !in KeysOf(writes) :: SameAt(ApplyAll(objects, writes), objects, key)
    decreases |writes|
  {
    if |writes| > 0 {
      var init := writes[..|writes| - 1];
      ApplyDistinct(objects, init);
      assert forall i | 0 <= i < |init| :: init[i] == writes[i];
      assert KeysOf(writes) == KeysOf(init) + {writes[|writes| - 1].key};
    }
  }

  /**
   * Writes with distinct keys, stopped before index k: the first k hold their
   * contents, the keys of the others and every key no write names are as before.
   */
  lemma PrefixWrites(objects: map<string, seq<uint8>>, writes: seq<Write>, k: nat)
    requires DistinctKeys(writes) && k <= |writes|
    ensures var after := ApplyAll(objects, writes[..k]);
      && (forall i | 0 <= i < k :: writes[i].key in after && after[writes[i].key] == writes[i].content)
      && (forall i | k <= i < |writes| :: SameAt(after, objects, writes[i].key))
      && (forall key | key !in KeysOf(writes) :: SameAt(after, objects, key))
  {
    var done := writes[..k];
    assert DistinctKeys(done);
    ApplyDistinct(objects, done);
    assert KeysOf(done) <= KeysOf(writes);
    forall i | k <= i < |writes| ensures writes[i].key !in KeysOf(done) {
    }
  }

  /** The four keys `block_connected` writes are pairwise distinct. */
  lemma ConnectKeysDistinct(hashOf: BlockHeader -> BlockHash, block: Block, height: uint32, chainwork: Uint256)
    ensures DistinctKeys(ConnectWrites(hashOf, block, height, chainwork))
  {
    var hex := HashHex(hashOf(block.header));
    KeyShapesDistinct(hex, hex);
  }

  /**
   * After `block_connected` stopped before step `k` (or completed, k = 4):
   * the first k writes hold their records, later writes' keys are as before,
   * and no other key changed.
   */
  lemma ConnectPrefix(hashOf: BlockHeader -> BlockHash, objects: map<string, seq<uint8>>,
                      block: Block, height: uint32, chainwork: Uint256, k: nat)
    requires k <= 4
    ensures var writes := ConnectWrites(hashOf, block, height, chainwork);
      var after := ApplyAll(objects, writes[..k]);
      && (forall i | 0 <= i < k :: writes[i].key in after && after[writes[i].key] == writes[i].content)
      && (forall i | k <= i < 4 :: SameAt(after, objects, writes[i].key))
      && (forall key | key !in KeysOf(writes) :: SameAt(after, objects, key))
  {
    ConnectKeysDistinct(hashOf, block, height, chainwork);
    PrefixWrites(objects, ConnectWrites(hashOf, block, height, chainwork), k);
  }

  /** After a complete `block_connected` on a medium that serves these keys, all four records read back. */
  lemma ConnectedIsReadable(hashOf: BlockHeader -> BlockHash, objects: map<string, seq<uint8>>,
                            getFaults: map<string, StoreError>, block: Block, height: uint32, chainwork: Uint256)
    requires forall w | w in ConnectWrites(hashOf, block, height, chainwork) :: w.key !in getFaults
    ensures var after := ApplyAll(objects, ConnectWrites(hashOf, block, height, chainwork));
      var hash := hashOf(block.header);
      && ReadBlock(after, getFaults, hash) == Ok(Some(block))
      && ReadHeader(after, getFaults, hash) == Ok(Some((block.header, height, chainwork)))
      && ReadBestHash(after, getFaults) == Ok(Some(hash))
      && ReadBestHeight(after, getFaults) == Ok(Some(height))
  {
    var writes := ConnectWrites(hashOf, block, height, chainwork);
    ConnectWritesAre(hashOf, block, height, chainwork);
    ConnectPrefix(hashOf, objects, block, height, chainwork, 4);
    assert writes[..4] == writes;
    assert writes[0] in writes && writes[1] in writes && writes[2] in writes && writes[3] in writes;
    ConsensusRoundTrip(hashOf(block.header), block.header, block, chainwork);
    HeaderRecordRoundTrip(block.header, height, chainwork);
    HeightRecordRoundTrip(height);
  }

  /**
   * The cache's consistency guarantee: when `block_connected` stops at step
   * k < 4, the tip height still reads as before, the tip hash too unless it
   * was written (k = 3), and once the tip hash is written the block and its
   * header are readable.
   */
  lemma PartialConnectReads(hashOf: BlockHeader -> BlockHash, objects: map<string, seq<uint8>>,
                            getFaults: map<string, StoreError>, block: Block, height: uint32, chainwork: Uint256, k: nat)
    requires k < 4
    requires forall w | w in ConnectWrites(hashOf, block, height, chainwork) :: w.key !in getFaults
    ensures var after := ApplyAll(objects, ConnectWrites(hashOf, block, height, chainwork)[..k]);
      var hash := hashOf(block.header);
      && ReadBestHeight(after, getFaults) == ReadBestHeight(objects, getFaults)
      && (k < 3 ==> ReadBestHash(after, getFaults) == ReadBestHash(objects, getFaults))
      && (k == 3 ==> ReadBestHash(after, getFaults) == Ok(Some(hash)))
      && (k >= 1 ==> ReadBlock(after, getFaults, hash) == Ok(Some(block)))
      && (k >= 2 ==> ReadHeader(after, getFaults, hash) == Ok(Some((block.header, height, chainwork))))
  {
    var writes := ConnectWrites(hashOf, block, height, chainwork);
    ConnectWritesAre(hashOf, block, height, chainwork);
    ConnectPrefix(hashOf, objects, block, height, chainwork, k);
    assert writes[0] in writes && writes[1] in writes && writes[2] in writes && writes[3] in writes;
    ConsensusRoundTrip(hashOf(block.header), block.header, block, chainwork);
    HeaderRecordRoundTrip(block.header, height, chainwork);
  }

  // Put then get

  /** `put_header` then `get_header_by_hash` of the same hash gives back the triple written. */
  lemma HeaderPutThenGet(hashOf: BlockHeader -> BlockHash, objects: map<string, seq<uint8>>,
                         getFaults: map<string, StoreError>, putFaults: map<string, StoreError>,
                         header: BlockHeader, height: uint32, chainwork: Uint256)
    requires HeaderWrite(hashOf, header, height, chainwork).key !in putFaults
    requires HeaderWrite(hashOf, header, height, chainwork).key !in getFaults
    ensures var w := HeaderWrite(hashOf, header, height, chainwork);
      ReadHeader(Put(objects, putFaults, w.key, w.content), getFaults, hashOf(header)) == Ok(Some((header, height, chainwork)))
  {
    HeaderRecordRoundTrip(header, height, chainwork);
  }

  /** `put_block` then `get_block_by_hash` of its hash gives back the same block. */
  lemma BlockPutThenGet(hashOf: BlockHeader -> BlockHash, objects: map<string, seq<uint8>>,
                        getFaults: map<string, StoreError>, putFaults: map<string, StoreError>, block: Block)
    requires BlockWrite(hashOf, block).key !in putFaults && BlockWrite(hashOf, block).key !in getFaults
    ensures var w := BlockWrite(hashOf, block);
      ReadBlock(Put(objects, putFaults, w.key, w.content), getFaults, hashOf(block.header)) == Ok(Some(block))
  {
    ConsensusRoundTrip(hashOf(block.header), block.header, block, 0);
  }

  /** `put_best_block_height(n)` then `get_best_block_height()` gives `Some(n)`. */
  lemma HeightPutThenGet(objects: map<string, seq<uint8>>, getFaults: map<string, StoreError>,
                         putFaults: map<string, StoreError>, height: uint32)
    requires BestBlockHeightPath() !in putFaults && BestBlockHeightPath() !in getFaults
    ensures ReadBestHeight(Put(objects, putFaults, BestBlockHeightPath(), HeightRecord(height)), getFaults) == Ok(Some(height))
  {
    HeightRecordRoundTrip(height);
  }

  /**
   * On a fresh medium both tip pointers are absent, so `get_cached_best_block`
   * connects the genesis block; all four writes succeed and afterwards the
   * genesis block, its header and the tip (genesis hash, 0) read back.
   */
  lemma FreshStoreBootstrap(hashOf: BlockHeader -> BlockHash, genesis: Block)
    ensures ReadBestHash(map[], map[]) == Ok(None) && ReadBestHeight(map[], map[]) == Ok(None)
    ensures var writes := ConnectWrites(hashOf, genesis, 0, 0);
      var after := ApplyAll(map[], writes);
      var hash := hashOf(genesis.header);
      && WritesResult(writes, map[]) == Ok(())
      && FirstFailure(writes, map[]) == 4
      && ReadBlock(after, map[], hash) == Ok(Some(genesis))
      && ReadHeader(after, map[], hash) == Ok(Some((genesis.header, 0, 0)))
      && ReadBestHash(after, map[]) == Ok(Some(hash))
      && ReadBestHeight(after, map[]) == Ok(Some(0))
  {
    var writes := ConnectWrites(hashOf, genesis, 0, 0);
    FirstFailureAt(writes, map[], 4);
    ConnectedIsReadable(hashOf, map[], map[], genesis, 0, 0);
  }
}
