/**
 * `BitcoindCache` (src/lib.rs): the chain cache over one object store. The
 * store's medium is the only state; every method reads or writes it through
 * `get_object` / `put_object` and stops at the first failing call.
 */
module Cache {
  import opened Wrappers
  import opened Bytes
  import opened Consensus
  import opened StoreInterface
  import opened CacheRecords

  class BitcoindCache {
    const store: ObjectStore
    /** `genesis_block(network)` for the configured network. */
    const genesis: Block
    /** `BlockHeader::block_hash` (double SHA-256 of the encoded header). */
    const blockHashOf: BlockHeader -> BlockHash

    constructor (store: ObjectStore, genesis: Block, blockHashOf: BlockHeader -> BlockHash)
      ensures this.store == store && this.genesis == genesis && this.blockHashOf == blockHashOf
    {
      this.store := store;
      this.genesis := genesis;
      this.blockHashOf := blockHashOf;
    }

    /** Performs one write and wraps its error (the `?` on `put_object`). */
    method PutRecord(w: Write) returns (r: Result<(), BitcoindCacheError>)
      modifies store
      ensures r == PutResult(store.putFaults, w)
      ensures store.objects == Put(old(store.objects), store.putFaults, w.key, w.content)
    {
      var put := store.PutObject(w.key, w.content);
      match put
      case Ok(_) => r := Ok(());
      case Err(e) => r := Err(Store(e));
    }

    method PutBestBlockHash(blockHash: BlockHash) returns (r: Result<(), BitcoindCacheError>)
      modifies store
      ensures r == PutResult(store.putFaults, BestHashWrite(blockHash))
      ensures var w := BestHashWrite(blockHash);
        && w.key == BestBlockHashPath() && w.content == SerializeHash(blockHash)
        && store.objects == Put(old(store.objects), store.putFaults, w.key, w.content)
    {
      r := PutRecord(BestHashWrite(blockHash));
    }

    method PutBestBlockHeight(height: uint32) returns (r: Result<(), BitcoindCacheError>)
      modifies store
      ensures r == PutResult(store.putFaults, BestHeightWrite(height))
      ensures var w := BestHeightWrite(height);
        && w.key == BestBlockHeightPath() && w.content == HeightRecord(height)
        && store.objects == Put(old(store.objects), store.putFaults, w.key, w.content)
    {
      r := PutRecord(BestHeightWrite(height));
    }

    method PutBlock(block: Block) returns (r: Result<(), BitcoindCacheError>)
      modifies store
      ensures r == PutResult(store.putFaults, BlockWrite(blockHashOf, block))
      ensures var w := BlockWrite(blockHashOf, block);
        && w.key == BlockPath(HashHex(blockHashOf(block.header))) && w.content == SerializeBlock(block)
        && store.objects == Put(old(store.objects), store.putFaults, w.key, w.content)
    {
      r := PutRecord(BlockWrite(blockHashOf, block));
    }

    method PutHeader(header: BlockHeader, height: uint32, chainwork: Uint256) returns (r: Result<(), BitcoindCacheError>)
      modifies store
      ensures r == PutResult(store.putFaults, HeaderWrite(blockHashOf, header, height, chainwork))
      ensures var w := HeaderWrite(blockHashOf, header, height, chainwork);
        && w.key == HeaderPath(HashHex(blockHashOf(header))) && w.content == HeaderRecord(header, height, chainwork)
        && store.objects == Put(old(store.objects), store.putFaults, w.key, w.content)
    {
      r := PutRecord(HeaderWrite(blockHashOf, header, height, chainwork));
    }

    method GetHeaderByHash(hash: BlockHash) returns (r: Result<Option<(BlockHeader, uint32, Uint256)>, BitcoindCacheError>)
      ensures r == ReadHeader(store.objects, store.getFaults, hash)
    {
      var key := HeaderPath(HashHex(hash));
      var bytes := store.GetObject(key);
      r := Decoded(key, bytes, ParseHeaderRecord);
    }

    method GetBlockByHash(hash: BlockHash) returns (r: Result<Option<Block>, BitcoindCacheError>)
      ensures r == ReadBlock(store.objects, store.getFaults, hash)
    {
      var key := BlockPath(HashHex(hash));
      var bytes := store.GetObject(key);
      r := Decoded(key, bytes, DeserializeBlock);
    }

    method GetBestBlockHash() returns (r: Result<Option<BlockHash>, BitcoindCacheError>)
      ensures r == ReadBestHash(store.objects, store.getFaults)
    {
      var key := BestBlockHashPath();
      var bytes := store.GetObject(key);
      r := Decoded(key, bytes, DeserializeHash);
    }

    method GetBestBlockHeight() returns (r: Result<Option<uint32>, BitcoindCacheError>)
      ensures r == ReadBestHeight(store.objects, store.getFaults)
    {
      var key := BestBlockHeightPath();
      var bytes := store.GetObject(key);
      r := Decoded(key, bytes, ParseHeightRecord);
    }

    /**
     * Block, header, tip hash, tip height, in that order; the first failing
     * write ends the sequence, earlier writes stay and later ones are not made.
     */
    method BlockConnected(block: Block, height: uint32, chainwork: Uint256) returns (r: Result<(), BitcoindCacheError>)
      modifies store
      ensures var writes := ConnectWrites(blockHashOf, block, height, chainwork);
        && r == WritesResult(writes, store.putFaults)
        && store.objects == ApplyAll(old(store.objects), writes[..FirstFailure(writes, store.putFaults)])
    {
      ghost var writes := ConnectWrites(blockHashOf, block, height, chainwork);
      ConnectWritesAre(blockHashOf, block, height, chainwork);
      ghost var before := store.objects;
      AppliedNone(before, writes, store.putFaults);
      WriteStep(before, writes, store.putFaults, 0, store.objects);
      r := PutBlock(block);
      if r.Err? {
        return;
      }
      WriteStep(before, writes, store.putFaults, 1, store.objects);
      r := PutHeader(block.header, height, chainwork);
      if r.Err? {
        return;
      }
      WriteStep(before, writes, store.putFaults, 2, store.objects);
      r := PutBestBlockHash(blockHashOf(block.header));
      if r.Err? {
        return;
      }
      WriteStep(before, writes, store.putFaults, 3, store.objects);
      r := PutBestBlockHeight(height);
      if r.Err? {
        return;
      }
      AppliedAll(before, writes, store.putFaults, store.objects);
    }

    /**
     * The tip (hash, height). When either pointer is absent the genesis block
     * is connected at height 0 with zero chainwork and its hash is returned
     * with height 0; when both are present they are returned and nothing is
     * written. A read error is returned before anything is written.
     */
    method GetCachedBestBlock() returns (r: Result<(BlockHash, uint32), BitcoindCacheError>)
      modifies store
      ensures var hashRead := ReadBestHash(old(store.objects), store.getFaults);
        var heightRead := ReadBestHeight(old(store.objects), store.getFaults);
        var writes := ConnectWrites(blockHashOf, genesis, 0, 0);
        if hashRead.Err? then r == Err(hashRead.error) && store.objects == old(store.objects)
        else if heightRead.Err? then r == Err(heightRead.error) && store.objects == old(store.objects)
        else if hashRead.value.None? || heightRead.value.None? then
          && store.objects == ApplyAll(old(store.objects), writes[..FirstFailure(writes, store.putFaults)])
          && r == (if WritesResult(writes, store.putFaults).Ok? then Ok((blockHashOf(genesis.header), 0))
                   else Err(WritesResult(writes, store.putFaults).error))
        else r == Ok((hashRead.value.value, heightRead.value.value)) && store.objects == old(store.objects)
    {
      var bestHash := GetBestBlockHash();
      if bestHash.Err? {
        return Err(bestHash.error);
      }
      var bestHeight := GetBestBlockHeight();
      if bestHeight.Err? {
        return Err(bestHeight.error);
      }
      if bestHash.value.None? || bestHeight.value.None? {
        var genesisHash := blockHashOf(genesis.header);
        var connected := BlockConnected(genesis, 0, 0);
        if connected.Err? {
          return Err(connected.error);
        }
        r := Ok((genesisHash, 0));
      } else {
        r := Ok((bestHash.value.value, bestHeight.value.value));
      }
    }
  }
}
