# bitcoind-cache in Dafny

A model of `bitcoind-cache`, a write-through cache for Bitcoin chain data
(blocks, headers and the best-block tip) kept in an object store with two
operations, `get_object` and `put_object`. The model covers the cache façade
`BitcoindCache` and the three store backends: filesystem, HTTP and
Cloudflare R2 (S3-compatible), each reduced to how it maps its medium's
outcomes onto `Ok(Some)`, `Ok(None)` or `Err`.

Files and modules:

- `wrappers.dfy` (`Wrappers`): `Option` and `Result`.
- `bytes.dfy` (`Bytes`): bytes, `u32`, ASCII text as bytes, `str::split` on one byte, UTF-8 validity as `String::from_utf8` checks it.
- `hex.dfy` (`Hex`): lowercase hex rendering and the hex parser, with round trip and injectivity.
- `decimal.dfy` (`Decimal`): `u32::to_string` and `str::parse::<u32>` (optional `+`, digits only, overflow rejected), with round trip.
- `consensus.dfy` (`Consensus`): block hash, header, block and `Uint256` with their consensus encodings and decoders.
- `store.dfy` (`StoreInterface`): the `Store` trait as a class `ObjectStore` over a map from key to bytes. Per-key faults let chosen reads or writes fail with chosen errors. `StoreError` has one variant per backend.
- `cache_records.dfy` (`CacheRecords`): the pure part of `src/lib.rs`. It holds the key names, the header, height, hash and block records with their parsers, and what each `get_*` returns for a given medium. It also has the four writes of `block_connected` and the lemmas about them.
- `cache.dfy` (`Cache`): class `BitcoindCache`. Its `put_*`, `get_*`, `block_connected` and `get_cached_best_block` change or read the store's map.
- `r2.dfy` (`R2`): the two bounded retry loops and the endpoint built by `R2Store::new`.
- `filesystem.dfy` (`FileSystem`): `FileStore` over a `Disk` (file contents by path, with injected I/O errors).
- `http.dfy` (`Http`): `HttpStore` over a client given as a function from request to outcome.

Modelling choices:

- **Corrupt records.** A stored record that does not decode makes the source panic (`unwrap`/`expect`). Here it gives the distinct error `BitcoindCacheError.Corrupt(key)`.
- **Block hash and genesis block.** The cache object is given the header hash function (`blockHashOf`, double SHA-256 in the source) and the genesis block of its network (`genesis`).
- **Hash text.** `BlockHash::to_hex` prints the hash bytes in reverse order, as rust-bitcoin displays hashes. So `HashHex` is the hex of the reversed bytes.
- **Header and chainwork hex.** `serialize_hex`, `utils::hex_str` and `utils::to_vec` are modelled as the concrete `Hex.ToHex` (lowercase) and `Hex.FromHex` (even length, either case).
- **Abstract store.** A failed `put_object` leaves the map unchanged.

Where the source disagrees with itself, the model follows the code as written and records the difference:

- The two R2 retry loops are written alike but end differently. `get_object` sets `success = response.is_err()` (src/store/r2.rs:49), so it stops at the first failure. `put_object` sets `success = response.is_ok()` (src/store/r2.rs:70), so it stops at the first success. `R2.GetObject` models the first as written; `R2.GetObjectCorrected` models the read with the second (see Findings).
- The `get_*` readers panic on a record that does not decode: `unwrap` at src/lib.rs:105-110 and src/lib.rs:137, `expect` at src/lib.rs:122 and src/lib.rs:130. A panic has no value to model, so the model returns the error `Corrupt(key)` in its place (listed under Left out).

## Model

| member | source | states |
|---|---|---|
| `StoreInterface.Lookup` | src/store/mod.rs:68 | a read is an error exactly for a faulted key, and `Ok(None)` exactly when the key is unfaulted and absent |
| `StoreInterface.Put` | src/store/mod.rs:67 | an unfaulted put stores the content under its key |
| `StoreInterface.PutLeavesOthers` | src/store/mod.rs:67 | a faulted put leaves the medium unchanged, and any put leaves every other key's presence and value as they were |
| `StoreInterface.ObjectStore.GetObject` | src/store/mod.rs:68 | returns the lookup of the current map and changes nothing; an unfaulted key gives its bytes or `Ok(None)` |
| `StoreInterface.ObjectStore.PutObject` | src/store/mod.rs:67 | upserts the key unless its write is faulted, in which case it returns that error and the map is unchanged |
| `CacheRecords.BestBlockHashPath` | src/lib.rs:37-39 | the tip-hash key is a fixed non-empty ASCII name with no `/` and no `.` |
| `CacheRecords.BestBlockHeightPath` | src/lib.rs:41-43 | the tip-height key is a fixed non-empty ASCII name with no `/` and no `.` |
| `CacheRecords.HeaderPath` | src/lib.rs:45-47 | the header key is the hash text followed by exactly `.header`, and has no `/` when the hash text has none |
| `CacheRecords.BlockPath` | src/lib.rs:49-51 | the block key is the hash text followed by exactly `.block`, and has no `/` when the hash text has none |
| `CacheRecords.HeaderRecord` | src/lib.rs:85-87 | the header record is valid UTF-8 of length 160 + 1 + (digits of the height) + 1 + 64 |
| `CacheRecords.ParseHeaderRecord` | src/lib.rs:104-112 | a record that is not UTF-8 or has fewer than three comma-separated fields does not parse; a parsed height is the `u32` parse of the second field |
| `CacheRecords.HeightRecord` | src/lib.rs:65 | the height record is valid UTF-8, non-empty, all decimal digits, and its digits denote the height |
| `CacheRecords.ParseHeightRecord` | src/lib.rs:137 | a record that is not UTF-8 does not parse; a UTF-8 record parses exactly as `str::parse::<u32>` does |
| `CacheRecords.KeyShapesDistinct` | src/lib.rs:37-51 | keys `best-block-hash`, `best-block-height`, `h.header` and `h.block` never collide for any `h`; the header and block keys are injective in `h` |
| `CacheRecords.HashKeysInjective` | src/lib.rs:45-51 | distinct block hashes have distinct header keys and distinct block keys |
| `CacheRecords.HashHex` | src/lib.rs:71 | a hash's key text is 64 lowercase hex digits |
| `CacheRecords.HeaderRecordRoundTrip` | src/lib.rs:85-111 | parsing `hex(header),decimal(height),hex(chainwork)` gives back exactly the written triple (valid UTF-8, exactly three comma-free fields) |
| `CacheRecords.HeightRecordRoundTrip` | src/lib.rs:134-138 | parsing the decimal height record written at src/lib.rs:65 gives back the height |
| `CacheRecords.ReadHeader` | src/lib.rs:95-113 | a faulted read is the wrapped store error; otherwise the result is `Ok(None)` exactly when the header key is absent |
| `CacheRecords.ReadBlock` | src/lib.rs:115-124 | a faulted read is the wrapped store error; otherwise `Ok(None)` exactly when the block key is absent |
| `CacheRecords.ReadBestHash` | src/lib.rs:126-132 | a faulted read is the wrapped store error; otherwise `Ok(None)` exactly when the tip-hash key is absent |
| `CacheRecords.ReadBestHeight` | src/lib.rs:134-138 | a faulted read is the wrapped store error; otherwise `Ok(None)` exactly when the tip-height key is absent |
| `CacheRecords.PutResult` | src/lib.rs:18-22 | a single `put_*` succeeds exactly when its key's write is not faulted, and its error is the store's, wrapped as `Store` |
| `CacheRecords.WriteStep` | src/lib.rs:161-164 | one `?` step: a failing write ends the sequence with its own error and the medium unchanged; a successful one extends the applied prefix by that write |
| `CacheRecords.FirstFailure` | src/lib.rs:161-164 | the step where `block_connected` stops: all earlier writes succeed and this one (if any) fails |
| `CacheRecords.ConnectKeysDistinct` | src/lib.rs:161-164 | the four keys written by `block_connected` are pairwise distinct |
| `CacheRecords.ConnectPrefix` | src/lib.rs:161-164 | stopping before step k leaves steps before k written and later steps' keys untouched; keys other than the four never change |
| `CacheRecords.ConnectedIsReadable` | src/lib.rs:155-167 | after all four writes succeed, the block, the header triple, the tip hash and the tip height all read back as written |
| `CacheRecords.PartialConnectReads` | src/lib.rs:155-167 | a `block_connected` stopped at step k < 4 leaves the tip height as before, and the tip hash too unless step 3 ran; when the tip hash has advanced, block and header are readable |
| `CacheRecords.HeaderPutThenGet` | src/lib.rs:79-113 | `put_header` then `get_header_by_hash` for the same hash returns the same `(header, height, chainwork)` |
| `CacheRecords.BlockPutThenGet` | src/lib.rs:115-124 | `put_block` then `get_block_by_hash` of its hash returns the same block |
| `CacheRecords.HeightPutThenGet` | src/lib.rs:60-68 | `put_best_block_height(n)` then `get_best_block_height()` returns `Some(n)` |
| `CacheRecords.FreshStoreBootstrap` | src/lib.rs:144-149 | on an empty store both tip pointers are absent; connecting genesis at height 0 succeeds and makes the genesis block, its header and the tip `(genesis hash, 0)` readable |
| `Cache.BitcoindCache.PutRecord` | src/lib.rs:18-22 | performs one `put_object` and wraps its error as `Store`; the map changes only at that key |
| `Cache.BitcoindCache.PutBestBlockHash` | src/lib.rs:53-58 | writes the raw hash bytes under `best-block-hash`, or returns the wrapped store error with nothing changed |
| `Cache.BitcoindCache.PutBestBlockHeight` | src/lib.rs:60-68 | writes the decimal height under `best-block-height`, or returns the wrapped store error with nothing changed |
| `Cache.BitcoindCache.PutBlock` | src/lib.rs:70-77 | writes the encoded block under `<hash hex>.block`, or returns the wrapped store error with nothing changed |
| `Cache.BitcoindCache.PutHeader` | src/lib.rs:79-93 | writes the header record under `<hash hex>.header`, or returns the wrapped store error with nothing changed |
| `Cache.BitcoindCache.GetHeaderByHash` | src/lib.rs:95-113 | returns the decoded header record of the hash's key, and does not change the store |
| `Cache.BitcoindCache.GetBlockByHash` | src/lib.rs:115-124 | returns the decoded block of the hash's key, and does not change the store |
| `Cache.BitcoindCache.GetBestBlockHash` | src/lib.rs:126-132 | returns the decoded tip hash, and does not change the store |
| `Cache.BitcoindCache.GetBestBlockHeight` | src/lib.rs:134-138 | returns the decoded tip height, and does not change the store |
| `Cache.BitcoindCache.BlockConnected` | src/lib.rs:155-167 | writes block, header, tip hash, tip height in order and stops at the first failing write. The store is the old one plus the writes before that step; the result is `Ok` or that write's error wrapped as `Store` |
| `Cache.BitcoindCache.GetCachedBestBlock` | src/lib.rs:140-153 | read errors are returned with no write. If either pointer is absent it runs `block_connected(genesis, 0, 0)` and returns `(genesis hash, 0)` or the connect error. If both are present it returns them and writes nothing |
| `Bytes.SplitField` | src/lib.rs:106 | a comma-free field splits off whole, and splitting resumes after the separator that ends it |
| `Bytes.SplitThree` | src/lib.rs:106 | three comma-free fields joined by commas split into exactly those three fields |
| `Bytes.AsciiIsUtf8` | src/lib.rs:105 | every ASCII record is valid UTF-8, so `String::from_utf8` accepts what the cache writes |
| `Hex.HexRoundTrip` | src/lib.rs:108 | the hex parser reads back exactly the bytes the lowercase renderer wrote |
| `Hex.HexInjective` | src/lib.rs:71 | distinct byte strings render to distinct hex text |
| `Hex.HexHasNoComma` | src/lib.rs:87 | rendered hex contains no comma, so it is a safe comma-delimited field |
| `Decimal.ToDecimal` | src/lib.rs:65 | `to_string` yields at least one ASCII digit with no leading zero |
| `Decimal.ParseU32` | src/lib.rs:137 | after an optional leading `+`, an empty or non-digit remainder is rejected, a value of 2^32 or more is rejected, and an accepted value is the decimal value of the digits; a parse succeeds only on non-empty ASCII text |
| `Decimal.DecimalRoundTrip` | src/lib.rs:137 | parsing the decimal text of any `u32` gives it back |
| `Consensus.ConsensusRoundTrip` | src/lib.rs:115-131 | decoding inverts encoding for hashes, headers, blocks and `Uint256` |
| `Consensus.LeRoundTrip` | src/lib.rs:110 | the little-endian encoding of a value below 256^k reads back as that value |
| `R2.New` | src/store/r2.rs:21-25 | the region is `auto`, and the endpoint is `https://`, then the account id unchanged, then `.r2.cloudflarestorage.com` |
| `R2.AttemptCount` | src/store/r2.rs:43-52 | the loop makes between 1 and 30 attempts and ends at the first stopping attempt or at the 30th |
| `R2.GetOutcome` | src/store/r2.rs:54-58 | the read's result is never `Ok(None)` |
| `R2.CorrectedGetOutcome` | src/store/r2.rs:49 | the corrected read's result is never `Ok(None)` |
| `R2.GetObject` | src/store/r2.rs:41-60 | 1 to 30 requests, all for the same filename. Every attempt before the last succeeded. The result comes from the last attempt and is never `Ok(None)`, so the `None` arm is unreachable |
| `R2.PutObject` | src/store/r2.rs:62-81 | 1 to 30 requests, all with the same filename and content. Every attempt before the last failed. The result comes from the last attempt, so the `None` arm is unreachable |
| `R2.PutStopsAtFirstSuccess` | src/store/r2.rs:68-76 | when attempt k is the first success, `put_object` makes k + 1 attempts and returns `Ok` (k = 29 is "29 failures then success") |
| `R2.PutAllFail` | src/store/r2.rs:64-79 | when all 30 attempts fail, `put_object` returns the 30th attempt's own error as `StoreError::R2` |
| `R2.GetStopsAtFirstFailure` | src/store/r2.rs:47-56 | as written, when attempt k is the first failure, `get_object` makes k + 1 attempts and returns that error |
| `R2.GetRepeatsSuccesses` | src/store/r2.rs:47-55 | as written, while attempts succeed `get_object` repeats the request 30 times and returns the 30th response's bytes |
| `R2.GetGivesUpOnFlakyBucket` | src/store/r2.rs:49 | on a bucket that times out 29 times and then answers, `get_object` as written fails after one attempt, while the corrected loop succeeds |
| `R2.GetObjectCorrected` | src/store/r2.rs:49 | with `success = is_ok()`: 1 to 30 requests for one filename, every attempt before the last failed, the result comes from the last attempt and is never `Ok(None)` |
| `R2.CorrectedGetStopsAtFirstSuccess` | src/store/r2.rs:70 | the corrected read returns the bytes of the first successful attempt k after k + 1 attempts |
| `FileSystem.ReadFile` | src/store/filesystem.rs:19 | an unfaulted read succeeds exactly when a file exists at the path |
| `FileSystem.WriteFile` | src/store/filesystem.rs:34 | an unfaulted write replaces the file's whole content; other paths are untouched |
| `FileSystem.Disk.Write` | src/store/filesystem.rs:34 | overwrites the file unless its write is faulted, in which case it returns that error and changes nothing |
| `FileSystem.ClassifyRead` | src/store/filesystem.rs:19-28 | content becomes `Ok(Some(content))` unchanged; `NotFound` becomes `Ok(None)`, never an error; any other error becomes `Err(Io(e))` |
| `FileSystem.New` | src/store/filesystem.rs:10-13 | a store exists exactly when directory creation succeeds, keeping `root_dir` unchanged; otherwise the creation error is returned |
| `FileSystem.FileStore.PathOf` | src/store/filesystem.rs:19 | the path is `root_dir`, one `/`, then the filename unchanged |
| `FileSystem.FileStore.GetObject` | src/store/filesystem.rs:17-30 | an unfaulted read gives the file's bytes or, with no file at the path, `Ok(None)`; a `NotFound` error is `Ok(None)`; any other read error is `Err(Io(e))` |
| `FileSystem.FileStore.PutObject` | src/store/filesystem.rs:32-37 | writes the content at `root_dir/filename` and returns `Ok(())`, or returns `Err(Io(e))` with the files unchanged; after a successful put an unfaulted get returns the written bytes |
| `FileSystem.PathInjective` | src/store/filesystem.rs:19 | within one store, distinct filenames address distinct paths |
| `FileSystem.PutThenGet` | src/store/filesystem.rs:34 | after a successful put, a get of the same filename returns the written bytes and every other filename reads as before |
| `FileSystem.MissingFileIsAbsent` | src/store/filesystem.rs:22-23 | a filename with no file reads as `Ok(None)` |
| `Http.HttpStore.GetObject` | src/store/http.rs:16-32 | GETs `host/filename`. A success status with a readable body gives the body; any other status gives `Ok(None)`; a transport or body error gives `Err(Reqwest(e))` |
| `Http.HttpStore.PutObject` | src/store/http.rs:34-47 | PUTs the content unchanged to `host/filename`; `Ok(())` exactly when the request is delivered, whatever the status; a send failure is `Err(Reqwest(e))` |
| `Http.HttpStore.UrlOf` | src/store/http.rs:18 | the URL is the host, one `/`, then the filename unchanged |
| `Http.GetFromObjectServer` | src/store/http.rs:18-27 | against a server answering 200 with the object or 404, `get_object` returns the object or absence, matching the store contract |
| `Http.UrlInjective` | src/store/http.rs:18 | within one store, distinct filenames address distinct URLs |

## Left out

- Real I/O is not modelled: `tokio::fs::read`/`write`, `fs::create_dir_all`, `reqwest` and the `s3::Bucket` calls become injected outcomes (fault maps, a client function, an attempt-outcome function).
- Async scheduling and concurrency are not modelled. This includes the race where two callers both bootstrap genesis in `get_cached_best_block`.
- The R2 10-second request timeout is not modelled. Neither are credential and bucket construction and their `unwrap`s (src/store/r2.rs:26-35); `R2.New` ignores the key parameters.
- Double SHA-256 and `genesis_block(network)` live in an external crate. They are constructor parameters of `Cache.BitcoindCache`; `Network` is not modelled.
- `src/utils` (`hex_str`, `to_vec`) is not part of this model. Both are taken to be the concrete `Hex.ToHex` / `Hex.FromHex`.
- `src/store/mod.rs`: the feature-selected `AnyStore` dispatch only forwards calls. The cache runs over the abstract `StoreInterface.ObjectStore`, and the three backends are modelled on their own, not wired into the cache.
- `Consensus.DeserializeBlock`: accepts any bytes of length at least 80. Transactions are kept as opaque bytes, so malformed transaction data that rust-bitcoin would reject (a panic in `get_block_by_hash`) is not reported as `Corrupt`.
- `Consensus.DeserializeHeader`: a header is its 80-byte encoding. Its fields (version, previous hash, merkle root, time, bits, nonce) are not decoded.
- `Cache.BitcoindCache.GetHeaderByHash`, `GetBlockByHash`, `GetBestBlockHash`, `GetBestBlockHeight`: a record that does not decode is the error `Corrupt(key)`, where the source panics.
- `StoreInterface.ObjectStore.PutObject`: a failed write changes nothing. A partially written file after a crash (filesystem backend) is not modelled, and store faults are fixed per key rather than varying over time.
- `FileSystem.ClassifyRead`: I/O error kinds other than `NotFound` are one kind, `OtherKind`.
- `HttpStore::new` and `BitcoindCache::new` only store their arguments. They are the datatype constructor and the class constructor.

## Findings

| source | as written | input that shows it | evidently intended | confidence | as-written member | corrected member |
|---|---|---|---|---|---|---|
| src/store/r2.rs:49 | `success = response.is_err()`: the read loop stops at the first failed attempt and repeats successful ones up to 30 times | a bucket that times out on attempts 1 to 29 and answers on attempt 30: the read returns the first timeout after one attempt | `success = response.is_ok()`, as in `put_object` (src/store/r2.rs:70): retry failures, stop at the first success | high; not executed | `R2.GetObject`, `R2.GetGivesUpOnFlakyBucket` | `R2.GetObjectCorrected`, `R2.CorrectedGetStopsAtFirstSuccess` |
