# Poly relay chain: Bitcoin header sync and the DataReq message

This project models two parts of the poly relay chain in Dafny.

**The Bitcoin header-sync store** (`native/service/header_sync/btc`). Relayers submit headers of a foreign Bitcoin-style chain. The native service keeps, per chain:
- every accepted header, keyed by its block hash, with its height and the cumulative work of its branch;
- a height index of the best branch;
- the best tip.

`SyncGenesisHeader` anchors the chain with a trusted header and its height. `SyncBlockHeader` takes a batch and handles its headers one by one:
- a known header is skipped;
- a header whose parent is unknown is an orphan and stops the batch;
- a header that the chain's proof-of-work rules refuse also stops it;
- any other header is stored one above its parent, with the parent's work plus its own;
- when that work strictly exceeds the best's, the header becomes the best and the height index is rewritten back to the common ancestor.

`GetHeaderByHeight`, `GetHeaderByHash` and `GetBestBlockHeader` read the store.

**The P2P `DataReq` payload** (`p2pserver/message/types/data_req.go`, command "getdata"). It is one inventory-type byte followed by a 32-byte hash. It is written to a growing byte sink and read from a byte source with a cursor.

Files:
- `common.dfy`: bytes, 32-byte hashes, `Option` and `Result`, and 32-bit little- and big-endian integers with their round trips.
- `btc_wire.dfy`: the 80-byte block header, its encoding and decoding, and the round trips between them.
- `header_store.dfy`: the store as a value.
  - The operations are functions from store to store.
  - `Consistent` is the store invariant: records keyed by their hash; every record one above a stored parent with the parent's work plus its own; no record with more work than the best; the height index covering exactly the genesis height to the best height along the best branch.
  - The lemmas show that every operation keeps `Consistent`.
- `fork_choice.dfy`: genesis sync, and a batch that extends the best branch.
- `fork_switch.dfy`:
  - a side branch with no more work than the best;
  - the header that makes a side branch heavier, and the reorganisation it causes.
- `sync_facts.dfy`: refused headers, re-submission, and how the best tip moves.
- `btc_handler.dfy`: the store as an object whose fields the handler's methods update in place. Each method is proved to produce what the matching `HeaderStore` function specifies, so every lemma about those functions holds of the object.
- `data_req.dfy`: the byte sink, the byte source, the `DataReq` object, and its codec properties.

## Model

| member | source | states |
|---|---|---|
| Common.BERoundTrip | native/service/header_sync/btc/header_sync_test.go:132-133 | the 4-byte big-endian height of the genesis payload reads back as the value written |
| BtcWire.EncodeHeader | native/service/header_sync/btc/header_sync_test.go:86 | the encoding is 80 bytes; BtcWire.DecodeEncode and BtcWire.EncodeDecode are its round trips |
| BtcWire.DecodeHeader | native/service/header_sync/btc/header_sync_test.go:54-56 | decoding gives a header exactly when at least 80 bytes are available |
| BtcWire.DecodeEncode | native/service/header_sync/btc/header_sync_test.go:51-70 | decoding an encoded header gives it back, whatever bytes follow it |
| BtcWire.EncodeDecode | native/service/header_sync/btc/header_sync_test.go:63-70 | re-encoding a decoded header gives the 80 bytes it was read from |
| HeaderStore.SyncGenesis | native/service/header_sync/btc/header_sync_test.go:129-145 | an initialised chain is never changed by it, a failure changes nothing, and success leaves the chain initialised; what it stores is stated by ForkChoice.GenesisOnEmpty and ForkChoice.GenesisIsFixed, and that it keeps the invariant by HeaderStore.GenesisConsistent |
| HeaderStore.AddHeader | native/service/header_sync/btc/header_sync_test.go:162 | no ensures of its own (one header of SyncBlockHeader); stated by HeaderStore.AddHeaderConsistent, ForkChoice.AppendToBest, ForkChoice.StorePassive, ForkChoice.StoreHeavier and SyncFacts.AddHeaderErrorKeepsStore |
| HeaderStore.RewriteFrom | native/service/header_sync/btc/header_sync_test.go:199-202 | no ensures of its own (the walk back to the common ancestor); stated by HeaderStore.RewriteCanonical and HeaderStore.ReorgConsistent, and run in place by BtcHandler.HeaderSyncStore.RewriteBelow |
| HeaderStore.Truncate | native/service/header_sync/btc/header_sync_test.go:199-202 | no ensures of its own (the heights above the new tip dropped); run in place by BtcHandler.HeaderSyncStore.DropAbove |
| HeaderStore.Reorganize | native/service/header_sync/btc/header_sync_test.go:195-202 | no ensures of its own (the whole index rewrite); stated by HeaderStore.ReorgConsistent, ForkSwitch.OvertakeHeights and ForkSwitch.OvertakeKeepsBelow, and run in place by BtcHandler.HeaderSyncStore.Reorganise |
| HeaderStore.SyncBatch | native/service/header_sync/btc/header_sync_test.go:153-163 | a batch keeps the store consistent, keeps the genesis, never drops or alters a record, and never lowers the best work |
| HeaderStore.SyncBlockHeader | native/service/header_sync/btc/header_sync_test.go:162 | SyncBlockHeader keeps the store consistent, never changes the genesis and never loses or alters a stored record |
| HeaderStore.HeaderByHash | native/service/header_sync/btc/header_sync_test.go:185-186 | found exactly when the hash is stored; the record found has that block hash; otherwise NotFound |
| HeaderStore.HeaderByHeight | native/service/header_sync/btc/header_sync_test.go:167-168 | found exactly for the heights from the genesis height to the best height; the record found has the height asked for; otherwise NotFound |
| HeaderStore.BestHeader | native/service/header_sync/btc/header_sync_test.go:180-181 | found exactly once a genesis exists; its hash is the best tip's; no stored record has more cumulative work; it is also the answer by height at its own height |
| HeaderStore.BestIsBestRecord | native/service/header_sync/btc/header_sync_test.go:197 | once initialised, GetBestBlockHeader answers the best tip's record; this only unfolds BestHeader's definition, for ForkSwitch.OvertakeBest |
| HeaderStore.ByHeightIsAncestor | native/service/header_sync/btc/header_sync_test.go:199-202 | the answer by height d below the best height is the best tip's d-th ancestor, down to the genesis height |
| HeaderStore.IndexAncestry | native/service/header_sync/btc/header_sync_test.go:165-169 | the height index lists ancestors: the entry d below an indexed height is the d-th ancestor of the entry there |
| HeaderStore.GenesisConsistent | native/service/header_sync/btc/header_sync_test.go:143-145 | SyncGenesisHeader keeps the store consistent |
| HeaderStore.AddHeaderConsistent | native/service/header_sync/btc/header_sync_test.go:162 | one header keeps the store consistent, keeps the genesis, keeps every record, and never lowers the best work |
| HeaderStore.ReorgConsistent | native/service/header_sync/btc/header_sync_test.go:195-202 | storing a heavier header and rewriting the index from its branch back to the common ancestor keeps the store consistent |
| HeaderStore.PassiveConsistent | native/service/header_sync/btc/header_sync_test.go:178-181 | storing a header with no more work than the best, leaving index and best alone, keeps the store consistent |
| ForkChoice.GenesisPayload | native/service/header_sync/btc/header_sync_test.go:129-137 | the genesis payload is the 80-byte header and the 4-byte height |
| ForkChoice.GenesisOnEmpty | native/service/header_sync/btc/header_sync_test.go:128-146 | genesis sync on the empty store succeeds; afterwards the genesis is the best header, the only height answered is its own, and it is found by its hash |
| ForkChoice.GenesisIsFixed | native/service/header_sync/btc/header_sync_test.go:143-145 | on an initialised chain, the same genesis again is a no-op and a different one fails with GenesisConflict; the store is unchanged either way |
| ForkChoice.AppendToBest | native/service/header_sync/btc/header_sync_test.go:153-163 | a new header on the best tip is stored one above it with the added work, becomes the best, and is appended to the height index |
| ForkChoice.StorePassive | native/service/header_sync/btc/header_sync_test.go:172-179 | a new header whose work does not exceed the best's is stored above its parent; best and height index stay; nothing else is added |
| ForkChoice.StoreHeavier | native/service/header_sync/btc/header_sync_test.go:190-196 | a new header whose work exceeds the best's is stored above its parent and becomes the best |
| ForkChoice.SyncBatchCons | native/service/header_sync/btc/header_sync_test.go:162 | after an accepted first header the batch goes on with the rest, from the store that header leaves |
| ForkChoice.SyncBatchStops | native/service/header_sync/btc/header_sync_test.go:214-215 | the first refused header stops the batch with its error; this only unfolds SyncBatch's error branch, for the refusal lemmas |
| ForkChoice.SyncOne | native/service/header_sync/btc/header_sync_test.go:190-196 | a batch of one header is that header's step |
| ForkChoice.ExtendBest | native/service/header_sync/btc/header_sync_test.go:153-163 | a batch linking onto the best tip, all new, whose headers the chain's checks accept where the batch meets them (each against the record stored just before it and the headers stored by then), succeeds; its last header becomes the best, at the old best height plus the batch length |
| ForkChoice.ExtendBestHeights | native/service/header_sync/btc/header_sync_test.go:165-169 | after that batch, its i-th header is answered at the old best height + 1 + i, with the work of the headers up to it |
| ForkChoice.ExtendBestRefused | native/service/header_sync/btc/header_sync_test.go:153-163 | the test never runs this path; the same batch, but with a header the chain's checks refuse where the batch meets it (for instance bits that do not fit the parent under the network's difficulty rules), fails with InvalidProofOfWork |
| ForkChoice.ExtendBestKeepsBelow | native/service/header_sync/btc/header_sync_test.go:165-169 | after that batch, every height up to the old best answers as before |
| ForkSwitch.LighterIndex | native/service/header_sync/btc/header_sync_test.go:172-179 | a side branch with no more work than the best, whose headers the chain's checks accept where the batch meets them, succeeds; best and height index unchanged; every header stored above its parent; nothing else added |
| ForkSwitch.LighterRefused | native/service/header_sync/btc/header_sync_test.go:172-179 | the test never runs this path; a side branch with no more work than the best but with a header the chain's checks refuse where the batch meets it fails with InvalidProofOfWork, and leaves the best and the height index as they were |
| ForkSwitch.LighterForkKeepsBest | native/service/header_sync/btc/header_sync_test.go:172-181 | that batch succeeds and leaves GetBestBlockHeader and every GetHeaderByHeight answer as they were |
| ForkSwitch.LighterForkByHash | native/service/header_sync/btc/header_sync_test.go:183-187 | every header of that branch is found by its hash, with its height and cumulative work |
| ForkSwitch.Overtake | native/service/header_sync/btc/header_sync_test.go:190-196 | the header that gives a stored side branch more work than the best, accepted by the chain's checks against its stored parent and the stored headers, is accepted by the store, becomes the best, and is stored at its place on the branch |
| ForkSwitch.OvertakeStore | native/service/header_sync/btc/header_sync_test.go:190-196 | after that header, the whole branch is stored above the fork point and its last header is the best |
| ForkSwitch.OvertakeBest | native/service/header_sync/btc/header_sync_test.go:190-198 | GetBestBlockHeader then answers the branch's tip, at the fork point's height plus the branch length, with the branch's cumulative work |
| ForkSwitch.OvertakeHeights | native/service/header_sync/btc/header_sync_test.go:199-202 | GetHeaderByHeight then answers the i-th header of the branch at the fork point's height + 1 + i, for every header of the branch |
| ForkSwitch.OvertakeKeepsBelow | native/service/header_sync/btc/header_sync_test.go:199-202 | when the fork point is on the best branch, every height up to it answers as before the reorganisation |
| SyncFacts.AddHeaderErrorKeepsStore | native/service/header_sync/btc/header_sync_test.go:208-215 | a refused header leaves the store unchanged; the error is MalformedHeader, OrphanHeader or InvalidProofOfWork |
| SyncFacts.ShortHeaderRejected | native/service/header_sync/btc/header_sync_test.go:54-56 | fewer than 80 bytes fail with MalformedHeader and change nothing |
| SyncFacts.OrphanRejected | native/service/header_sync/btc/header_sync_test.go:208-215 | a new header whose parent is not stored fails with OrphanHeader and changes nothing |
| SyncFacts.InvalidWorkRejected | native/service/header_sync/btc/header_sync_test.go:149 | line 149 only selects the network parameters whose rules the check applies; the test never runs the refusal path. A new header the chain's checks refuse against its stored parent fails with InvalidProofOfWork and changes nothing |
| SyncFacts.UninitialisedRejected | native/service/header_sync/btc/header_sync_test.go:148-150 | before a genesis, every batch fails with ChainNotInitialized and changes nothing; this is SyncBlockHeader's first branch, stated as a fact of its own |
| SyncFacts.SyncedAreKnown | native/service/header_sync/btc/header_sync_test.go:204-206 | after a successful batch every one of its headers is stored |
| SyncFacts.KnownBatchIsNoOp | native/service/header_sync/btc/header_sync_test.go:204-206 | a batch of stored headers succeeds and leaves the store as it was |
| SyncFacts.ResubmitIsNoOp | native/service/header_sync/btc/header_sync_test.go:204-206 | re-submitting a batch that succeeded succeeds and changes nothing |
| SyncFacts.AddHeaderBestMoves | native/service/header_sync/btc/header_sync_test.go:172-198 | one header leaves the best tip or moves it to a record with strictly more cumulative work |
| SyncFacts.BestMovesOnlyOnMoreWork | native/service/header_sync/btc/header_sync_test.go:172-198 | over a batch the best tip stays or ends on a record with strictly more cumulative work; ties keep the first-seen branch |
| BtcHandler.HeaderSyncStore.constructor | native/service/header_sync/btc/header_sync_test.go:143 | a new handler's store is empty and consistent |
| BtcHandler.HeaderSyncStore.SyncGenesisHeader | native/service/header_sync/btc/header_sync_test.go:144 | updates the fields to what SyncGenesis specifies, keeping them consistent |
| BtcHandler.HeaderSyncStore.SyncBlockHeaders | native/service/header_sync/btc/header_sync_test.go:162 | loops over the batch and leaves the fields and the error that SyncBlockHeader specifies, keeping them consistent |
| BtcHandler.HeaderSyncStore.AddOne | native/service/header_sync/btc/header_sync_test.go:162 | one header of the batch: the fields and the error that AddHeader specifies |
| BtcHandler.HeaderSyncStore.Reorganise | native/service/header_sync/btc/header_sync_test.go:199-202 | rewrites the height index in place to the specified reorganised index; headers, genesis and best are untouched |
| BtcHandler.HeaderSyncStore.RewriteBelow | native/service/header_sync/btc/header_sync_test.go:199-202 | walks back from the new tip's parent and points each height at the branch until the common ancestor |
| BtcHandler.HeaderSyncStore.DropAbove | native/service/header_sync/btc/header_sync_test.go:199-202 | removes the heights above the new tip, up to the old best height |
| BtcHandler.HeaderSyncStore.GetHeaderByHash | native/service/header_sync/btc/header_sync_test.go:185 | answers what HeaderByHash specifies |
| BtcHandler.HeaderSyncStore.GetHeaderByHeight | native/service/header_sync/btc/header_sync_test.go:167 | answers what HeaderByHeight specifies |
| BtcHandler.HeaderSyncStore.GetBestBlockHeader | native/service/header_sync/btc/header_sync_test.go:180 | answers what BestHeader specifies |
| P2pDataReq.ZeroCopySink.WriteByte | p2pserver/message/types/data_req.go:35 | appends one byte to the sink |
| P2pDataReq.ZeroCopySink.WriteHash | p2pserver/message/types/data_req.go:36 | appends the 32 bytes of the hash to the sink |
| P2pDataReq.ReadByte | p2pserver/message/types/data_req.go:47 | the byte under the cursor and the cursor one further; at the end of the input, 0 and end-of-input with the cursor left alone |
| P2pDataReq.ReadBytes | p2pserver/message/types/data_req.go:50 | the next n bytes; end-of-input exactly when fewer remain, in which case what remains, with the cursor at the end |
| P2pDataReq.ReadHash | p2pserver/message/types/data_req.go:50 | the next 32 bytes; end-of-input exactly when fewer remain, in which case the zero hash, with the cursor at the end |
| P2pDataReq.ZeroCopySource.NextByte | p2pserver/message/types/data_req.go:47 | reads as ReadByte specifies and moves the cursor accordingly |
| P2pDataReq.ZeroCopySource.NextBytes | p2pserver/message/types/data_req.go:50 | reads as ReadBytes specifies and moves the cursor accordingly |
| P2pDataReq.ZeroCopySource.NextHash | p2pserver/message/types/data_req.go:50 | reads as ReadHash specifies and moves the cursor accordingly |
| P2pDataReq.EncodeDataReq | p2pserver/message/types/data_req.go:34-39 | 33 bytes: the type byte, then the hash |
| P2pDataReq.DecodeDataReq | p2pserver/message/types/data_req.go:46-53 | the read order of Deserialization: the type byte, then the hash from where the byte read left the cursor, with only the hash read deciding end-of-input; the cursor stays within the input; its properties are stated by P2pDataReq.DecodeEncode, P2pDataReq.ShortInputFails, P2pDataReq.FailedFields and P2pDataReq.ByteEofIsSubsumed |
| P2pDataReq.DataReq.constructor | p2pserver/message/types/data_req.go:28-31 | a message with the given type and hash |
| P2pDataReq.DataReq.Serialization | p2pserver/message/types/data_req.go:34-39 | appends the type byte and the hash to the sink and never fails |
| P2pDataReq.DataReq.CmdType | p2pserver/message/types/data_req.go:41-43 | always "getdata" |
| P2pDataReq.DataReq.Deserialization | p2pserver/message/types/data_req.go:46-56 | sets the type to the byte read and the hash to the hash read, moves the cursor, and fails with ErrUnexpectedEOF exactly when the hash read runs out |
| P2pDataReq.DecodeEncode | p2pserver/message/types/data_req.go:34-56 | reading the serialised form back, wherever it sits in the input, recovers the type byte and hash, moves the cursor 33 bytes, and succeeds for any type byte |
| P2pDataReq.ShortInputFails | p2pserver/message/types/data_req.go:50-53 | deserialisation fails exactly when fewer than 33 bytes remain |
| P2pDataReq.FailedFields | p2pserver/message/types/data_req.go:47-53 | on failure the fields still change: the type is the byte read (0 if none), the hash is the zero hash, and the cursor is at the end |
| P2pDataReq.ByteEofIsSubsumed | p2pserver/message/types/data_req.go:47-51 | the type byte's end-of-input flag is never consulted; whenever it would fire, the hash read fails too |
| P2pDataReq.RoundTrip | p2pserver/message/types/data_req.go:34-56 | serialising into a fresh sink and deserialising from its bytes gives back the type and hash, with no error, after 33 bytes |
| P2pDataReq.ShortRead | p2pserver/message/types/data_req.go:46-56 | deserialising fewer than 33 bytes fails with ErrUnexpectedEOF |

## Left out

- The handler's source (`BTCHandler`, `GetHeaderByHeight`, `GetHeaderByHash` and `GetBestBlockHeader` of the `btc` package) is not among the available files. The model follows what `header_sync_test.go` asserts. Where the test is silent, it makes these choices:
  - a second genesis with the same hash is a no-op, and one with a different hash fails with GenesisConflict;
  - the error kinds are MalformedHeader, ChainNotInitialized, GenesisConflict, OrphanHeader, InvalidProofOfWork and NotFound;
  - on equal cumulative work, the first-seen best stays;
  - after a reorganisation to a lower tip, the heights above it are dropped from the index.
- Double-SHA256 block hashing, the work of a compact `bits` target, and the proof-of-work, difficulty and retarget checks are library code. They are uninterpreted fields of `NetParams`, passed explicitly in place of the package global `netParam`.
- btcd's `BtcDecode` is modelled as the fixed 80-byte wire layout. Decoding fails only on fewer than 80 bytes.
- Storage: the LevelDB, overlay and cache-database stack, the native-service harness and the transaction scope are left out. So is the partitioning of state by chain ID, since each chain's store is independent. Storage I/O errors are not modelled.
- Parameter encoding: `SyncGenesisHeaderParam`, `SyncBlockHeaderParam` and the relayer address are left out. The model takes the genesis payload and the batch of raw headers directly.
- Heights:
  - heights are unbounded naturals, so the handler's 32-bit height arithmetic and its wrap-around are not modelled;
  - cumulative work is an unbounded natural.
- The source of `ZeroCopySink` and `ZeroCopySource` (common package) is not among the available files. `data_req.dfy` models only the methods `DataReq` calls (WriteByte, WriteHash, NextByte, NextBytes, NextHash), with this behaviour:
  - end-of-input from `NextByte` leaves the cursor alone;
  - a short `NextBytes` moves the cursor to the end;
  - a short `NextHash` gives the zero hash.
- ZeroCopySource.NextBytes: its 64-bit overflow guard on `off + n` is not modelled, because the cursor is an unbounded natural.
- The value "getdata" of `GET_DATA_TYPE` is from `p2pserver/common`, which is not part of this model.
- Left out as context beyond header sync and `DataReq`:
  - the JSON-RPC handlers of `http/base/rpc/interfaces.go`;
  - the ledger wrappers of `http/base/actor/ledger.go`;
  - the signature-server files under `cmd/sigsvr`;
  - the consensus message test `consensus/vbft/msg_builder_test.go`.
- HeaderStore.SyncBlockHeader: its own contract gives only the invariant and record preservation. What each header does is stated by the ForkChoice, ForkSwitch and SyncFacts lemmas.
