# databright backend: event decoder and shard attribution, in Dafny

This project models two parts of the Rust backend of databright and proves
properties about them.

The first part is `LogdataDeserializer` (`backend/src/log_handler/mod.rs`). It
reads the fields of a contract event out of its ABI-encoded payload:

- Fields sit in 32-byte slots in declaration order.
- A `uint` is read from the low eight bytes of its slot.
- An `address` is read from the low twenty bytes.
- A `string` slot points to a length word, and the string's bytes follow that word.

Around the decoder sit the decisions `handle_log` takes for a shard-add
proposal:

- the `state == 2` gate;
- which on-chain shards are fetched (the ones without a local folder);
- which fetched shards are listed (the ones whose owner is not the zero address);
- the folder each file is written to;
- the file list handed to the CSV loader.

The second part is `load_all_samples` of the CSV and image loaders
(`backend/src/log_handler/data_loader.rs`). It reads the downloaded files in
order, collects a feature row and a predictor per sample, and maps every shard
to the half-open range of sample indices read from it. Alongside it is
`vecs_as_matrix`, which flattens the feature rows into a row-major matrix.

Modules:

- `Primitives`: bytes, big-endian `read_u64`, addresses.
- `Sequences`: slicing of concatenations.
- `AbiEncoding`: the Solidity ABI encoder of a tuple of `uint`, `address` and `string` values. It is the decoder's partner, so the decoder can be read against it.
- `LogHandler`: the deserializer class. `findAndStoreOffsets` is a loop over the field order that fills the class's `offsets` map, and the accessors are functions of the class.
- `RoundTrip`: decoding an encoded payload gives the values back.
- `ShardAdd`: the shard-add branch of `handle_log`, with its network and file-system calls turned into parameters.
- `DataLoader`: the loaders, as methods with the source's loop state, specified against functions over the file list, and the matrix.

The decoder reports no errors:

- Accessors called on a field of another declared type return the defaults `0`, the zero address and the empty string.
- Slices outside the payload panic; the model makes them preconditions.
- A `uint` larger than 64 bits is silently reduced modulo 2^64.

## Model

| member | source | states |
|---|---|---|
| Primitives.ReadU64 | backend/src/log_handler/mod.rs:243 | the value read is below 2^64, and its 8-byte big-endian representation is exactly the first eight bytes of the buffer |
| Primitives.LowBytesModulo | backend/src/log_handler/mod.rs:242 | the low eight bytes of a big-endian word hold the word's value modulo 2^64 |
| Primitives.BigEndianBytesOfValue | backend/src/log_handler/mod.rs:243 | a byte string is the big-endian representation of its own value, so reading is injective |
| LogHandler.LowWord | backend/src/log_handler/mod.rs:242-243 | the `u64` read from bytes 24..32 of a slot is below 2^64 and is the 256-bit big-endian value of the slot modulo 2^64 |
| LogHandler.GetStringOffsets | backend/src/log_handler/mod.rs:241-251 | the string starts 32 bytes after the length word its pointer names, and its span is as long as that length word says |
| LogHandler.SlotOffsets | backend/src/log_handler/mod.rs:227-234 | a `uint` slot at `at` gets `(at+24, at+32)`; an `address` gets `(at+12, at+32)`; an unsupported type gets `(0, 0)`; every span is well formed |
| LogHandler.OffsetsOf | backend/src/log_handler/mod.rs:220-238 | the cached offsets have exactly the names of `order` as keys |
| LogHandler.OffsetsSnoc | backend/src/log_handler/mod.rs:223-237 | one more field inserts its slot's span at 32 bytes per earlier field, whatever the earlier types |
| LogHandler.FieldOffset | backend/src/log_handler/mod.rs:222-237 | the span of the field at position `k` is that of the slot at byte `32·k`; a name listed twice keeps the span of its last position |
| LogHandler.FieldOffsetWidth | backend/src/log_handler/mod.rs:228-234 | a `uint` span starts at `32k+24` and is 8 bytes wide; an `address` span starts at `32k+12` and is 20 wide; a `string` span is as wide as its length word; an unsupported type gets `(0, 0)` |
| LogHandler.LogdataDeserializer.constructor | backend/src/log_handler/mod.rs:204-245 | keeps payload, field table and order, and leaves the offsets map equal to the walk over `order`; its precondition `Decodable` is what keeps the walk from panicking: every field of `order` has a declared type (the `unwrap` at line 224) and every `string` field's pointer and length word lie inside the payload (the slices at lines 242 and 245) |
| LogHandler.LogdataDeserializer.FindAndStoreOffsets | backend/src/log_handler/mod.rs:220-238 | the loop advances a 32-byte cursor per field and leaves the map equal to the old map overwritten by the span of every field of `order` |
| LogHandler.LogdataDeserializer.GetU64 | backend/src/log_handler/mod.rs:254-277 | the result fits in 64 bits; on a field not declared `uint` it is 0 |
| LogHandler.LogdataDeserializer.GetAddress | backend/src/log_handler/mod.rs:279-299 | on a field not declared `address` the result is the zero address |
| LogHandler.LogdataDeserializer.GetStr | backend/src/log_handler/mod.rs:301-317 | on a field not declared `string` the result is empty |
| LogHandler.FieldSpanOfName | backend/src/log_handler/mod.rs:256-269 | a cached span is well formed; a `uint` span is 8 bytes and an `address` span 20 |
| LogHandler.GetU64At | backend/src/log_handler/mod.rs:254-271 | a `uint` field at position `k` reads as the low 64 bits of the slot at `32·k` |
| LogHandler.GetAddressAt | backend/src/log_handler/mod.rs:279-291 | an `address` field at position `k` reads as bytes `32k+12..32k+32` |
| LogHandler.GetStrAt | backend/src/log_handler/mod.rs:301-311 | a `string` field at position `k` reads as the bytes after the length word its pointer names, as many as the length word says |
| LogHandler.LastPosition | backend/src/log_handler/mod.rs:237 | the position whose insert a name's span comes from is its last one in `order` |
| AbiEncoding.EncodeLayout | backend/src/log_handler/mod.rs:222-251 | the encoding puts the head of value `k` in the slot at `32·k`, and every string's length word and bytes where its head points; this is the layout the decoder walks |
| RoundTrip.WordSlot | backend/src/log_handler/mod.rs:268-269 | a slot holding the word of `v < 2^64` reads back as `v` |
| RoundTrip.UintSlot | backend/src/log_handler/mod.rs:228 | the low eight bytes of an encoded `uint` slot hold the value modulo 2^64 |
| RoundTrip.AddressSlot | backend/src/log_handler/mod.rs:229 | the low twenty bytes of an encoded `address` slot are the address |
| RoundTrip.StringSlot | backend/src/log_handler/mod.rs:241-251 | in an encoding, a string's pointer and length word are readable, its span is exactly the string's bytes, and those bytes are the string |
| RoundTrip.EncodingDecodable | backend/src/log_handler/mod.rs:204-218 | the constructor does not panic on an encoding whose field table matches the values' types |
| RoundTrip.DecodeUint | backend/src/log_handler/mod.rs:254-271 | `get_u64` on an encoded `uint` gives the value modulo 2^64 |
| RoundTrip.DecodeAddress | backend/src/log_handler/mod.rs:279-291 | `get_address` on an encoded `address` gives the address |
| RoundTrip.DecodeString | backend/src/log_handler/mod.rs:301-311 | `get_str` on an encoded `string` gives the string's bytes |
| RoundTrip.DecodeIdAndState | backend/src/log_handler/mod.rs:72-80 | a payload encoding `proposalID = 7` and `state = 2` reads back as 7 and 2 |
| ShardAdd.ProposalAddedTable | backend/src/log_handler/mod.rs:54-71 | the `ProposalAdded` field order has eight names, each declared in the field table and listed once, so each keeps its own slot; `proposalID` (slot 0) and `state` (slot 7) are `uint` and `argument` (slot 4) is `string` |
| ShardAdd.ShardAddRequest | backend/src/log_handler/mod.rs:72-80 | the branch is taken exactly when `state` reads 2; the proposal then carries the `proposalID` word and the bytes of `argument` |
| ShardAdd.ProposalAddedEncoding | backend/src/log_handler/mod.rs:54-76 | on an encoded `ProposalAdded` tuple, the payload is readable, the gate opens exactly when `state` is 2 modulo 2^64, and the proposal carries `proposalID` modulo 2^64 and the `argument` bytes |
| ShardAdd.DecimalRoundTrip | backend/src/log_handler/mod.rs:116 | the decimal numeral `format!` writes for a shard index reads back as that index |
| ShardAdd.FolderName | backend/src/log_handler/mod.rs:150-153 | the proposed shard's folder is `new_shard`; shard `i`'s folder starts with `shard_` and the rest reads back as `i` |
| ShardAdd.FolderNameInjective | backend/src/log_handler/mod.rs:150-153 | `None` goes to `new_shard` and `Some(i)` to `shard_i`; distinct shards never share a folder |
| ShardAdd.ShardFoldersMembership | backend/src/log_handler/mod.rs:116-119 | a shard's folder is among the folders created for a set of shards exactly when it is one of them |
| ShardAdd.QueryMissingShards | backend/src/log_handler/mod.rs:115-124 | the shards queried are, in increasing order, exactly those below the array length whose folder did not exist; the folders afterwards are the old ones plus theirs |
| ShardAdd.QueryStep | backend/src/log_handler/mod.rs:116-123 | in one iteration, shard `i`'s folder exists now exactly when it existed beforehand, and the loop invariant moves from `i` to `i + 1` |
| ShardAdd.ValidShard | backend/src/log_handler/mod.rs:129 | a fetched shard is valid exactly when some byte of its owner address is not zero |
| ShardAdd.NonZeroAddress | backend/src/log_handler/mod.rs:129 | an address differs from `Address::zero()` exactly when one of its twenty bytes is not zero |
| ShardAdd.ValidShardListed | backend/src/log_handler/mod.rs:129-136 | every fetched record whose owner is not the zero address is listed under its label |
| ShardAdd.ListedShardValid | backend/src/log_handler/mod.rs:129-136 | every listing request comes from a record whose owner is not the zero address, under that record's label |
| ShardAdd.ListedOrder | backend/src/log_handler/mod.rs:131-136 | requests come in the order of their records |
| ShardAdd.ValidListingDistinct | backend/src/log_handler/mod.rs:131-136 | distinct labels give requests with distinct shards, all on-chain ones |
| ShardAdd.ListShardsAsWritten | backend/src/log_handler/mod.rs:129-142 | the requests are the valid records labelled with their position among the fetched records, then the proposed shard under `None` |
| ShardAdd.ListShards | backend/src/log_handler/mod.rs:129-142 | the requests are the valid records labelled with the index they were queried with, then the proposed shard under `None` |
| ShardAdd.ListShardsDistinct | backend/src/log_handler/mod.rs:129-142 | with queried-index labels, no two requests share a shard, the proposed one included |
| ShardAdd.MislabelledShardExample | backend/src/log_handler/mod.rs:115-135 | with two shards on chain and `shard_0` already on disk, the as-written loop labels the record of shard 1 as shard 0; the corrected one labels it shard 1 |
| ShardAdd.CollectDownloads | backend/src/log_handler/mod.rs:148-160 | the downloads are, listing by listing and link by link, every link's file written under its listing's folder with its listing's shard label |
| ShardAdd.DownloadOrigin | backend/src/log_handler/mod.rs:149-158 | every file goes to the folder of the shard it is attributed to, and that shard is one of the listings' |
| ShardAdd.DownloadsGrouped | backend/src/log_handler/mod.rs:148-160 | when no two listings share a shard, each shard's files are downloaded as one consecutive stretch |
| ShardAdd.DownloadedSamplesAttributed | backend/src/log_handler/mod.rs:177-183 | with queried-index labels, the range the CSV loader attributes to each shard holds exactly the samples read from that shard's files |
| DataLoader.Runs | backend/src/log_handler/data_loader.rs:66-74 | there are never more runs than files, none exactly when there are no files, and the last run is the last file's shard and ends at the last sample |
| DataLoader.RunsTile | backend/src/log_handler/data_loader.rs:70-73 | the runs follow each other without gap from sample 0 to the last sample, and neighbouring runs belong to different shards |
| DataLoader.AttributionsEnd | backend/src/log_handler/data_loader.rs:102-104 | no file gives an empty map; otherwise the last file's shard has a range ending at the last sample |
| DataLoader.AttributionIsLastRun | backend/src/log_handler/data_loader.rs:71 | whatever the order of the files, a shard's range is that of its last run, because `insert` overwrites |
| DataLoader.ReappearingShardLosesRange | backend/src/log_handler/data_loader.rs:70-73 | for files of shards 0, 1, 0 with 2, 1 and 3 samples, the map is `{0: 3..6, 1: 2..3}`, so samples 0 and 1 belong to no range |
| DataLoader.AttributionsExact | backend/src/log_handler/data_loader.rs:61-104 | when every shard's files are consecutive, the keys are exactly the input's shards and a shard's range holds exactly the samples read from it |
| DataLoader.AttributionsPartition | backend/src/log_handler/data_loader.rs:61-104 | when every shard's files are consecutive, the ranges are pairwise disjoint and cover exactly `0..n`, where `n` is the number of samples |
| DataLoader.TracksEnter | backend/src/log_handler/data_loader.rs:67-74 | the loop-head bookkeeping keeps the invariant: the map holds the finished runs and the open run is the last one |
| DataLoader.TracksFinish | backend/src/log_handler/data_loader.rs:102-104 | after the last file, closing the open run gives the attribution of all runs |
| DataLoader.EnterFile | backend/src/log_handler/data_loader.rs:67-74 | the first file opens a run; a change of shard inserts the open run's range and opens a new run at the current sample index |
| DataLoader.CloseLastShard | backend/src/log_handler/data_loader.rs:102-104 | the final insert, made only when some file was read, leaves the attribution of all runs |
| DataLoader.RecordSplit | backend/src/log_handler/data_loader.rs:88-95 | a record that has the predictor column gives that cell as its one predictor, and the other cells in order (`|record| - 1` of them) as its feature row |
| DataLoader.SplitRecord | backend/src/log_handler/data_loader.rs:88-94 | the column loop computes the record's feature row and predictor |
| DataLoader.LoadRecords | backend/src/log_handler/data_loader.rs:84-97 | the record loop appends every record's feature row and predictor in record order and counts one sample per record |
| DataLoader.CsvPredictorPerRow | backend/src/log_handler/data_loader.rs:84-97 | when every record has the predictor column, there is one predictor per feature row |
| DataLoader.CsvLoadAllSamples | backend/src/log_handler/data_loader.rs:54-107 | on files whose records each have one length (the reader is not flexible, and `unwrap` panics on a record of another length), features and predictors come file by file, in record order; the map is the attribution of the runs of the files' shards; the last range ends at the number of feature rows; no files give nothing |
| DataLoader.DefaultCsvExample | backend/src/log_handler/data_loader.rs:34-43 | the default loader, whose predictor is column 4, turns a shard-0 file holding `1,2,3,4,9` and a proposed-shard file holding `5,6,7,8,10` into rows `[1,2,3,4]` and `[5,6,7,8]`, predictors `9, 10`, and ranges `0..1` and `1..2` |
| DataLoader.ImageLoadAllSamples | backend/src/log_handler/data_loader.rs:118-159 | there is one feature row and one predictor per file, in file order; the map is the attribution of the runs; the last range ends at the number of rows; no files give nothing |
| DataLoader.ImageLabels | backend/src/log_handler/data_loader.rs:130-152 | the number of image samples is the number of files, and sample `i` belongs to file `i`'s shard |
| DataLoader.ImageAttributionsExact | backend/src/log_handler/data_loader.rs:130-156 | when every shard's images are consecutive, a shard's range holds exactly the indices of its files |
| DataLoader.VecsAsMatrix | backend/src/log_handler/data_loader.rs:22-27 | the matrix has one row per feature row, the first row's length as column count (0 when empty), and rows × columns entries |
| DataLoader.FlattenRowMajor | backend/src/log_handler/data_loader.rs:25 | `Flatten`, the `flat_map` of the rows, on `rows` rows of `cols` cells each has `rows·cols` cells and puts cell `j` of row `i` at `i·cols + j` |
| DataLoader.VecsAsMatrixRectangular | backend/src/log_handler/data_loader.rs:22-27 | rectangular features always meet the matrix constructor's size requirement, and entry `(i, j)` is cell `j` of row `i` |

## Left out

- Network and concurrency are not modelled: the web3 contract queries, the IPFS `ls` and `get` calls, `join_all` and the tokio event loop. The shard array length, the shard records, the directory listings and the existing folders are parameters, and `join_all` is taken to keep request order.
- File-system effects are not modelled: creating and removing the `new_shard` folder, the tar unpacking of each downloaded archive, and the full path under the contract's folder. A download is recorded by its folder name and file name.
- The contract query of the full proposal and the `SimpleDatabase` contract it names are not modelled. The shard-add gate returns what the branch reads from the event.
- A shard record has two more `u64` fields; the branch never reads them, and the model leaves them out.
- The model only takes links from the first object of a listing (`objects[0]`). The panic on a listing with no object is not modelled.
- `knn_shapley::run_shapley_cv` and everything after the loader call are not modelled. That code is floating-point numerics, and its source is not part of this model.
- Parsing CSV cells as `f64` and `u32`, the CSV reader's delimiter and header settings, `image::open` and `raw_pixels`, and the regex that extracts an image's label are not modelled. Cells, pixels and labels are opaque values, and a file is given as its records or its one image.
- `vec_as_vector` and the internals of `rusty_machine`'s `Matrix` are not modelled. A matrix is its dimensions plus its row-major data.
- LogHandler.LogdataDeserializer.GetStr: the `str::from_utf8` check is not modelled, so the result is the byte slice and invalid UTF-8 does not panic. For the same reason the listing request takes the proposed shard's hash as text, not as the decoded bytes.
- LogHandler.LogdataDeserializer.FindAndStoreOffsets: `usize` arithmetic is unbounded in the model. Offsets near 2^64 would overflow in the source, which panics in debug builds and wraps in release builds.
- LogHandler.GetStringOffsets: `p + 32 + len` is computed without wrap-around. A wrapped end would fall below its start and the slice would panic, so the precondition `end <= |data|` excludes the same payloads.
- Logging is not modelled: the `error!` messages on an unsupported field type and on an accessor called on a field of another type, and the `info!`, `debug!` and `println!` output of `handle_log`.
- The on-chain `topics` match that selects `ProposalAdded` events is not modelled; the gate starts from the event payload.

## Findings

| source | as written | input that shows it | evidently intended | confidence | as-written member | corrected member |
|---|---|---|---|---|---|---|
| backend/src/log_handler/mod.rs:131-135 | each fetched shard record is labelled `Some(id)`, where `id` is its position among the fetched records | two shards on chain, folder `shard_0` already on disk, shard 1 owned by a non-zero address: only shard 1 is fetched, and its files are written to `shard_0` and attributed to shard 0 | label each record with the on-chain index it was queried with (`Some(1)` here) | not executed | ShardAdd.ListShardsAsWritten | ShardAdd.ListShards |
