# Block columns, shared dictionaries and the state machines around them

This project models the storage engine's block-framed column format and the protocols that depend on it,
and proves that what its writers write is what its readers read. `dafny verify dfyconfig.toml` checks all
of it.

A column is cut into granules of a fixed number of rows (or into variable chunks). Each granule is one
codec stream; streams are packed into compressed frames; a directory records where everything lies. The
directory can lead the frames, follow them as a footer, follow a trailer dictionary, or be compacted, and
each of these can be opened from the whole object or by ranged reads. A bytes column keeps one dictionary
for the whole column, which granule after granule either joins or declines.

The modules, bottom up:

- `Wire`, `Chunking`: varints, fixed-width integers and int64 wrap-around; cutting a column into granules.
- `DictSpec`: what a shared-dictionary column means, independent of who writes it. `DictBuilder` is the
  batch writers' builder, `StampWrap` what its uint32 generation comes to when it wraps, `StreamColumn` the
  streaming writer and its bindings with their generation-stamped caches, `Writers` the batch writer run over
  whole columns. `JoinLaws` says when a granule joins and what that costs, `AppendedRows` which rows an append
  adds.
- `SharedDict`, `SharedDecode`, `SharedForms`: the granule grammar, the in-place fast decode, and the
  agreement of its packed and scattered forms.
- `BlockStreams`, `Lease`: the decode walk's cached frame, and the tokens that say whether a decoded granule
  may still be read. `MergeRun` is a whole merge on values, decoders feeding bindings of a streaming writer;
  `MergeObjects` is the same merge on objects whose granules and bound tables alias reused frames.
  `WrittenSource` ties what a decoder is opened on to a column as written.
- `Directory`, `DirectoryParse`, `DirectoryReaders`, `DirectoryMeaning`, `DirectoryRoundTrip`: the directory's
  bytes, its grammar, the reading loops, what it means, and that it reads back. `Layouts`, `LayoutsAgree`: the
  places it can sit and every way in. `DirectorySound`: what holds of any bytes that open. `Packing`,
  `BlockAccum`, `ColumnFile`: streams into frames, the accumulator with a sink attached at any moment or never,
  and whole columns written and read back; `FrameRot`: the same over stored frames that may have changed.
  `Manifest`, `DictRegion`, `DictColumnFile`: the bounds a manifest reader enforces, the dictionary region,
  and bytes columns from rows to object to rows.
- `RowSpans`, `BlockDecode`, `BlockSeek`, `ColumnRows`: which rows a block covers, and the whole-column,
  block-set, range and cursor decoders.
- `NumericStream`, `FloatGroups`: numeric columns streamed in batches of any size, marks and float groups.
- `FrameSource`, `ScanBound`, `Holdings`, `Reservation`: read-ahead over frames, the memory a decoder reports
  and the bound computed from the manifest, that the report covers what an open scan holds, and that the bound
  holds of every column the writers emit.
- `EcShards`, `EcRepair`, `EcCluster`, `EcProgress`: pruning and repair of erasure-coded shards across nodes, as
  a state machine over their interleaved steps: what no run can lose, and what a run that is not stopped
  achieves.
- `ReadCache`, `StoreLaws`, `CacheRivals`, `MergeQueue`, `MetricWriter`, `Retention`, `RateValve`, `Arena`: the
  read cache with page generations, what the store behind it promises, and what a rival writer leaves stale;
  the merge catch-up queue, the metric writer's buffer, size retention, the ingest-rate valve and the byte
  arena.

Compression, checksums, chunk codecs, the erasure code and an engine's verdict on points are function
values with stated laws: decompression undoes compression, which adds at most a byte; a codec decodes what
it encodes; any data shards that are originals determine all shards; an engine accounts for every point it
is given; no two contents share a version token. The clock, the backend's failures and evictions are
arguments.

Where a promise turned out not to hold of the code as written, the code is kept, a lemma gives a concrete
case, and another says exactly when the promise holds:

- The batch writer's `addIDs` generation is a uint32 that wraps unguarded: `WrapLosesRow`, `StampScanExact`,
  `IdsStepRightIff`.
- A frame whose decompression fails halfway leaves the previous frame's label on overwritten bytes:
  `StaleLabel`, `ServeKeepsCoherent`, `WalkCoherentIff`.
- Frame offsets are kept in int32: `OffsetsWrap`, `OffsetsExact`.
- A granule length int64 cannot hold is recorded by its low bits, though the comment beside the bound says
  lengths that overflow are refused: `HugeLength`, `SpansSoundIff`.
- A range read does not compare a block's rows with its span, though the comment beside `rowsUnchecked`
  says the blocked paths do: `RangeShifts`, `RangeRightIff`.
- A prune confirms keys on the owner, not contents: `RottenHome`, `PruneKeepsIntactIff`. Repair writes a
  node's first slot only, so repeated addresses leave slots unrepaired: `RepeatedOwner`, `RepairCoversIff`.
- The comment that a versioned key is never resident overlooks plain reads: `StaleAfterRival`,
  `RivalSeenIff`, `RivalPageSeenIff`.
- "The newest part is never dropped" fails on ties: `TieDropsNewest`, `NewestKeptIff`. A cutoff of 0 reads as
  none though one was asked for: `OverlookedAtZero`, `OverlookedIff`.
- A clock reading of 0 reseeds the rate valve: `ZeroClockRefills`, `AccountedIff`, with `AdmittedBounded` for
  whole runs that do not meet it.

## Model

| member | source | states |
|---|---|---|
| `Wire.UvarintRoundTrip` | block/blockcolumn.go:454-463 | every uint64 written as an unsigned LEB128 varint (section 7.6 of DWARF Version 4) reads back as itself whatever bytes follow, in at most ten bytes |
| `Wire.UvarintFits` | block/blockcolumn.go:454-463 | no byte string reads as a varint past 64 bits: an eleventh byte, or a tenth above 1, is an error |
| `Wire.UvarintMonotone` | block/rangedcolumn.go:411-429 | a larger value never takes fewer varint bytes, which is what a bound computed from the largest value rests on |
| `Wire.VarintLen` | block/rangedcolumn.go:421-429 | the shifting loop counts exactly the bytes the encoder writes |
| `Wire.VarintRoundTrip` | block/chunkrows.go:187-194 | every int64 survives the zigzag varint round trip whatever follows it |
| `Wire.WrapDelta` | block/streamwriter.go:1396-1405 | adding back a difference that overflowed int64 gives the original key exactly |
| `Chunking.ClampIsRange` | backend/readat.go:130-136 | the clamped range is as much of the range as there is: its length is that of the overlap, and byte i is byte off + i; nothing else is |
| `Chunking.ClampJoins` | backend/readat.go:130-136 | a range and the one after it join to the longer range, past the end or not |
| `DictSpec.UniqIn` | block/shareddictwrite.go:128-187 | the distinct values of a granule are its values, none lost and none invented |
| `DictSpec.GrownHolds` | block/shareddictwrite.go:87-98 | once a granule has joined, every one of its values is in the dictionary |
| `DictSpec.GrownDistinct` | block/shareddictwrite.go:87-98 | joining keeps the dictionary free of repeats |
| `DictSpec.IdOfNames` | block/shareddictwrite.go:128-187 | in a dictionary without repeats the id of a held value is in range and names that value |
| `DictBuilder.SharedDictBuilder.Insert` | block/shareddictwrite.go:87-98 | an insert appends the entry, charges raw and entry bytes exactly, and answers the new entry's id |
| `DictBuilder.SharedDictBuilder.Width` | block/shareddictwrite.go:118-124 | one byte exactly while every value of the dictionary has an id below 256; otherwise two, which hold every id of a full dictionary |
| `DictBuilder.SharedDictBuilder.AddValues` | block/shareddictwrite.go:128-187 | one granule of flat rows is decided, given ids and added to the dictionary exactly as the column specification decides it, with the hash index kept true to the dictionary |
| `DictBuilder.SharedDictBuilder.AddIDs` | block/shareddictwrite.go:191-269 | one granule of a table with ids is decided, numbered and added exactly as its stamps lead it to, whatever the generation, and for the first 2^32 - 1 granules that is as its rows would be |
| `DictBuilder.StampScanUniq` | block/shareddictwrite.go:191-269 | scanning ids under a generation no used entry carries finds the granule's distinct values in first-use order |
| `DictBuilder.StampScanExact` | block/shareddictwrite.go:191-269 | the stamp scan finds exactly the granule's distinct values if and only if no entry the granule uses already carries its generation |
| `StampWrap.IdsStepRightIff` | block/shareddictwrite.go:191-269 | a granule of ids comes out as its rows would if and only if, supposing the values its stamps let through join, all its values would, and every value the stamps hide is in the dictionary already |
| `StampWrap.ScanFindsLess` | block/shareddictwrite.go:191-269 | a stale stamp only ever makes the scan find fewer values and charge less |
| `StampWrap.WrapLosesRow` | block/shareddictwrite.go:191-269 | a run of 2^32 - 1 granules of one value and then one of another, whose generation has wrapped to the stamp of an entry never used: it is written as joined with an id that names nothing |
| `SharedDict.PackIds` | block/shareddictwrite.go:360-376 | packing ids big-endian at a width loses nothing: row r reads back as id r |
| `SharedDict.AppendSharedIDs` | block/shareddictwrite.go:360-376 | the append loop writes the mode byte and exactly the packed ids after what was there |
| `SharedDict.SplitGranule` | block/shareddict.go:86-117 | a granule stream that splits into ids has one per row, all within the dictionary |
| `SharedDict.DecodeGranule` | block/shareddict.go:86-117 | a granule decodes to exactly the rows the directory places or to an error |
| `SharedDict.EncodeBounds` | block/shareddictwrite.go:77-98 | over any column the dictionary never repeats a value, stays addressable in two bytes and stays within the cap |
| `JoinLaws.JoinsIff` | block/shareddict.go:55-57 | a granule joins exactly when its rows are at least twice its distinct values, two-byte ids are left for all of them, and the dictionary it would leave stays within the cap |
| `JoinLaws.JoinAddsHalf` | block/shareddictwrite.go:77-98 | a joining granule adds at most one entry for every two of its rows |
| `JoinLaws.DictWithinHalf` | block/shareddictwrite.go:77-98 | the dictionary of any column has at most one entry for every two rows of the granules that joined |
| `SharedDict.EncodeFaithful` | block/shareddictwrite.go:290-357 | the ids a granule was written with, narrow or wide, still name its rows in the finished dictionary after every later granule has joined |
| `SharedDict.GranuleRoundTrip` | block/shareddict.go:86-117 | decoding any granule's stream against the finished dictionary returns its rows, whether it joined, kept its own rows, or was written narrow before the dictionary passed 256 entries |
| `SharedDecode.CopyIds` | block/shareddict.go:254-321 | copying packed ids in place replaces exactly the ids of that span |
| `SharedDecode.WidenIds` | block/shareddict.go:254-321 | widening one-byte ids in place over clear high bytes puts exactly those ids in that span |
| `SharedDecode.PackedRows` | block/shareddict.go:254-321 | the output length is the selected blocks' rows, refused when a block lies past the column |
| `SharedDecode.DecodeSharedIDs` | block/shareddict.go:254-321 | when every selected granule joined, packed output is their ids one after another and scattered output has them at their own rows and 0 elsewhere, at the width the whole dictionary needs; otherwise the walk stops at the first granule that did not join |
| `SharedForms.PackedAt` | block/shareddict.go:254-321 | where row r of the i-th selected granule lies in the packed form |
| `SharedForms.FormsAgree` | block/shareddict.go:254-321 | the packed and the scattered form hold the same id for every row of every selected granule |
| `SharedForms.JoinedMeansShared` | block/shareddict.go:86-117 | over an encoded column a granule takes the fast path exactly when it joined, and its ids then name its rows |
| `SharedForms.WholeColumnDecodes` | block/shareddict.go:254-321 | the fast decode of a whole column that joined throughout is the column, row for row |
| `StreamColumn.EpochFits` | block/binding.go:164-192 | a column's rows being an int, the count of generation wraps never itself wraps |
| `StreamColumn.KnownAbsent` | block/streambytes.go:139-149 | a dictionary value whose slot is not stamped with the current generation has no gid in the granule yet, so giving it one makes no second |
| `StreamColumn.CachesHit` | block/binding.go:164-192 | a binding's cached gid whose stamp and epoch are current is the gid a fresh lookup gives, and a cached dictionary id names the same bytes |
| `StreamColumn.CachesSeal` | block/binding.go:164-192 | sealing a granule makes every cached gid stale and leaves every cached dictionary id true |
| `StreamColumn.CachesClear` | block/binding.go:164-192 | clearing the stamps when the epoch moved leaves no cached gid and every dictionary id |
| `StreamColumn.StreamWriter.GidOfD` | block/streambytes.go:139-149 | the gid served from a dictionary slot names that entry and is the only one for its value in the granule |
| `StreamColumn.StreamWriter.GidOfValue` | block/streambytes.go:113-137 | the gid served by hashing names that value and is the only one for it in the granule, whether the value is new, known to the granule, or known to the dictionary |
| `StreamColumn.StreamWriter.JoinGranule` | block/streambytes.go:360-387 | joining adds exactly the granule's new values to the dictionary in gid order, gives each row its dictionary id, and leaves every new slot unstamped |
| `StreamColumn.StreamWriter.ResetGranule` | block/streambytes.go:87-109 | the generation moves on and, when it wraps to 0, every slot is cleared so that none looks current |
| `StreamColumn.StreamWriter.SealDict` | block/streambytes.go:327-356 | the staged granule is decided, written and added as the column specification does, and every binding's caches stay true |
| `StreamColumn.StreamWriter.AppendGid` | block/streambytes.go:276-286 | a row is appended and a full granule sealed at once |
| `StreamColumn.StreamWriter.AppendByteValue` | block/streambytes.go:249-274 | appends that row and nothing else |
| `StreamColumn.StreamWriter.AppendBytes` | block/streambytes.go:199-212 | appends those rows in order |
| `StreamColumn.StreamWriter.AppendBytesBlob` | block/streambytes.go:216-234 | appends the blob's rows in order up to a bad offset |
| `AppendedRows.BlobRows` | block/streambytes.go:216-234 | of any blob and offsets the rows are those before the first pair of offsets that is no span of the blob; row k is the bytes between offsets k and k + 1, and the rows joined are the bytes from the first offset to the last reached |
| `StreamColumn.StreamWriter.NewBinding` | block/binding.go:31-41 | a new binding joins the writer with empty caches |
| `StreamColumn.StreamWriter.Finish` | block/streambytes.go:403-452 | the finished column is the specification's encoding of every row appended, cut at the granule size |
| `StreamColumn.Binding.Bind` | block/binding.go:121-154 | binds to a live token only, refuses a frame-backed table as stable, and drops every cached place and dictionary id; a refused bind changes nothing |
| `StreamColumn.Binding.Refresh` | block/binding.go:174-178 | once the generation has wrapped every cached place is dropped, and dictionary ids are kept |
| `StreamColumn.Binding.Resolve` | block/binding.go:164-192 | the gid for an entry, cached or looked up, names the entry's bytes in the granule |
| `StreamColumn.Binding.AppendDict` | block/binding.go:55-119 | appends the kept rows of a granule whose token is the bound one and live, ids read through the bound table, stops at an id past it, and refuses a stale granule or another table without changing the rows; which rows those are, `AppendsSlice` and `AppendsMarked` say |
| `AppendedRows.AppendsSlice` | block/binding.go:55-119 | without a mask, the rows an append adds of a sound granule are the granule's own rows from lo to hi |
| `AppendedRows.AppendsMarked` | block/binding.go:55-119 | with a mask, as many rows as the mask marks, and for every mark the row it stands at, at the place given by the marks before it |
| `AppendedRows.StopsAtFirstBad` | block/binding.go:55-119 | an append runs up to the first row it takes whose id is past the table, and to the end when there is none |
| `Writers.BatchValues` | block/shareddictwrite.go:290-357 | the batch writer over flat rows writes the specification's encoding |
| `Writers.BatchIds` | block/shareddictwrite.go:290-357 | the batch writer over a distinct table and ids writes what its stamps lead it to over the whole column, which for fewer than 2^32 granules is the encoding of the rows |
| `MergeRun.RunNames` | block/dictgen.go:5-15 | over any run of decodes, binds, wraps and appends a token names one table: every granule and binding under it has the entries it was issued for |
| `MergeRun.AppendsDecoded` | block/binding.go:55-119 | at any point of any run an append adds rows of the column its granule was decoded to, whatever was decoded since, when the granule is live and its table bound, and otherwise adds nothing |
| `MergeRun.AppendsItsRows` | block/binding.go:55-119 | at any point of any run an append of a live sound granule over its bound table adds the granule's own rows from lo to hi, or those the mask marks |
| `MergeRun.EndedForGood` | block/dictgen.go:66-81 | once its decoder has decoded again or retired, a granule is refused by every append after any further calls |
| `MergeRun.DecodesFresh` | block/columnscan.go:260-309 | over columns no frame of which breaks halfway, a decode at any point of a run hands out the freshly read column, live |
| `MergeObjects.Perform` | block/binding.go:31-119 | each call on the objects, whose granules and bound tables alias reused frames, does what the run on values says and keeps every live granule and table reading as it was decoded or bound |
| `MergeObjects.Stream` | block/streambytes.go:199-452 | any run of appends, blobs, new bindings, rebinds to own, decoded and shared tables, decodes and dictionary appends of any earlier granule seals the encoding of the rows of the run on values |
| `MergeObjects.StreamRefinesBatch` | block/streambytes.go:199-452 | streaming refines batch: same granule modes, widths, ids and dictionary order as the batch writer on the same rows |
| `BlockStreams.ServesFresh` | block/blockcolumn.go:913-930 | from a coherent cache a granule is served exactly as a fresh read of its frame would give it |
| `BlockStreams.ServeKeepsCoherent` | block/blockcolumn.go:913-930 | serving a granule keeps the cached frame true to its label if and only if its frame did not break off halfway over another frame's bytes |
| `BlockStreams.WalkCoherentIff` | block/blockcolumn.go:913-930 | after any walk the kept frame is the one its label says if and only if no frame broke off since the last good one was asked for, or what it left is that frame |
| `BlockStreams.WalkServesFresh` | block/blockcolumn.go:913-930 | each granule of a walk not spoiled before it is served as a fresh read gives it |
| `BlockStreams.StaleLabel` | block/blockcolumn.go:913-930 | a concrete walk in which a failed decompression leaves a stale label, and the next granule is served wrong bytes with no error |
| `BlockStreams.Streams.Granule` | block/blockcolumn.go:913-930 | the mutable walk does what the cache specification says, buffer and label both |
| `Lease.DictOwner.Retire` | block/dictgen.go:78-81 | every token issued so far is dead |
| `Lease.OwnedGranule` | block/dictgen.go:51-58 | live exactly while the caller's own token is, and never under a decoder's |
| `Lease.Decoder.OneTable` | block/dictgen.go:5-15 | two granules handed out under one token index the same entries |
| `Lease.Decoder.SharedEntries` | block/blockcolumn.go:1377-1377 | the shared dictionary's token is the same, and live, across every decode |
| `Lease.Decoder.DecodeBytes` | block/blockcolumn.go:1385-1393 | a block-set decode ends every lease and moves no frame |
| `Lease.Decoder.DecodeBytesBlock` | block/columnscan.go:260-309 | every earlier lease is ended before the frame can move; the granule handed out is live, reads as decoded from the kept frame, and is over the shared dictionary exactly when its stream says so; out of range nothing changes |
| `WrittenSource.BlockIsWritten` | block/columnscan.go:260-309 | a decoder opened on the column written from any rows has exactly the blocks they were cut into, the short last one too, and each reads row for row as written |
| `WrittenSource.MergeReadsWritten` | block/columnscan.go:260-309 | at any point of any merge over columns as written a decoded block is the rows written there |
| `SharedDict.FaithfulDecodes` | block/shareddict.go:86-117 | any granule faithful to its rows under a dictionary decodes to them |
| `Directory.FramesRoundTrip` | block/blockcolumn.go:660-725 | the frame table's bytes read back as its entries, whatever follows |
| `Directory.LensRoundTrip` | block/blockcolumn.go:730-787 | the granule lengths' bytes read back as the lengths, whatever follows |
| `Directory.ChunksRoundTrip` | block/chunkrows.go:35-84 | the chunk rows' bytes read back as the rows and key differences, whatever follows |
| `DirectoryMeaning.StepFramesOk` | block/blockcolumn.go:660-725 | the parsed frame table is the frames' running ends, each granule's owner and each checksum, and passes every bound |
| `DirectoryMeaning.AllRunsOk` | block/blockcolumn.go:730-787 | the parsed spans are each granule's offset and length within its frame and each frame's decompressed length, and pass every bound |
| `DirectoryMeaning.StepChunksOk` | block/chunkrows.go:35-84 | row starts and key bounds come back exactly though their differences were wrapped |
| `DirectorySound.FramesSound` | block/blockcolumn.go:660-725 | whatever bytes a frame table is read from, under 2 GiB its offsets ascend from 0 to the total, its longest gap is the longest length read, and granules' frames are in order |
| `DirectorySound.SpansSoundIff` | block/blockcolumn.go:730-787 | any granule lengths that open are recorded as they stand in the bytes if and only if int64 holds each, and then their spans tile what the frames decompress to, each from where the one before it ends |
| `DirectorySound.HugeLength` | block/blockcolumn.go:730-787 | a length of 2^63 passes the overflow bound and is recorded as 0 |
| `DirectorySound.RowsSound` | block/chunkrows.go:35-84 | whatever bytes chunk rows are read from, starts climb by 1 to the most rows allowed and every key range is one |
| `DirectorySound.OpensSound` | block/blockcolumn.go:511-657 | any bytes that open as a directory pass their checksum, have the recorded length, counts and longest frame, and tile exactly the bytes their frames are said to have |
| `DirectorySound.FieldsSpansIff` | block/blockcolumn.go:580-657 | the same of the directory any bytes open to |
| `DirectorySound.CompactSound` | block/compactdir.go:31-57 | and so do any that open packed |
| `DirectorySound.LeadingSound` | block/blockcolumn.go:467-505 | any object that opens from its head is a sound directory followed by exactly the data it serves |
| `DirectorySound.FooterSound` | block/blockcolumn.go:397-412 | any object that opens from its footer is its data, a sound directory and that directory's length |
| `DirectorySound.TrailerSound` | block/blockcolumn.go:416-430 | any trailer object that opens is its data, its dictionary region, a sound directory and that directory's length |
| `DirectoryRoundTrip.FieldsRoundTrip` | block/blockcolumn.go:578-656 | a written directory's fields parse, against the manifest written beside it, to exactly the spans that were sealed |
| `DirectoryReaders.DirCursor.NextEntry` | block/blockcolumn.go:434-463 | the cursor reads one entry and moves exactly past it |
| `DirectoryReaders.DirCursor.NextChunk` | block/chunkrows.go:55-75 | the cursor reads one chunk entry and moves exactly past it |
| `DirectoryReaders.ReadFrameTable` | block/blockcolumn.go:660-725 | the loop fills the table the grammar's reading gives, or fails exactly when it does, and leaves the cursor at its end |
| `DirectoryReaders.ReadGranuleLens` | block/blockcolumn.go:730-787 | the loop, overwriting each frame's length in place, gives the spans the grammar's reading gives |
| `DirectoryReaders.ReadChunkRows` | block/chunkrows.go:35-84 | the loop gives the row starts and key bounds the grammar's reading gives |
| `LayoutsAgree.CompactBound` | block/compactdir.go:11-18 | the raw directory of any variable-chunk column a writer seals stays within the bound its reader allows |
| `LayoutsAgree.CompactOk` | block/compactdir.go:31-57 | a packed directory opens to the same spans as the plain one |
| `LayoutsAgree.DirBoundHolds` | block/rangedcolumn.go:405-418 | the directory of a fixed-granule column is never longer than the bound a reader without sizing fetches by |
| `LayoutsAgree.LeadingWhole` | block/blockcolumn.go:467-505 | a leading directory, packed or plain, read with its object opens the sealed spans over the written frames |
| `LayoutsAgree.FooterWhole` | block/blockcolumn.go:397-412 | a footer object read whole opens the same |
| `LayoutsAgree.TrailerWhole` | block/blockcolumn.go:416-430 | a trailer object read whole opens the same |
| `LayoutsAgree.LeadingRanged` | block/rangedcolumn.go:323-403 | a leading directory read by range, at any offset of a larger object, with or without sizing, opens the same |
| `LayoutsAgree.FooterRanged` | block/rangedcolumn.go:268-314 | a footer directory read by range opens the same, whether or not the first probe covers it |
| `LayoutsAgree.TrailerRanged` | block/rangedcolumn.go:156-187 | one read of a trailer object's tail gives the dictionary region and the same directory |
| `Packing.AddAllKeeps` | block/streamwriter.go:1214-1260 | packing loses, adds and moves no stream, and no frame passes the limit but by its last stream |
| `Packing.OffsetsExact` | block/blockcolumn.go:699-714 | the int32 offsets a parser keeps are the frames' offsets if and only if the frames stay under 2 GiB |
| `Packing.OffsetsWrap` | block/blockcolumn.go:699-714 | of three frames of 1 GiB the second ends at a negative offset and the third lies before the data |
| `Packing.FrameAtOffsets` | block/blockcolumn.go:227-251 | under 2 GiB, frame f's bytes are at its recorded offsets |
| `Packing.GranuleAt` | block/blockcolumn.go:291-302 | granule k's recorded frame holds granule k's stream at its recorded span |
| `Packing.FrameLoads` | block/blockcolumn.go:227-273 | every frame passes its checksum and exact size and decompresses to the streams packed into it |
| `Packing.ColumnReadsBack` | block/blockcolumn.go:913-930 | granule k of an opened column is the k-th stream written, and none is missing |
| `FrameRot.ReadsOriginalOrFails` | block/blockcolumn.go:227-302 | over stored frames lost, cut or changed, so long as a change shows in the checksum, a granule reads as the stream written if and only if its own frame is unharmed, and otherwise fails |
| `BlockAccum.PutDir` | block/streamwriter.go:1381-1418 | the writing loops produce exactly the stored directory, packed only when that is smaller |
| `BlockAccum.LayOut` | block/streamwriter.go:1302-1330 | draining frames one by one produces the layout's bytes |
| `BlockAccum.TallySizing` | block/streamwriter.go:1333-1350 | the totals and maxima are those of the sealed frames |
| `BlockAccum.BlockAccum.AddGranule` | block/streamwriter.go:1214-1231 | a stream joins the open frame, which is sealed when full, kept or sunk alike |
| `BlockAccum.BlockAccum.Seal` | block/streamwriter.go:1233-1260 | the open frame is compressed, recorded and kept or emitted, and an empty one is left alone |
| `BlockAccum.BlockAccum.Attach` | block/streamwriter.go:1176-1195 | every frame kept so far goes to the sink in order and the packing is unchanged |
| `BlockAccum.BlockAccum.SealChunk` | block/chunkrows.go:123-136 | a chunk's rows and keys are recorded and its frame shared with no other |
| `BlockAccum.BlockAccum.Finish` | block/streamwriter.go:1277-1378 | the object, kept or streamed, with or without a region, is the layout of the packing alone, and its size is reported |
| `ColumnFile.WriteFixed` | block/streamwriter.go:1174-1378 | the bytes depend on whether a sink was attached, never on when |
| `ColumnFile.WriteChunks` | block/chunkrows.go:95-136 | the same for variable chunks, one frame each |
| `ColumnFile.FixedIsOk` | block/streamwriter.go:1214-1260 | whatever streams a fixed-granule column is given, what it seals meets its reader's demands |
| `ColumnFile.ChunksAreOk` | block/chunkrows.go:123-136 | whatever chunks a column is given, what it seals meets its reader's demands |
| `ColumnFile.KeptColumnReads` | block/streamwriter.go:1302-1330 | a column kept in memory opens whole and by range to every stream written, in order |
| `ColumnFile.StreamedColumnReads` | block/streamwriter.go:1355-1378 | a streamed column opens whole and by range to every stream written, in order |
| `ColumnFile.TrailerColumnReads` | block/shareddictwrite.go:281-357 | with a dictionary region, kept or streamed, the streams and the region come back |
| `ColumnFile.ChunkColumnReads` | block/chunkrows.go:35-84 | variable chunks, directory packed or not, leading or footer, whole or by range, come back |
| `DictRegion.BlobIsRaw` | block/shareddictwrite.go:107-115 | the serialized dictionary takes exactly the raw bytes the builder accounted for |
| `DictRegion.BuildRegion` | block/shareddictwrite.go:385-400 | writing the counts right-aligned before the payload in one buffer gives the region's bytes when the compressor keeps its bound |
| `DictRegion.ReadEntries` | block/shareddict.go:175-191 | the entry loop reads what the grammar's recursion reads, or fails exactly when it does |
| `DictRegion.RegionRoundTrip` | block/shareddict.go:128-194 | a region parses back to its dictionary and to whatever followed it |
| `DictRegion.TrailerDictRoundTrip` | block/shareddict.go:198-214 | a trailer region parses back to its dictionary under the manifest's exact sizes |
| `DictRegion.RawWithinCharge` | block/shareddictwrite.go:77-81 | charge is raw plus the fixed overhead per entry, so raw stays within any cap charge does |
| `DictRegion.WrittenDictAccepted` | block/manifestext.go:59-96 | whatever dictionary a writer under the format's cap puts in its object, the manifest reader's bounds accept |
| `Manifest.WrittenSizingAccepted` | block/manifestext.go:123-157 | whatever a writer seals, its sizing passes the manifest reader's checks under every layout |
| `DictColumnFile.WriteTrailerDict` | block/shareddictwrite.go:290-357 | the object is the trailer layout of the decided granules and dictionary, and the layout is taken if and only if some granule joined or it is forced |
| `DictColumnFile.BytesColumnRoundTrip` | block/shareddictwrite.go:281-357 | rows in, rows out: a bytes column written under any allowed cap, kept or streamed, is accepted by the manifest bounds and read back row for row |
| `RowSpans.Search` | block/chunkrows.go:28-33 | the binary search finds the first start past a row |
| `RowSpans.SpansPartition` | block/chunkrows.go:14-26 | spans start at 0, meet end to start, end at the last row, and none is empty, for fixed granules and variable chunks |
| `RowSpans.BlockAtInverts` | block/chunkrows.go:28-33 | blockAt finds a block whose span holds the row |
| `RowSpans.BlockAtUnique` | block/chunkrows.go:28-33 | no other block's span holds it |
| `BlockDecode.DecodeColumn` | block/blockcolumn.go:1175-1219 | the decode succeeds if and only if every block decodes to the rows placed there, and then fills the rows in order |
| `BlockDecode.WholeDecodes` | block/blockcolumn.go:1175-1219 | a well-formed column decodes whole to all its rows |
| `BlockDecode.DecodeBlocksInto` | block/blockcolumn.go:1224-1263 | succeeds if and only if every chosen block is in range and placed, sets exactly the chosen spans, and leaves every other row alone |
| `BlockDecode.ChosenIsWhole` | block/blockcolumn.go:1224-1263 | a chosen row reads as the whole decode has it |
| `BlockSeek.DecodeRange` | block/blockcolumn.go:1268-1312 | the range loop computes the range specification, errors included |
| `BlockSeek.SeekEqualsSlice` | block/blockcolumn.go:1268-1312 | on a well-formed column a range read is the whole decode's rows of that range |
| `BlockSeek.RangeRightIff` | block/blockcolumn.go:1268-1312 | a successful range read returns the right rows if and only if every block it crosses but the last decodes to as many rows as its span, which it does not check |
| `BlockSeek.RangeShifts` | block/blockcolumn.go:1268-1312 | a concrete column the whole decode refuses and the range read answers with shifted rows |
| `BlockSeek.Cursor.Next` | block/blockcolumn.go:1457-1492 | over a well-formed column the cursor yields row after row of the whole decode and then ends |
| `ColumnRows.FixedRows` | block/blockcolumn.go:1175-1219 | an opened column of fixed granules is well-formed and its blocks are its rows |
| `ColumnRows.ChunkRows` | block/chunkrows.go:35-84 | an opened column of variable chunks is well-formed and its blocks are its rows |
| `ColumnRows.ObjectSeeks` | block/blockcolumn.go:1268-1312 | from rows to object bytes to any range of them: a kept or streamed object opens whole and by range to the same directory over the same frames, and a range read out of it is that slice of the rows |
| `NumericStream.KeyRange` | block/streamwriter.go:614-620 | the running minimum and maximum are the granule's |
| `NumericStream.KeyBoundsTight` | block/marks.go:39-63 | the recorded range is attained, not just a bound |
| `NumericStream.BuildMarks` | block/marks.go:39-63 | the index is the fixed-size cut's marks |
| `NumericStream.Overlapping` | block/marks.go:67-77 | every mark that meets the window, once, in order, and no other |
| `NumericStream.PruneKeepsRows` | block/marks.go:65-77 | pruning loses nothing: a row in the window has its granule's mark meet it |
| `NumericStream.Int64Column.Append` | block/streamwriter.go:580-612 | a batch of any size is appended, every granule it completes flushed, less than one left staged, stats and marks kept |
| `NumericStream.Int64Column.Finish` | block/streamwriter.go:944-1041 | the finished granules are the fixed-size cut of everything appended |
| `NumericStream.StreamInt64` | block/streamwriter.go:580-641 | for any split into batches the granules are the cut of the whole column and the marks those built over the whole |
| `FloatGroups.FloatGroupRange` | block/blockcolumn.go:1494-1503 | gives the group ends strictly inside the range, measured from its start, then the range's own end |
| `FloatGroups.GroupColumn.AppendGroup` | block/streamwriter.go:217-235 | rows are appended, a begin recorded where the first of them lands, and pending starts kept relative to the first staged row |
| `FloatGroups.GroupColumn.Rebase` | block/streamwriter.go:659-676 | after flushed rows are dropped the pending starts are the begins past the new base, with a leading 0 |
| `FloatGroups.FromPast` | block/streamwriter.go:659-676 | starts kept from an offset on are the begins past it, and one exactly at it as 0 |
| `FloatGroups.StreamGroups` | block/streamwriter.go:643-734 | for any split into appends each granule has the cut's rows and the ends of the whole column's groups within it |
| `FloatGroups.EndsAgree` | block/blockcolumn.go:1494-1503 | a granule's recorded ends are what reading its range out of the whole column's ends gives |
| `FrameSource.Source.Fill` | block/columnscan.go:214-245 | a refill reads the longest run of whole frames that fits the window, always at least the frame asked for, into a buffer that grows by the doubling rule, and a failed one leaves nothing covered |
| `FrameSource.Source.ReadAhead` | block/columnscan.go:199-210 | every frame returned is the object's bytes at its span; a covered frame costs no request |
| `FrameSource.FetchedOnce` | block/columnscan.go:199-245 | in a contiguous run of fetches every byte lies in exactly one |
| `FrameSource.Walk` | block/columnscan.go:199-245 | a forward walk's fetches cover the data region end to end with no byte fetched twice |
| `ScanBound.ResidentBytes` | block/columnscan.go:122-157 | the loop over frames gives the specification of what is held, which `WholeCovered`, `AheadCovered` and `FrameCovered` show to cover what is |
| `Holdings.DirCovered` | block/blockcolumn.go:275-279 | the directory's own report is its offsets, checksums, sizes and granule numbers, counted |
| `Holdings.DictCovered` | block/shareddict.go:73-81 | the dictionary's report covers its decompressed bytes, length prefixes included, and a view of each entry |
| `Holdings.WholeCovered` | block/columnscan.go:118-157 | read whole, the report covers the data, the directory, the dictionary, any two decompressed frames and any decoded granule |
| `Holdings.FrameCovered` | block/columnscan.go:118-157 | read frame by frame, the same with whichever frame is in memory |
| `Holdings.AheadCovered` | block/columnscan.go:118-157 | read ahead, the same with the whole buffer of the frame source in every valid state, its spare capacity included |
| `ScanBound.GapsAreLens` | block/columnscan.go:122-142 | the widest gap between offsets is the longest frame |
| `ScanBound.DictWithinRaw` | block/shareddict.go:73-81 | the entries held stay within the raw dictionary and the overhead per entry |
| `ScanBound.RowsBound` | block/columnscan.go:107-113 | a granule's rows stay within rows divided by one less than the granule count |
| `ScanBound.BoundHolds` | block/columnscan.go:59-157 | for every written column, window and way of reading, the bound from the manifest is at least what the opened decoder holds |
| `Holdings.BoundTight` | block/columnscan.go:59-157 | the bound from the manifest exceeds the report by no more than the object's bytes outside its frames, the dictionary's length prefixes and the rows the granule bound allows over one granule |
| `Reservation.EntryDescribes` | block/columnscan.go:59-113 | the manifest entry a writer records describes the column it laid out, under every layout |
| `Reservation.FixedReserved` | block/columnscan.go:59-157 | a fixed-granule column as written, with or without a dictionary region, kept or streamed, is reserved for by the entry recorded for it |
| `Reservation.ChunksReserved` | block/columnscan.go:59-157 | and so is a column of variable chunks, its directory compacted or not |
| `Reservation.BytesReserved` | block/columnscan.go:59-157 | from rows: the entry of the bytes column of any rows reserves at least what any scan of it holds |
| `Reservation.HeldReserved` | block/columnscan.go:59-157 | from rows: the entry of the bytes column of any rows reserves at least what a read-ahead scan of it really holds, buffer capacity and all |
| `EcShards.StepKeeps` | cluster_ec.go:481-523 | every step of every node keeps each confirmed slot on its own owner |
| `EcShards.NoLastCopyRemoved` | cluster_ec.go:476-523 | under a fixed owner list, addresses repeated or not, with any interleaving of checks, deletes and stores on any nodes, a shard held somewhere is held somewhere ever after |
| `EcShards.QuietIsOk` | cluster_ec.go:481-523 | a cluster with no prune under way satisfies the invariant |
| `EcShards.IndexOf` | cluster_ec.go:565-573 | the first place of an address, or -1 exactly when it is absent |
| `EcRepair.PeerHolds` | cluster_ec.go:544-562 | true exactly when the peer lists every object of the slot |
| `EcRepair.PruneStaged` | cluster_ec.go:481-523 | deletes exactly the foreign shards, and does so if and only if the node owns a slot, holds a foreign shard, and every other slot is confirmed on another owner |
| `EcProgress.PruneGetsThere` | cluster_ec.go:481-523 | a node whose other slots are all on their owners, its peers answering, comes through its own checks and deletes to exactly the store a prune run through at once leaves |
| `EcProgress.PruneRefused` | cluster_ec.go:481-523 | while some other slot is not on its owner no steps of the node's prune touch a copy |
| `EcRepair.PruneKeepsIntactIff` | cluster_ec.go:544-562 | a prune leaves an intact copy of a foreign shard if and only if another node's copy passes the recorded checksum, which the check of keys does not ask |
| `EcRepair.IntactHomesSuffice` | cluster_ec.go:481-523 | owners whose copies are intact are enough for that |
| `EcRepair.RottenHome` | cluster_ec.go:544-562 | a concrete cluster where the owner's copy has rotted and the prune drops the last intact one |
| `EcRepair.Discover` | cluster_ec_repair.go:144-173 | every listed slot is mapped, to the first node listing it |
| `EcRepair.Rebuild` | cluster_ec_repair.go:93-138 | given the code's law and detectable rot, the rebuild succeeds if and only if enough fetched shards pass their checksums, and what it stores is the original shard of its slot |
| `EcCluster.NoLastCopyLost` | cluster_ec.go:476-523 | with checks, deletes, fetches and repair stores of any nodes interleaved in any order under a fixed owner list, addresses repeated or not, a shard held somewhere is held somewhere ever after |
| `EcCluster.RunAllSound` | cluster_ec_repair.go:93-138 | over any interleaved run every stored copy stays an original or visibly rotten, and every rebuild has gathered nothing but originals |
| `EcCluster.RepairStoresOriginals` | cluster_ec_repair.go:93-138 | at any point of any interleaved run what a rebuild stores is the original shard of its node's slot, and it touches no other copy |
| `EcProgress.RebuiltIff` | cluster_ec_repair.go:93-138 | a rebuild that has gathered only originals yields its shard if and only if it has enough of them |
| `EcProgress.RepairHeals` | cluster_ec_repair.go:93-138 | with as many good copies of different slots anywhere as the code has data shards, fetching them and storing leaves the original shard on the node, every other copy as it was, and goes on to the next object |
| `EcCluster.RepairCoversIff` | cluster_ec_repair.go:13-66 | once every owner has repaired, every slot is on its owner, whatever else the stores hold, if and only if no address is repeated among the owners |
| `EcCluster.RepeatedOwner` | cluster_ec_repair.go:13-66 | a concrete owner list with one address twice, whose second slot repair never rebuilds |
| `ReadCache.CachedBackend.ReadWhole` | backend/cache.go:171-204 | a whole read, hit or miss, does what the cache specification says, stays resident only within the budget, and while memory agrees returns what the backend holds |
| `ReadCache.CachedBackend.ReadRange` | backend/cache.go:210-253 | a ranged read is as much of the range as there is of what the backend holds, bytes and length both, while memory agrees |
| `ReadCache.CachedBackend.ReadPageView` | backend/page.go:33-53 | a page read is as much of the range as there is of what the backend holds, served only from a page of the current generation |
| `ReadCache.RangesTile` | backend/readat.go:116-136 | two adjoining ranged reads through the cache join to what one of both would give, and a read from 0 of at least the length is the object |
| `ReadCache.CachedBackend.WriteThrough` | backend/cache.go:255-263 | a write changes the backend as it would alone and leaves no reachable page of the object |
| `ReadCache.CachedBackend.Swap` | backend/cache.go:280-294 | a swap, won or lost, acts on the backend as it would alone and leaves the object neither resident nor paged |
| `ReadCache.CachedBackend.ReadAtVersion` | backend/cache.go:308-317 | a versioned read returns the backend's bytes and version, an absent key's too, and drops the object from the cache; a failed one changes nothing |
| `ReadCache.CachedBackend.Remove` | backend/cache.go:319-324 | a delete acts as it would alone and drops the object whether or not it existed |
| `ReadCache.CachedBackend.Serve` | backend/cache.go:171-407 | any request does what the cache specification says, agreeing or not, and while memory agrees acts and answers as the backend alone would |
| `ReadCache.ServeAgrees` | backend/cache.go:171-407 | while memory agrees with the backend, any request does to it and answers what the backend would alone, and memory goes on agreeing |
| `ReadCache.FreshGen` | backend/page.go:33-53 | a new generation makes no cached page reachable |
| `ReadCache.ServeAll` | backend/cache.go:171-407 | over any run of requests with any evictions between them the cache is transparent |
| `StoreLaws.ReadsLastWrite` | backend/backend.go:33-82 | after any requests a read answers the last bytes any of them wrote, nothing once removed, or what was there |
| `StoreLaws.UpActs` | backend/backend.go:33-82 | a write that is not failed lands, an absent key only is placed, a present one only is removed, and a swap writes only on the current version |
| `StoreLaws.VersionTells` | backend/version.go:8-32 | a version identifies contents, not a write: a key has the same version again if and only if it holds the same again |
| `StoreLaws.SwapWinsIff` | backend/backend.go:194-217 | a swap on what a versioned read answered, an absent key included, wins after any requests in between if and only if they left the key as it was read; won, it answers the version the key then has, lost it changes nothing |
| `CacheRivals.StaleAfterRival` | backend/cache.go:296-317 | a run of the cache, over any store of versions: a plain read, a rival's write, and a second read that answers the old bytes |
| `CacheRivals.ResidentIff` | backend/cache.go:171-407 | after any requests, evictions and rival writes a key is resident if and only if some read or kept write loaded it and nothing since, versioned read, swap, delete, uncached write or eviction, has dropped it |
| `CacheRivals.RivalSeenIff` | backend/cache.go:296-317 | after any history a plain read shows a rival's write, whatever it wrote, if and only if the key has not been loaded since it was last dropped |
| `CacheRivals.RivalPageSeenIff` | backend/page.go:33-53 | and a page read if and only if neither the key nor that page of it has been |
| `MergeQueue.RunsPrefix` | mergecatchup.go:90-98 | a turn runs a prefix, a deferred task only alone, and stops at the limit, the end or a deferred task |
| `MergeQueue.RunMergeTasks` | mergecatchup.go:90-117 | the runs logged, each with its answer, are the prefix, each task once in whatever order they finish; the queue left is the untouched suffix in order, then, in their order, exactly the tasks whose runs are not done with |
| `MergeQueue.UnfinishedStays` | mergecatchup.go:101-112 | a run that asks for more, and merged or was put off in a turn in which something merged, is followed by its key in the queue left |
| `MergeQueue.ScheduleRunsOnce` | mergecatchup.go:90-100 | tasks run at once in any order of finishing are each run exactly once |
| `MergeQueue.TurnShrinks` | mergecatchup.go:90-117 | a turn that merges nothing leaves the queue shorter, and none makes it longer |
| `MergeQueue.Drain` | mergecatchup.go:90-117 | when progress takes from the work left, turns repeated until the queue is empty number at most the work and the tasks there were, every queued key has been run, and every key's last run asked for no more, or merged nothing and was not put off or ran in a turn in which nothing merged |
| `MergeQueue.RefreshMergeTasks` | mergecatchup.go:69-88 | the queue is the pending keys still due, in their order, then the new ones, every task as it is due now |
| `MergeQueue.RefreshedOnce` | mergecatchup.go:69-88 | every due key appears exactly once and no other does |
| `MergeQueue.RefreshedOrder` | mergecatchup.go:69-88 | pending keys stand ahead of new ones, each group in the order its keys first came |
| `MetricWriter.Writer.SeriesOf` | metric_append.go:46-49 | names the identity of buffered point i |
| `MetricWriter.Writer.BufferBatch` | metric_append.go:34-44 | the columns spell out the buffered points with the batch's appended |
| `MetricWriter.Writer.Flush` | metric_write.go:19-33 | the buffered points reach their tenant's engine in order, each counter grows by its own verdicts, and the buffer is empty |
| `MetricWriter.Writer.AppendBuffered` | metric_write.go:71-81 | the batch is buffered behind what is there, flushing first when it would not fit and after when full |
| `MetricWriter.Writer.AppendDirect` | metric_write.go:83-157 | the batch reaches its engine or is shed whole by the rate valve and counted as such |
| `MetricWriter.Writer.Write` | metric_write.go:35-69 | whatever path a batch takes, what engines have and what is buffered together are what direct writing would have delivered, the buffer holding one tenant and under 4096 points |
| `MetricWriter.WriteAll` | metric_write.go:19-180 | buffered writing refines direct writing: each engine gets exactly its tenant's points in order, and each counter is the sum of its own verdicts: engine verdicts over the calls made, and points shed by the rate valve |
| `MetricWriter.ReceivedIs` | metric_write.go:35-69 | what direct writing delivers: a reserved tenant gets nothing, one without a rate limit all its points in order, one with it those of the batches let through, and the rest are counted shed |
| `MetricWriter.JudgedAll` | metric_write.go:19-33 | an engine that accounts for every point gives each exactly one verdict over all its calls |
| `Retention.SizeRetentionCutoff` | retention.go:106-134 | no cutoff exactly when the parts fit or the newest to go is at time -1; otherwise what is kept fits or is one part, every earlier cutoff keeps too much, and the latest part is dropped if and only if it is tied with others that overrun the budget together and not at time -1 |
| `Retention.KeptFits` | retention.go:106-134 | parts over the budget lose some, and those at or past the cutoff fit unless at most one is left |
| `Retention.EarlierKeepsMore` | retention.go:106-134 | every smaller threshold keeps more than the budget |
| `Retention.NewestKeptIff` | retention.go:106-134 | the cutoff drops the newest part if and only if two or more parts tied with it overrun the budget and its time is not -1 |
| `Retention.TieDropsNewest` | retention.go:91-105 | a concrete tie in which the newest part is dropped |
| `Retention.OverlookedIff` | retention.go:106-134 | parts over the budget get no cutoff if and only if those from time -1 on are too much, those from 0 on are not, and one is at -1 |
| `Retention.OverlookedAtZero` | retention.go:106-134 | a concrete pair of parts over the budget whose cutoff comes out as 0 and reads as none |
| `RateValve.AdmitKeeps` | admission.go:69-89 | a request keeps the tokens within the burst, moves the clock on and never back, and takes what it admits out of the tokens and the refill |
| `RateValve.AdmitsIff` | admission.go:54-89 | a bucket once read admits a request if and only if its bytes are within the burst and within the tokens and the refill since; it takes that much out and otherwise keeps all of it |
| `RateValve.NoLimitAdmits` | admission.go:294-303 | an unset limit admits everything and leaves the bucket alone |
| `RateValve.PacedAdmitted` | admission.go:294-303 | a producer whose every request is within the refill since the one before it is never shed |
| `RateValve.SecondRefills` | admission.go:294-303 | a second refills what the limit allows a second |
| `RateValve.AccountedIff` | admission.go:54-89 | requests of every size are accounted for if and only if the last reading is not 0 or the time since would have filled the bucket |
| `RateValve.AdmittedBounded` | admission.go:54-89 | over any run under one limit, whatever the clock does, as long as the latest reading is not 0 when a later request comes, tokens stay within the burst and bytes admitted within burst plus rate times elapsed refill time |
| `RateValve.ZeroClockRefills` | admission.go:54-65 | at a clock reading of 0 the bucket is reseeded by every request, so the bound fails |
| `RateValve.TokenBucket.AllowRate` | admission.go:294-303 | the mutable bucket does what the valve's specification says, which `AdmittedBounded` bounds from above and `AdmitsIff` and `PacedAdmitted` from below |
| `Arena.ByteArena.Copy` | block/arena.go:14-35 | a copy reads as the value and no earlier copy changes or moves |
| `Arena.ByteArena.Reset` | block/arena.go:38-49 | keeps exactly the standard-size chunks, emptied |

## Left out

- Raw-mode bytes columns, leading-dictionary columns and the legacy unframed layout.
- The observer's counts, and gids past 2^31 distinct values in one granule.
- The epoch of a decode lease as a uint64 that could wrap after 2^64 decodes.
- Chunk codecs, compressors, CRC32C and Reed-Solomon themselves: they are function values with laws.
- The column statistics of the manifest other than the sort key's range, and the choice between float codecs.
- Marks encoding and decoding, and the rest of the manifest's bytes.
- Sinks, backends and engines that fail part-way through a column: a write either happens or the run ends.
- `DictColumn` merging of self-encoded granules, which goes through a dictionary merger outside these files.
- Pooled and reused buffers, other than the frame buffer, the read-ahead buffer and the arena's chunks.
- Concurrency inside one process: locks are taken to work, and the cache's operations are one at a time.
- The transient memory of opening a column, and sizes of Go slices beyond what they hold.
- Budgeted sampling of metric points, and overflow series.
- Network, membership, ownership, retries, tracing and options.
- Writers.BatchIds: writes the encoding of its rows for fewer than 2^32 granules only, because the code's generation counter wraps there; `IdsStepRightIff` says when a granule is still right.
- Lease.Decoder.DecodeBytes: only the end of the leases is modelled; the merged column it returns is copied through a dictionary merger outside these files.
- MergeObjects.Stream: a caller that wraps a column of its own is taken to wrap it over the table it bound; pairing a token with another table's column is the caller's error.
- Retention.SizeRetentionCutoff: the parts are sorted as values by insertion, where the code sorts its slice in place; times and totals are unbounded, so a part at the last int64 time is not modelled.
- BlockSeek.Cursor.Next: a stream that opens and fails between rows is taken as one that does not open.
- EcCluster.NoLastCopyLost: is about copies being held, not about their contents, which `PruneKeepsIntactIff` covers.
- RateValve.AdmittedBounded: is one-way over runs, the exact condition being per request in `AccountedIff`; arithmetic is over the reals, so rounding of float64 tokens is not captured.
- ScanBound.BoundHolds: the steady bound only, for frames totalling under 2 GiB, where the parsed offsets are exact.
- StoreLaws.SwapWinsIff: takes tokens to tell contents apart, which a truncated digest does but for collisions.
