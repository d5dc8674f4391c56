# B000 container reader, metadata tree helpers and CLI helpers

This project is a Dafny model of the core of `b`, a converter between mzML mass
spectrometry files and a compact binary container ("B000", file extensions `.b64`
and `.b32`). The model covers four parts:

- the container reader in `decode.rs`:
  - the 192-byte header: magic, endianness flag, codec and filter bytes;
  - the section layout;
  - the index entries;
  - the block directory and block start offsets;
  - block inflation with zero-padding trimming;
  - byte un-shuffling;
  - the columnar metadata block;
  - the spectrum-level cv-param helpers.
- the lazy reader in `decode2.rs`:
  - `ContainerReader`, with its block cache and scratch buffer;
  - the chromatogram index and the per-block start offsets;
  - item-array decoding;
  - attaching decoded x/y arrays to a binary-data-array list.
- the metadata-to-tree helpers, which turn the flat metadata rows into the mzML tree:
  - `common.rs`: attribute lookup, owner ids, subtree collection, the child index;
  - `parse_binary_array_list.rs`: grouping rows into binary data arrays, sorted by owner id;
  - `parse_spectrum_list.rs`: spectrum order and per-spectrum parsing.
- the pure helpers of the command-line tool (`main.rs`):
  - the `--items` spec and the window it selects;
  - file-extension and output-name rules;
  - path resolution;
  - JSON pruning.

Modelling conventions:

- **Integers.** `usize` is 64 bits: `u64` ranges and `checked_add` overflow are explicit. Bytes are naturals below 256.
- **Floats.** A float is its raw little-endian byte chunk. What a decoded array holds is a sequence of such chunks.
- **Decompressors.** zlib and zstd are parameters, the `Inflaters` record and the `zstd` field of `ContainerReader`, with `None` as a decoder error.
- **Other foreign behaviour** is also a parameter, the `Env` record:
  - formatting an `f64`;
  - the in-range test of a number that is read as `u32`;
  - UTF-8 decoding;
  - the controlled-vocabulary name table.
- **Attribute codes.** The `B000:` attribute codes and tag ids come from the schema tables, which are not part of this model. They are named constants with placeholder values; only their distinctness matters.
- **Borrowed buffers.** A `&mut` buffer that a function fills becomes an `array` the method modifies. A state-holding struct (`Container`, `ContainerReader`, `ChildIndex`) becomes a class.
- **Panics.** A panic on a malformed input (slicing past the end) becomes an `Err`, with the message noted in the contract.

## Model

| member | source | states |
|---|---|---|
| Bytes.ReadU8At | crates/parser/src/utilities/decode.rs:1141-1143 | succeeds exactly when the offset is inside the buffer, and returns that byte |
| Bytes.ReadU32At | crates/parser/src/utilities/decode.rs:1145-1148 | succeeds exactly when four bytes remain; the value's little-endian encoding is those four bytes |
| Bytes.ReadU64At | crates/parser/src/utilities/decode.rs:1150-1153 | succeeds exactly when eight bytes remain; the value's little-endian encoding is those eight bytes |
| Bytes.LeValueOfBytes | crates/parser/src/utilities/decode.rs:1145-1153 | decoding the little-endian encoding of a value that fits gives the value back |
| Bytes.LeBytesOfValue | crates/parser/src/utilities/decode.rs:1145-1153 | encoding a decoded byte string gives the bytes back |
| Bytes.LeValueInjective | crates/parser/src/utilities/decode.rs:1145-1153 | equal-length byte strings with equal little-endian values are equal |
| Bytes.ReadSlice | crates/parser/src/utilities/decode.rs:1155-1158 | succeeds exactly when `off + len` neither overflows nor passes the end, returning exactly those bytes; otherwise the error is "EOF" |
| Bytes.ReadU32Vec | crates/parser/src/utilities/decode.rs:1160-1169 | succeeds exactly when `4 * count` bytes are present; the words are the little-endian u32s in order, each below 2^32 |
| Bytes.ReadF64Vec | crates/parser/src/utilities/decode.rs:1171-1180 | succeeds exactly when `8 * count` bytes are present; the words are the 8-byte chunks in order |
| Bytes.Chunks | crates/parser/src/b64/decode2.rs:298-313 | cuts a buffer into `n` chunks of width `w`, each of that width, the first being the buffer's first `w` bytes |
| Bytes.ChunkAt | crates/parser/src/b64/decode2.rs:298-313 | chunk `k` is the bytes from `w*k` to `w*k + w` |
| Cursor.Take | crates/parser/src/b64/utilities/common.rs:19-37 | succeeds exactly when `pos + n` does not overflow and is within the input; returns those bytes and advances the position; on failure the position is unchanged and the message is the overflow or the EOF message |
| Cursor.ReadU32LeAt | crates/parser/src/b64/decode2.rs:117-120 | reads a little-endian u32 at the cursor and advances by four; position unchanged on failure |
| Cursor.ReadU64LeAt | crates/parser/src/b64/decode2.rs:123-126 | reads a little-endian u64 at the cursor and advances by eight; position unchanged on failure |
| Cursor.ReadU32VecAt | crates/parser/src/b64/utilities/common.rs:40-47 | reads `n` u32 words at the cursor, each below 2^32, and advances by `4n`; fails exactly when `4n` or the end position overflows 64 bits (the overflow panic, as an error) or the bytes are missing |
| Cursor.ReadF64VecAt | crates/parser/src/b64/utilities/common.rs:50-57 | reads `n` 8-byte words at the cursor and advances by `8n`; fails exactly when `8n` or the end position overflows 64 bits (the overflow panic, as an error) or the bytes are missing |
| Cursor.VsLenBytes | crates/parser/src/b64/utilities/common.rs:60-80 | no precondition on the column lengths; fails exactly when some string row is bad, and the first bad one decides the error: a missing VI entry is the index-out-of-bounds panic, a VI past the offset/length columns is "string VI out of range"; otherwise the result is the largest end of a string value, or 0 |
| Accession.CvRefFromCode | crates/parser/src/utilities/decode.rs:1182-1190 | codes 0..3 give a vocabulary prefix and any other code gives none |
| Accession.CvRefCodeBijective | crates/parser/src/utilities/decode.rs:1182-1190 | each prefix comes from exactly one code |
| Accession.MakeAccession | crates/parser/src/utilities/decode.rs:1192-1206 | there is no accession exactly when the number is 0 |
| Accession.ParseAccTail | crates/parser/src/utilities/decode.rs:1217-1221 | a missing accession gives 0; otherwise the tail after the last ':' is parsed as a u32 |
| Accession.ParseAccTailOfMakeAccession | crates/parser/src/utilities/decode.rs:1192-1221 | for every prefix except NCIT, parsing the tail of a built accession gives its number back |
| Accession.ParseAccTailOfNcit | crates/parser/src/utilities/decode.rs:1192-1221 | NCIT accessions are written `NCIT:C` plus five digits; the 'C' after the ':' makes the tail fail to parse, so it reads 0 |
| Accession.CvNameFromCode | crates/parser/src/utilities/decode.rs:1208-1215 | a name exists exactly when the code and number are non-zero and the seven-digit accession is in the table |
| Accession.CvNameIsAccessionName | crates/parser/src/utilities/decode.rs:1208-1215 | for MS, UO and PEFF, the name is the table entry of the accession `make_accession` builds, and there is none when the accession is absent from the table |
| Accession.SplitPrefix | crates/parser/src/b64/utilities/common.rs:189-191 | splits at the first ':'; the prefix has no ':', and prefix, ':' and rest rebuild the accession |
| Accession.UnitCvRef | crates/parser/src/b64/utilities/common.rs:159-164 | a unit reference exists exactly when the unit accession has a ':'; it is the part before the first ':' |
| Accession.UnitCvRefOfMakeAccession | crates/parser/src/b64/utilities/common.rs:159-164 | the unit reference of a built accession is its prefix |
| Accession.ParseAccessionTailStrIsDigitsValue | crates/parser/src/b64/utilities/common.rs:194-213 | the digit fold reads the digits after the last ':', skipping non-digits, with overflow giving 0 |
| Accession.TailReadersAgree | crates/parser/src/b64/utilities/common.rs:194-213 | on every built accession, the string tail reader agrees with `parse_acc_tail` |
| HeaderLayout.ParseHeader | crates/parser/src/utilities/decode.rs:432-487 | the three header errors in order (too small, bad magic, big-endian flag); success exactly when none applies; codec is the low nibble of the codec byte, plus the filter byte |
| HeaderLayout.ParseHeaderPrefix | crates/parser/src/utilities/decode.rs:436-487 | the header depends only on the first 192 bytes |
| HeaderLayout.FmtElemSize | crates/parser/src/utilities/decode.rs:749-755 | format 1 is 4 bytes, format 2 is 8 bytes, anything else is "Invalid float format" |
| HeaderLayout.MinNonzeroIsMin | crates/parser/src/utilities/decode.rs:734-746 | the result is none exactly when every value is 0; otherwise it is the least non-zero value present |
| HeaderLayout.MinNonzeroUsize | crates/parser/src/utilities/decode.rs:734-746 | the loop computes the least non-zero value |
| HeaderLayout.LocateSections | crates/parser/src/utilities/decode.rs:489-528 | succeeds exactly when the four formats are valid, both index tables fit, the metadata offsets are ordered up to the global-meta end (the first non-zero container offset, else the file end) and that end lies in the file; then every section is the byte range the header names and element sizes follow the formats; an invalid format is "Invalid float format", unordered metadata offsets "Invalid meta offsets", a container before the global metadata "Invalid global meta/container offsets" |
| HeaderLayout.ReadIndexEntryWithBlocks | crates/parser/src/utilities/decode.rs:774-796 | succeeds exactly when the 32-byte entry lies within the index, otherwise "Index overflow"; the entry is decoded from exactly those bytes |
| HeaderLayout.IndexEntryRoundTrip | crates/parser/src/utilities/decode.rs:788-795 | reading back an encoded entry gives the entry |
| MetaInflate.TrailingZerosExact | crates/parser/src/utilities/decode.rs:291-308 | the trim count covers only trailing zero bytes, and stops at a non-zero byte or at the cap |
| MetaInflate.AllowPad0Sound | crates/parser/src/utilities/decode.rs:291-308 | a success comes from decoding the input with at most 7 trailing zero bytes removed, and every shorter trim failed |
| MetaInflate.AllowPad0Complete | crates/parser/src/utilities/decode.rs:291-308 | a failure means every allowed trim of trailing zero bytes fails to decode |
| MetaInflate.DecompressAllowPad0 | crates/parser/src/utilities/decode.rs:311-328 | the trimming loop returns the first decodable trim, or the caller's error message |
| MetaInflate.DecompressMetaIfNeeded | crates/parser/src/utilities/decode.rs:330-344 | uncompressed bytes pass through; zlib or zstd goes through the padding-tolerant decoder with its own error message; any other codec is "Unsupported meta codec" |
| Shuffle.UnshuffledAt | crates/parser/src/utilities/decode.rs:263-271 | output byte `i*k + b` is input byte `b*n + i` |
| Shuffle.UnshuffleShuffle | crates/parser/src/utilities/decode.rs:251-273 | un-shuffling undoes the writer's byte shuffle |
| Shuffle.ShuffleUnshuffle | crates/parser/src/utilities/decode.rs:251-273 | the byte shuffle undoes un-shuffling, so the transposition is a bijection |
| Shuffle.UnshuffleColumns | crates/parser/src/utilities/decode.rs:263-271 | the nested loop writes exactly the un-shuffled bytes into the prefix and leaves the rest of the buffer alone |
| Shuffle.UnshuffleInto | crates/parser/src/utilities/decode.rs:251-273 | fails on a size mismatch or a length that is not a whole number of elements, leaving the buffer untouched; element size 0 or 1 copies; otherwise the buffer holds the un-shuffled bytes |
| Shuffle.ByteUnshuffleInto | crates/parser/src/b64/decode2.rs:281-289 | un-shuffles the whole elements and leaves the output's tail untouched |
| SpectrumCv.StripBinaryArrayCvParams | crates/parser/src/utilities/decode.rs:758-772 | keeps exactly the params whose accession tail is not a binary-array kind, in order |
| SpectrumCv.StripConcat | crates/parser/src/utilities/decode.rs:758-772 | stripping distributes over concatenation |
| SpectrumCv.StripKeepsOthers | crates/parser/src/utilities/decode.rs:758-772 | a list without binary-array params is unchanged |
| SpectrumCv.StripIdempotent | crates/parser/src/utilities/decode.rs:758-772 | stripping twice is stripping once |
| SpectrumCv.GroupsPartition | crates/parser/src/utilities/decode.rs:370-383 | the isolation, selected-ion, activation and remaining groups are a partition of the params (as multisets and by count) |
| SpectrumCv.NoPrecursorParams | crates/parser/src/utilities/decode.rs:385-387 | the three precursor groups are empty exactly when every param is of the remaining kind |
| SpectrumCv.SplitPrecursorGroups | crates/parser/src/utilities/decode.rs:370-383 | the loop puts each param into the group its accession tail selects, keeping order |
| SpectrumCv.GroupsAreFilters | crates/parser/src/utilities/decode.rs:370-383 | the one-pass split equals the four order-preserving filters |
| SpectrumCv.InferPrecursorListFromSpectrumCv | crates/parser/src/utilities/decode.rs:365-428 | no precursor list exactly when no param is a precursor param; otherwise one precursor whose window, selected-ion list and activation exist exactly when their groups are non-empty and hold those groups; the rest is returned |
| BlockContainer.DirEntryRoundTrip | crates/parser/src/utilities/decode.rs:108-121 | reading entry `i` of a directory gives back the encoded entry |
| BlockContainer.ReadBlockDir | crates/parser/src/utilities/decode.rs:108-121 | the directory has `block_count` entries, entry `i` decoded from the i-th 32 bytes |
| BlockContainer.BlockStartElems | crates/parser/src/utilities/decode.rs:125-134 | the starts begin at 0, have one more entry than the directory and grow by each block's element count, saturating |
| BlockContainer.StartsMonotone | crates/parser/src/utilities/decode.rs:125-134 | block starts never decrease |
| BlockContainer.StartsAreCappedSums | crates/parser/src/utilities/decode.rs:125-134 | start `k` is the element total of the first `k` blocks, capped at 2^64 - 1 |
| BlockContainer.Resized | crates/parser/src/utilities/decode.rs:205 | resizing keeps the old prefix and zero-fills the rest |
| BlockContainer.ByteSpan | crates/parser/src/utilities/decode.rs:235-243 | the byte span is local offset times size up to that plus length times size, or an overflow error |
| BlockContainer.Container.Empty | crates/parser/src/utilities/decode.rs:67-79 | the empty container: no region, no directory, starts `[0]`, zlib, level 0, element size 1, no filter |
| BlockContainer.Container.FromParts | crates/parser/src/utilities/decode.rs:136-146 | stores the parts and starts with an empty cache and scratch |
| BlockContainer.Container.CompBytes | crates/parser/src/utilities/decode.rs:160-170 | the compressed bytes of a block are its directory range, when that range fits the region |
| BlockContainer.Container.Inflate | crates/parser/src/utilities/decode.rs:180-199 | at level 0 the bytes pass through unless the declared size differs; an unknown codec is an error; a success has the declared size |
| BlockContainer.Container.Unfilter | crates/parser/src/utilities/decode.rs:201-208 | without the shuffle filter, or for an empty block, the bytes pass through; the length is kept |
| BlockContainer.Container.BlockOf | crates/parser/src/utilities/decode.rs:154-214 | an unknown id is "Invalid block id"; a range error propagates; a block that needs no owned copy is its compressed range |
| BlockContainer.Container.BlockOfSize | crates/parser/src/utilities/decode.rs:181-196 | an inflated block has its declared size |
| BlockContainer.Container.BlockOfUnshuffles | crates/parser/src/utilities/decode.rs:201-208 | a shuffled block's length is a whole number of elements, and re-shuffling the result gives the raw block |
| BlockContainer.Container.BlockBytes | crates/parser/src/utilities/decode.rs:154-214 | returns the block; caches it when an owned copy is needed, and a cached block is returned unchanged; the scratch changes only when un-shuffling a new block |
| BlockContainer.Container.LocalByteRange | crates/parser/src/utilities/decode.rs:222-243 | the block-local byte range of an element window, with "Invalid block id" and "Element offset before block start" errors |
| BlockContainer.Container.SliceElems | crates/parser/src/utilities/decode.rs:216-247 | succeeds exactly when the range is valid and within the block, returning those bytes (length `len * elem_size`); range and block errors propagate |
| BlockContainer.NewContainer | crates/parser/src/utilities/decode.rs:81-147 | an empty size or no blocks gives the empty container; element size 0 is an error; otherwise it succeeds exactly when the slice and directory fit, with the directory decoded and the compressed region after it |
| BlockReader.SliceAt | crates/parser/src/b64/decode2.rs:96-114 | returns exactly the requested range, with the overflow and the out-of-range messages |
| BlockReader.SliceAtOfParts | crates/parser/src/b64/decode2.rs:96-114 | slicing the middle part of a concatenation gives that part |
| BlockReader.ReadChromEntry | crates/parser/src/b64/decode2.rs:140-145 | the six fields read are the entry whose encoding is those 32 bytes |
| BlockReader.ParseChromIndex | crates/parser/src/b64/decode2.rs:129-156 | fails exactly when the index slice fails, with its message; otherwise one entry per chromatogram, each decoded from its 32 bytes |
| BlockReader.ContainerReader.CompRange | crates/parser/src/b64/decode2.rs:231-245 | the absolute range of a block's compressed bytes, with the start-overflow, end-overflow and out-of-bounds errors |
| BlockReader.ContainerReader.Produced | crates/parser/src/b64/decode2.rs:246-260 | at level 0, the stored bytes if their length is the declared size; otherwise the zstd output if it has the declared size; range errors propagate |
| BlockReader.ContainerReader.WholeLen | crates/parser/src/b64/decode2.rs:262-267 | with shuffling, the length rounded down to whole elements |
| BlockReader.ContainerReader.Unfiltered | crates/parser/src/b64/decode2.rs:281-289 | re-shuffling the un-shuffled whole elements gives the raw bytes |
| BlockReader.ContainerReader.Filled | crates/parser/src/b64/decode2.rs:262-267 | the block as stored in the cache: the un-shuffled whole elements, then the stale tail of the resized scratch buffer |
| BlockReader.ContainerReader.constructor | crates/parser/src/b64/decode2.rs:209-218 | stores the fields with an empty cache slot per block and an empty scratch |
| BlockReader.ContainerReader.Produce | crates/parser/src/b64/decode2.rs:231-260 | the method computes `Produced` |
| BlockReader.ContainerReader.UnshuffleThroughScratch | crates/parser/src/b64/decode2.rs:262-267 | resizes the scratch buffer, un-shuffles into it, and copies it out |
| BlockReader.ContainerReader.EnsureBlock | crates/parser/src/b64/decode2.rs:222-271 | an out-of-range id is an error naming it; a cached block changes nothing; otherwise the produced, un-shuffled block is cached; errors leave cache and scratch alone |
| BlockReader.ContainerReader.BlockBytes | crates/parser/src/b64/decode2.rs:274-277 | returns the cached block, which has the declared size and whose whole elements are the un-shuffled produced bytes |
| BlockReader.NewContainerReader | crates/parser/src/b64/decode2.rs:178-219 | fails exactly when the directory does not fit ("container too small for directory"); otherwise the directory is decoded, the compressed buffer starts after it and the cache is empty |
| BlockReader.MinStartIsLeast | crates/parser/src/b64/decode2.rs:316-377 | a block's start is the least offset of the entries in it, or the unknown marker 2^64 - 1 |
| BlockReader.NoRefsUnknownStart | crates/parser/src/b64/decode2.rs:316-377 | a block no entry uses keeps the unknown marker |
| BlockReader.ComputeBlockStarts | crates/parser/src/b64/decode2.rs:316-377 | fails exactly when some entry names a block past the count; otherwise one start per block, the least offset into it |
| BlockReader.ComputeBlockStartsForX | crates/parser/src/b64/decode2.rs:316-329 | the same over the spectrum x references, with "mz_block_id out of range" |
| BlockReader.ComputeBlockStartsForY | crates/parser/src/b64/decode2.rs:332-345 | the same over the spectrum y references, with "inten_block_id out of range" |
| BlockReader.ComputeBlockStartsForCx | crates/parser/src/b64/decode2.rs:348-361 | the same over the chromatogram x references, with "time_block_id out of range" |
| BlockReader.ComputeBlockStartsForCy | crates/parser/src/b64/decode2.rs:364-377 | the same over the chromatogram y references, with "inten_block_id out of range" |
| BlockReader.ItemByteRange | crates/parser/src/b64/decode2.rs:387-423 | the item's local byte offset and length, with the unknown-block, unknown-start, negative-offset and element-size errors in the code's order |
| BlockReader.DecodeItemArray | crates/parser/src/b64/decode2.rs:380-431 | succeeds exactly when the range is valid, the block is produced and the range fits; the values are the element chunks of that range of the un-shuffled block, as f32 exactly when the element size is 4 |
| BlockReader.DecodedElementAt | crates/parser/src/b64/decode2.rs:425-428 | element `j` of an item is the block's bytes at element `local + j` |
| MetaBlock.MetaLayout | crates/parser/src/utilities/decode.rs:875-922 | the columns are read exactly when the block holds all of them ("EOF" otherwise); each column has its count and the string data is the rest |
| MetaBlock.ReadU32Column | crates/parser/src/utilities/decode.rs:875-922 | one u32 column, or "EOF" |
| MetaBlock.ReadF64Column | crates/parser/src/utilities/decode.rs:875-922 | one f64 column, or "EOF" |
| MetaBlock.ReadCodedColumns | crates/parser/src/utilities/decode.rs:875-922 | a byte-code column with its u32 accession column, or "EOF" |
| MetaBlock.ReadRowColumns | crates/parser/src/utilities/decode.rs:875-912 | the item-index and per-row columns, or "EOF" |
| MetaBlock.ReadMetaColumns | crates/parser/src/utilities/decode.rs:875-922 | the method reads the same columns as `MetaLayout` |
| MetaBlock.ValueAt | crates/parser/src/utilities/decode.rs:934-950 | a number or string value exists exactly when its kind matches and its index is in range; a string past the data is empty |
| MetaBlock.RowParams | crates/parser/src/utilities/decode.rs:952-963 | one param per row of the window, built from that row |
| MetaBlock.DecodeMetaBlock | crates/parser/src/utilities/decode.rs:868-970 | "EOF" when the columns do not fit; otherwise fails exactly when some item's row window overruns, and item `i` holds the params of its rows |
| MetaBlock.DecodeItem | crates/parser/src/utilities/decode.rs:925-966 | one item fails exactly when its window overruns; otherwise it holds its rows' params |
| MetaBlock.RowParamsByIndex | crates/parser/src/utilities/decode.rs:925-966 | a list with the right params at each position is the window's params |
| MetaBlock.MonotoneIndicesFit | crates/parser/src/utilities/decode.rs:925-967 | with non-decreasing item indices inside the rows, no item overruns |
| MetaBlock.RowParamsSplit | crates/parser/src/utilities/decode.rs:925-967 | windows concatenate |
| MetaBlock.ItemsCoverRows | crates/parser/src/utilities/decode.rs:925-967 | the items' params, concatenated, are the params of all rows in their range |
| MetaBlock.ParamAccessionNumbers | crates/parser/src/utilities/decode.rs:952-963 | except for NCIT, the accession and unit accession tails read back as the stored numbers |
| Rows.OwnersMembers | crates/parser/src/b64/utilities/common.rs:266-277 | an owner id is listed exactly when some selected row has it |
| Rows.OrderedUniqueOwnerIds | crates/parser/src/b64/utilities/common.rs:266-277 | the owner ids of the tag's rows, first occurrence kept, with no duplicates and nothing else |
| Rows.ClosedUniverse | crates/parser/src/b64/utilities/common.rs:280-299 | some finite id set holds the root and is closed under children, so the walk terminates |
| Rows.CollectSubtreeOwnerIds | crates/parser/src/b64/utilities/common.rs:280-299 | the result holds the root, is closed under children and is the least such set |
| Rows.KeyParentTag | crates/parser/src/b64/utilities/common.rs:302-304 | the key fits 64 bits |
| Rows.KeyParentTagInjective | crates/parser/src/b64/utilities/common.rs:302-304 | keys are equal exactly when parent and tag are |
| Rows.GroupMapLookup | crates/parser/src/b64/utilities/common.rs:313-333 | the index's lists are the owners of the rows with that parent and tag, or that parent, in row order |
| Rows.ChildIndex.constructor | crates/parser/src/b64/utilities/common.rs:313-333 | builds the index over the rows |
| Rows.ChildIndex.Ids | crates/parser/src/b64/utilities/common.rs:336-341 | the owners of the rows with that parent and tag, in row order |
| Rows.ChildIndex.FirstId | crates/parser/src/b64/utilities/common.rs:344-346 | none exactly when no row has that parent and tag; otherwise the first owner |
| Rows.ChildIndex.Children | crates/parser/src/b64/utilities/common.rs:349-354 | the owners of the rows with that parent, in row order |
| Rows.ValueToOptString | crates/parser/src/b64/utilities/common.rs:145-151 | none exactly for the empty value; text is kept as is |
| Rows.FirstAttrRow | crates/parser/src/b64/utilities/common.rs:173-186 | the first row carrying the attribute, or none when no row does |
| Rows.GetAttrText | crates/parser/src/b64/utilities/common.rs:173-186 | whenever some row carries the attribute, the value of the first such row (none if that value is empty), skipping rows without a well-formed accession; none when no row carries it |
| Rows.GetAttrTextAgrees | crates/parser/src/b64/utilities/common.rs:173-186 | when every row has an accession with ':', the code as written and the corrected lookup agree |
| Rows.GetAttrTextAsWrittenMisses | crates/parser/src/b64/utilities/common.rs:178-180 | a row without an accession before the attribute row makes the code as written return none |
| Rows.GetAttrU32 | crates/parser/src/b64/utilities/common.rs:167-170 | the attribute's text parsed as a u32, and none when it is missing or does not parse |
| BinaryArrayList.B000Tail | crates/parser/src/b64/utilities/parse_binary_array_list.rs:211-218 | a result is the u32 after `B000:` |
| BinaryArrayList.B000TailOf | crates/parser/src/b64/utilities/parse_binary_array_list.rs:211-218 | `B000:` plus text gives a tail exactly when the text parses |
| BinaryArrayList.B000TailOfDecimal | crates/parser/src/b64/utilities/parse_binary_array_list.rs:211-218 | the attribute accession of a code reads back as that code |
| BinaryArrayList.AsU32 | crates/parser/src/b64/utilities/parse_binary_array_list.rs:221-233 | empty gives none; text gives its u32 value exactly when it parses |
| BinaryArrayList.AsU32OfDecimal | crates/parser/src/b64/utilities/parse_binary_array_list.rs:221-233 | a number's decimal text reads back as the number |
| BinaryArrayList.AsString | crates/parser/src/b64/utilities/parse_binary_array_list.rs:236-242 | the same as the shared value-to-string rule; none exactly for the empty value |
| BinaryArrayList.MergeNumericType | crates/parser/src/b64/utilities/parse_binary_array_list.rs:171-177 | the new type is kept when nothing or the same type was set; a conflict clears it |
| BinaryArrayList.MergeAfterConflict | crates/parser/src/b64/utilities/parse_binary_array_list.rs:171-177 | after a conflict, a later type is taken again |
| BinaryArrayList.Apply | crates/parser/src/b64/utilities/parse_binary_array_list.rs:135-208 | what one row does: ignored rows change nothing; attribute rows set only array length, encoded length or data-processing ref; vocabulary rows append a cv param and may merge the numeric type; user rows append a user param |
| BinaryArrayList.ApplyParams | crates/parser/src/b64/utilities/parse_binary_array_list.rs:181-207 | one row appends at most one cv param or one user param |
| BinaryArrayList.ApplyAllParams | crates/parser/src/b64/utilities/parse_binary_array_list.rs:124-132 | an array's cv and user params are those of its rows, in row order |
| BinaryArrayList.ApplyAllAgreeingPrecision | crates/parser/src/b64/utilities/parse_binary_array_list.rs:161-179 | rows that agree with the numeric type keep it |
| BinaryArrayList.ParentDefault | crates/parser/src/b64/utilities/parse_binary_array_list.rs:87-94 | the first row offering a default array length, or none |
| BinaryArrayList.WithDefaultLength | crates/parser/src/b64/utilities/parse_binary_array_list.rs:100-104 | only a missing array length is filled, with the default |
| BinaryArrayList.InheritAll | crates/parser/src/b64/utilities/parse_binary_array_list.rs:100-104 | every array gets the default where its length is missing |
| BinaryArrayList.InheritArrayLengthFromParent | crates/parser/src/b64/utilities/parse_binary_array_list.rs:86-105 | every array in the buffer gets the parent's default where its length is missing |
| BinaryArrayList.FillMissingLengths | crates/parser/src/b64/utilities/parse_binary_array_list.rs:100-104 | the in-place loop fills each missing length |
| BinaryArrayList.GroupByKeys | crates/parser/src/b64/utilities/parse_binary_array_list.rs:46-61 | the groups are the arrays' owner ids in order of first appearance |
| BinaryArrayList.GroupByAbsent | crates/parser/src/b64/utilities/parse_binary_array_list.rs:46-61 | an id with no group has no rows |
| BinaryArrayList.GroupByContents | crates/parser/src/b64/utilities/parse_binary_array_list.rs:46-61 | each group is its owner's rows folded in row order |
| BinaryArrayList.FoldedAfterUpdate | crates/parser/src/b64/utilities/parse_binary_array_list.rs:50-56 | feeding a row to an existing group keeps every group the fold of its rows |
| BinaryArrayList.FoldedAfterAppend | crates/parser/src/b64/utilities/parse_binary_array_list.rs:57-60 | opening a group for a new owner keeps every group the fold of its rows |
| BinaryArrayList.Insert | crates/parser/src/b64/utilities/parse_binary_array_list.rs:71 | insertion adds exactly one element |
| BinaryArrayList.InsertSorted | crates/parser/src/b64/utilities/parse_binary_array_list.rs:71 | inserting a new key keeps the keys strictly increasing |
| BinaryArrayList.SortByKey | crates/parser/src/b64/utilities/parse_binary_array_list.rs:71 | sorting is a permutation |
| BinaryArrayList.SortByKeySorted | crates/parser/src/b64/utilities/parse_binary_array_list.rs:71 | with distinct keys, the sorted groups are strictly increasing by owner id |
| BinaryArrayList.SameKeys | crates/parser/src/b64/utilities/parse_binary_array_list.rs:71 | a permutation has the same keys |
| BinaryArrayList.ListCount | crates/parser/src/b64/utilities/parse_binary_array_list.rs:37-44 | the first count attribute of the list's rows, or none |
| BinaryArrayList.FindTag | crates/parser/src/b64/utilities/parse_binary_array_list.rs:20-29 | the first row with the tag, or none when there is none |
| BinaryArrayList.ListId | crates/parser/src/b64/utilities/parse_binary_array_list.rs:20-29 | no list exactly when no row is a list or array row |
| BinaryArrayList.SortedGroups | crates/parser/src/b64/utilities/parse_binary_array_list.rs:64-81 | the sorted groups are strictly increasing, cover exactly the owners that feed the list, and each is parsed from its own rows |
| BinaryArrayList.BinaryDataArrayListShape | crates/parser/src/b64/utilities/parse_binary_array_list.rs:64-81 | the list holds one array per owner in id order, each parsed from its rows with the parent's default length; its count is the count attribute, else the number of arrays |
| BinaryArrayList.ParseBinaryDataArrayList | crates/parser/src/b64/utilities/parse_binary_array_list.rs:19-82 | the method computes the list, and there is none exactly when no row is a list or array row |
| BinaryArrayList.CollectArrays | crates/parser/src/b64/utilities/parse_binary_array_list.rs:31-62 | the row loop yields the count attribute and the groups |
| BinaryArrayList.RowStep | crates/parser/src/b64/utilities/parse_binary_array_list.rs:36-62 | one row extends the count search and leaves the groups alone unless it feeds the list |
| BinaryArrayList.FeedRow | crates/parser/src/b64/utilities/parse_binary_array_list.rs:46-61 | one fed row updates the groups and keeps the id-to-position map exact |
| BinaryArrayList.NewKeyAt | crates/parser/src/b64/utilities/parse_binary_array_list.rs:57-60 | a new owner goes at the end, and old positions do not move |
| Spectra.ParamRows | crates/parser/src/b64/utilities/parse_spectrum_list.rs:177-186 | exactly the spectrum's own rows that are not `B000:` attributes, in order |
| Spectra.ParamRowsOfSpectrum | crates/parser/src/b64/utilities/parse_spectrum_list.rs:177-186 | a row reaches the params parser exactly when it is a spectrum row of the first spectrum owner without a `B000:` accession |
| Spectra.AllowedOrAll | crates/parser/src/b64/utilities/parse_spectrum_list.rs:188-194 | an empty allow-list lets everything through; otherwise it is kept |
| Spectra.ArrayLengthOf | crates/parser/src/b64/utilities/parse_spectrum_list.rs:203-208 | an explicit default array length wins |
| Spectra.ArrayLengthFallback | crates/parser/src/b64/utilities/parse_spectrum_list.rs:203-208 | without it: the first non-empty x array's length, else the first non-empty y array's, else 0 |
| Spectra.ParseSpectrum | crates/parser/src/b64/utilities/parse_spectrum_list.rs:148-229 | id, index (else the fallback), data-processing ref (else the list default) and default array length come from the spectrum rows; the array list is parsed from the item's rows and exists exactly when some row is a list or array row |
| Spectra.OwnerToItem | crates/parser/src/b64/utilities/parse_spectrum_list.rs:69-74 | every owner of a spectrum row maps to the item of one of its rows |
| Spectra.OwnerToItemLast | crates/parser/src/b64/utilities/parse_spectrum_list.rs:69-74 | the owner's last row decides its item |
| Spectra.MappedItems | crates/parser/src/b64/utilities/parse_spectrum_list.rs:88-94 | the items of the direct children that have spectrum rows |
| Spectra.DirectOrder | crates/parser/src/b64/utilities/parse_spectrum_list.rs:79-101 | the child-order items are distinct items of spectrum rows |
| Spectra.ItemRows | crates/parser/src/b64/utilities/parse_spectrum_list.rs:107-114 | exactly the rows of one item |
| Spectra.GroupIntoMap | crates/parser/src/b64/utilities/parse_spectrum_list.rs:107-114 | the item map keeps each wanted item's rows as rows are added |
| Spectra.DefaultDpref | crates/parser/src/b64/utilities/parse_spectrum_list.rs:46-50 | the first present of: the list rows' default reference, the list rows' reference, any row's default reference, any row's reference; none exactly when all four are missing |
| Spectra.CountAttr | crates/parser/src/b64/utilities/parse_spectrum_list.rs:52-54 | the list rows' count attribute when present, otherwise any row's; none exactly when both are missing |
| Spectra.SpectraOf | crates/parser/src/b64/utilities/parse_spectrum_list.rs:118-134 | at most one spectrum per ordered item |
| Spectra.SpectraOfCount | crates/parser/src/b64/utilities/parse_spectrum_list.rs:118-134 | when every ordered item has rows, one spectrum per item |
| Spectra.SpectraOfAll | crates/parser/src/b64/utilities/parse_spectrum_list.rs:118-134 | the k-th spectrum is parsed from the k-th item's rows with fallback index k |
| Spectra.InOrderShape | crates/parser/src/b64/utilities/parse_spectrum_list.rs:65-74 | the first-appearance order lists items of spectrum rows and is empty only without spectrum rows |
| Spectra.MappedShape | crates/parser/src/b64/utilities/parse_spectrum_list.rs:88-94 | child-order items are items of spectrum rows |
| Spectra.OrderingNoDups | crates/parser/src/b64/utilities/parse_spectrum_list.rs:76-102 | the order lists each item once |
| Spectra.OrderingItems | crates/parser/src/b64/utilities/parse_spectrum_list.rs:76-102 | the order lists only items of spectrum rows |
| Spectra.OrderingNonEmpty | crates/parser/src/b64/utilities/parse_spectrum_list.rs:76-102 | the order is empty exactly when there is no spectrum row |
| Spectra.OrderedItemsHaveRows | crates/parser/src/b64/utilities/parse_spectrum_list.rs:116-134 | no ordered item is skipped for lack of rows |
| Spectra.SpectrumListNone | crates/parser/src/b64/utilities/parse_spectrum_list.rs:61-63 | there is no list exactly when there is no spectrum row |
| Spectra.SpectrumListContents | crates/parser/src/b64/utilities/parse_spectrum_list.rs:136-144 | one spectrum per ordered item, parsed from its rows with its position and the default ref; the count is the count attribute, else the number of spectra |
| Spectra.OrderWithoutListRow | crates/parser/src/b64/utilities/parse_spectrum_list.rs:76-77 | without a list row, spectra follow the first appearance of their items |
| Spectra.OrderFollowsChildren | crates/parser/src/b64/utilities/parse_spectrum_list.rs:79-99 | when a direct child of the list has a spectrum row, spectra follow the child order |
| Spectra.IndexSpectrumRows | crates/parser/src/b64/utilities/parse_spectrum_list.rs:65-74 | the loop builds the owner-to-item map and the first-appearance order |
| Spectra.DirectItems | crates/parser/src/b64/utilities/parse_spectrum_list.rs:85-94 | the loop collects the distinct child-order items |
| Spectra.GroupByItem | crates/parser/src/b64/utilities/parse_spectrum_list.rs:104-114 | the map holds exactly the wanted items that have rows, each with its rows |
| Spectra.SpectrumOrder | crates/parser/src/b64/utilities/parse_spectrum_list.rs:76-102 | the method computes the order |
| Spectra.ParseItems | crates/parser/src/b64/utilities/parse_spectrum_list.rs:116-134 | the loop parses the ordered items |
| Spectra.ParseSpectrumList | crates/parser/src/b64/utilities/parse_spectrum_list.rs:27-145 | the method computes the list, and there is none exactly when no row is a spectrum row |
| XyArrays.BdaHasArrayKind | crates/parser/src/b64/decode2.rs:434-441 | true exactly when some cv param has that accession tail |
| XyArrays.MsFloatParam | crates/parser/src/b64/decode2.rs:606-621 | an MS param with no value or unit, the accession of the tail, named "32-bit float" or "64-bit float" |
| XyArrays.FloatAccessionTail | crates/parser/src/b64/decode2.rs:444-466 | the float accessions read back as their codes |
| XyArrays.MsFloatParamAccession | crates/parser/src/b64/decode2.rs:606-621 | the built float param carries the expected accession |
| XyArrays.EnsureFloatFlag | crates/parser/src/b64/decode2.rs:444-466 | sets exactly one precision flag, appends the float param only when absent, changes nothing else, and afterwards the param is present |
| XyArrays.EnsureFloatFlagIdempotent | crates/parser/src/b64/decode2.rs:444-466 | applying it twice is applying it once |
| XyArrays.EnsureFloatFlagKind | crates/parser/src/b64/decode2.rs:444-466 | afterwards the array has the precision kind |
| XyArrays.DecodedLen | crates/parser/src/b64/utilities/common.rs:247-253 | zero exactly when both decoded vectors are empty |
| XyArrays.StoreArrayHolds | crates/parser/src/b64/decode2.rs:503-514 | storing a decoded array sets its values and precision, clears the other vector and keeps the other fields |
| XyArrays.FirstWithKind | crates/parser/src/b64/decode2.rs:476-486 | the first array of the kind, or none |
| XyArrays.FindKinds | crates/parser/src/b64/decode2.rs:476-486 | the scan finds the first x and the first y array |
| XyArrays.AttachedAt | crates/parser/src/b64/decode2.rs:488-531 | the y target gets y (after x when the targets coincide), the x target gets x, and every other array is unchanged |
| XyArrays.TargetsInRange | crates/parser/src/b64/decode2.rs:488-531 | the fallback targets are inside the list |
| XyArrays.AttachXyArraysToBdal | crates/parser/src/b64/decode2.rs:469-534 | an empty list is unchanged; otherwise the arrays are attached at their targets and the count is the number of arrays |
| XyArrays.IsYArray | crates/parser/src/b64/utilities/common.rs:256-263 | true exactly when some param is the intensity or signal-to-noise accession |
| XyArrays.FirstLen | crates/parser/src/b64/utilities/common.rs:216-244 | the decoded length of the first non-empty array of the side, or none |
| XyArrays.FirstLenPrefix | crates/parser/src/b64/utilities/common.rs:216-244 | a length found in a prefix is final |
| XyArrays.XyLengthsFromBdal | crates/parser/src/b64/utilities/common.rs:216-244 | the first non-empty x length and the first non-empty y length |
| Cli.ParseItemsSpec | crates/cli/src/main.rs:187-202 | a range has start at most end and a '-' in the trimmed text; a single index has none; errors are the four messages |
| Cli.ParseRange | crates/cli/src/main.rs:192-198 | a range whose end is not before its start, or the start, end or order error |
| Cli.ParseItemsSpecRange | crates/cli/src/main.rs:187-202 | `a-b` parses to the range `[a, b)`, or the order error when b < a |
| Cli.RangeBranch | crates/cli/src/main.rs:190-198 | text with a '-' goes to the range branch |
| Cli.ParseItemsSpecOne | crates/cli/src/main.rs:199-201 | a decimal number parses to that single index |
| Cli.SliceIndices | crates/cli/src/main.rs:204-222 | a single index selects at most one item, and exactly it when it is in range; a range is clamped to the length |
| Cli.ParsedWindowInside | crates/cli/src/main.rs:187-222 | every parsed spec gives a window inside the items |
| Cli.SelectItems | crates/cli/src/main.rs:562-574 | an empty window is the out-of-bounds error |
| Cli.SelectOne | crates/cli/src/main.rs:562-574 | a single index selects that item exactly when it is in range |
| Cli.SelectRange | crates/cli/src/main.rs:562-574 | a range selects the non-empty clamped slice exactly when it starts inside the items |
| Cli.FileName | crates/cli/src/main.rs:232-237 | the last path component, never empty, "." or ".." |
| Cli.SplitExtension | crates/cli/src/main.rs:232-237 | stem, '.' and extension rebuild the name; a leading dot is not an extension |
| Cli.FileExtLower | crates/cli/src/main.rs:232-237 | the lower-cased extension, or empty without one |
| Cli.OutNameForMzmlFile | crates/cli/src/main.rs:239-245 | a name exactly for `.mzML` files in any case: the stem with the new extension |
| Cli.OutNameForMzmlFileOf | crates/cli/src/main.rs:239-245 | `dir/stem.mzML` becomes `stem.<ext>` |
| Cli.HiddenFileNotConverted | crates/cli/src/main.rs:239-245 | a dot-file such as `.mzML` is not converted |
| Cli.NoExtensionNotConverted | crates/cli/src/main.rs:239-245 | a path without an extension is not converted |
| Cli.OutNameForBinFileAsMzml | crates/cli/src/main.rs:247-254 | a name exactly for `.b64`/`.b32` files: the stem with `.mzML` |
| Cli.OutNameForBinFileOf | crates/cli/src/main.rs:247-254 | `dir/stem.b64` becomes `stem.mzML` |
| Cli.ResolveUserPath | crates/cli/src/main.rs:896-902 | an absolute path is kept; a relative one is joined to the working directory; the result is absolute when that is |
| Cli.ResolveIdempotent | crates/cli/src/main.rs:896-902 | resolving twice is resolving once |
| Cli.PrunedClean | crates/cli/src/main.rs:855-879 | pruning leaves no null, empty string, empty array or empty object inside |
| Cli.PruneClean | crates/cli/src/main.rs:855-879 | a clean value is unchanged |
| Cli.PruneIdempotent | crates/cli/src/main.rs:855-879 | pruning twice is pruning once |
| Cli.PruneScalars | crates/cli/src/main.rs:857-860 | booleans and numbers are kept, null is dropped, and a string is kept exactly when it is not empty |
| Cli.PruneJson | crates/cli/src/main.rs:855-879 | the recursive method computes the pruned value and whether it is kept |
| Cli.PruneElements | crates/cli/src/main.rs:861-864 | the array loop keeps the pruned elements that survive |
| Cli.PruneMembers | crates/cli/src/main.rs:866-875 | the object loop keeps the pruned members that survive |

## Left out

- Decompression: zlib and zstd are not modelled. The decoders are parameters; a decoder only succeeds or fails.
- `decompress_zstd` (`common.rs`) is a direct call into zstd and is not modelled.
- `decompress_zstd_allow_aligned_padding` (`common.rs`) is not modelled. It is the same trimming loop as `MetaInflate.DecompressAllowPad0`, but returns the first decoder error rather than a fixed message.
- Floating point is not modelled. This covers:
  - `bytes_to_f32_exact`, `bytes_to_f64_exact`, `bytes_to_f32_vec`, `bytes_to_f64_vec` and `decode_array_by_fmt_from_bytes`: the model stops at the element byte chunks;
  - `f64::to_string`, and the float branch of `as_u32`. These are the `Env` parameters.
- UTF-8 decoding of metadata strings is a parameter.
- The controlled-vocabulary table is a finite map.
- The schema tree (`find_node_by_tag`, `find_node_by_tag_rec`, `child_node`) is not modelled. The tag and attribute tables it and the metadata use are not part of this model; their codes are placeholder constants.
- The sub-parsers `parse_spectrum` calls are parameters (`SubParsers`):
  - `parse_scan_list`;
  - `parse_precursor_list`;
  - `parse_product_list`;
  - `parse_cv_and_user_params`.
- `spectrum_description` is not modelled.
- In `decode`, the assembly of spectra, chromatograms and the run from the decoded pieces is not modelled. This includes `ms_cv_param` and the per-item loops after the metadata blocks. The model covers the header, sections, containers and metadata blocks that assembly consumes.
- `decode_global_meta_structs` is not modelled. It builds the file-level sections (cv list, file description, software, instrument configurations, data processing) from the global metadata.
- `decode2`, `parse_run` and `parse_metadata_section` are not modelled. They wire the reader to the full tree builder. The `parse_*_list` stubs in `decode2.rs` return nothing and are not modelled either.
- The CLI's I/O is not modelled. This covers:
  - `main`;
  - the reading and printing parts of `show`;
  - `convert`;
  - `collect_files_with_exts`, `print_json` and `workspace_root`;
  - `read_mzml_or_b64` and `read_mzml_or_b64_from_bytes`.
- Cli.FileName: paths are `/`-separated strings. Trailing separators and `..` components are taken as written, rather than with the platform's path rules.
- Cli.ResolveUserPath: joining is string concatenation with one `/`; there is no normalisation.
- Cli.PruneJson: returns the pruned value instead of rewriting it in place. Object members are a sequence, which keeps their order.
- Rows.GetAttrU32: reads through the corrected lookup `Rows.GetAttrText` of the Findings row. When a row without an accession, or whose accession has no ':', precedes the attribute row, the source returns none where the model returns the attribute.
- Spectra.ParseSpectrum: reads its attributes through the corrected lookup, so it differs from the source when an unusable row precedes an attribute row. For example, the source falls back to the item's position for the index where the model reads the index attribute (7, say).
- Spectra.DefaultDpref: each of its four lookups is the corrected one; the source can fall through to a later lookup, or to none, when an unusable row precedes the reference row.
- Spectra.CountAttr: both lookups are the corrected one; the source can miss the count attribute behind an unusable row and use the number of spectra instead.
- Spectra.ParseSpectrumList: inherits the corrected lookup through `Spectra.DefaultDpref`, `Spectra.CountAttr` and `Spectra.ParseSpectrum`.
- Hash maps and hash sets are sequences, maps and sets:
  - their iteration order is never observable in the modelled code;
  - `ChildIndex` keeps the rows and answers from them.
- BinaryArrayList.SortByKey: `sort_unstable_by_key` is modelled by insertion sort. The owner ids are distinct, so every sort gives the same result.
- `new_binary_data_array` preallocates capacities; capacities are not modelled.
- Unit tests and the `mod.rs` re-exports are not modelled.

## Findings

| source | as written | input that shows it | evidently intended | confidence | as-written member | corrected member |
|---|---|---|---|---|---|---|
| crates/parser/src/b64/utilities/common.rs:173-186 | the search for an attribute row applies `?` to each row's accession and to its split at ':', so the first row with no accession, or with no ':', ends the whole search with `None` | a row with no accession followed by a row with accession `B000:5` and value `x`: looking up attribute 5 gives `None` | rows that are not attribute rows are skipped, and the lookup gives `Some("x")` | not executed | Rows.GetAttrTextAsWrittenMisses | Rows.GetAttrTextAgrees |
