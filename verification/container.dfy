/**
 * The block container of a B000 file (`Container` in crates/parser/src/utilities/decode.rs).
 * A container starts with a directory of `block_count` 32-byte entries (compressed offset,
 * compressed size, uncompressed size, 8 reserved bytes) followed by the compressed region.
 * Blocks are decompressed and unshuffled on demand and cached.
 */
module BlockContainer {
  import opened Wrappers
  import opened Bytes
  import opened Shuffle
  import opened Arith

  const BLOCK_DIR_ENTRY_SIZE: nat := 32
  const CODEC_ZLIB: byte := 0
  const CODEC_ZSTD: byte := 1
  const ARRAY_FILTER_NONE: byte := 0
  const ARRAY_FILTER_BYTE_SHUFFLE: byte := 1

  datatype BlockDirEntry = BlockDirEntry(compOff: u64, compSize: u64, uncompBytes: u64)

  /**
   * The foreign decompressors, as partial functions on byte strings: zlib
   * (`decompress_to_vec_zlib`), zstd with a capacity (`zstd::bulk::decompress`)
   * and streaming zstd (`zstd::stream::decode_all`). `None` is a decoder error.
   */
  datatype Inflaters = Inflaters(
    zlib: seq<byte> -> Option<seq<byte>>,
    zstdBulk: (seq<byte>, nat) -> Option<seq<byte>>,
    zstdStream: seq<byte> -> Option<seq<byte>>)

  /** The 32 bytes a writer stores for one directory entry. */
  function EncodeDirEntry(e: BlockDirEntry): (r: seq<byte>)
    ensures |r| == BLOCK_DIR_ENTRY_SIZE
  {
    LeBytes(e.compOff, 8) + LeBytes(e.compSize, 8) + LeBytes(e.uncompBytes, 8) + LeBytes(0, 8)
  }

  /** Directory entry `i` of the container bytes `b`. */
  function DirEntryAt(b: seq<byte>, i: nat): (e: BlockDirEntry)
    requires BLOCK_DIR_ENTRY_SIZE * i + BLOCK_DIR_ENTRY_SIZE <= |b|
  {
    var w := b[BLOCK_DIR_ENTRY_SIZE * i..BLOCK_DIR_ENTRY_SIZE * i + BLOCK_DIR_ENTRY_SIZE];
    LeValueBound(w[0..8]);
    LeValueBound(w[8..16]);
    LeValueBound(w[16..24]);
    Pow256Widths();
    BlockDirEntry(LeValue(w[0..8]), LeValue(w[8..16]), LeValue(w[16..24]))
  }

  /** Reading an entry back from what a writer stored gives the entry (the reserved bytes are ignored). */
  lemma DirEntryRoundTrip(b: seq<byte>, i: nat, e: BlockDirEntry)
    requires BLOCK_DIR_ENTRY_SIZE * i + BLOCK_DIR_ENTRY_SIZE <= |b|
    requires b[BLOCK_DIR_ENTRY_SIZE * i..BLOCK_DIR_ENTRY_SIZE * i + BLOCK_DIR_ENTRY_SIZE] == EncodeDirEntry(e)
    ensures DirEntryAt(b, i) == e
  {
    var f0, f1, f2 := LeBytes(e.compOff, 8), LeBytes(e.compSize, 8), LeBytes(e.uncompBytes, 8);
    var w := EncodeDirEntry(e);
    assert w[0..8] == f0;
    assert w[8..16] == f1;
    assert w[16..24] == f2;
    Pow256Widths();
    LeValueOfBytes(e.compOff, 8);
    LeValueOfBytes(e.compSize, 8);
    LeValueOfBytes(e.uncompBytes, 8);
  }

  /** The directory loop of `Container::new`: entry `i` is read from bytes `32*i ..`. */
  method ReadBlockDir(b: seq<byte>, count: nat) returns (dir: seq<BlockDirEntry>)
    requires BLOCK_DIR_ENTRY_SIZE * count <= |b|
    ensures |dir| == count
    ensures forall i :: 0 <= i < count ==> dir[i] == DirEntryAt(b, i)
  {
    dir := [];
    for i := 0 to count
      invariant |dir| == i
      invariant forall j :: 0 <= j < i ==> dir[j] == DirEntryAt(b, j)
    {
      dir := dir + [DirEntryAt(b, i)];
    }
  }

  /** `u64::saturating_add`. */
  function SatAdd(a: nat, b: nat): (r: u64)
    ensures r == if a + b <= U64_MAX then a + b else U64_MAX
  {
    if a + b <= U64_MAX then a + b else U64_MAX
  }

  /** Whole elements of the uncompressed blocks `ds`, summed without a bound. */
  function ElemSum(ds: seq<BlockDirEntry>, elemSize: nat): nat
    requires elemSize > 0
  {
    if ds == [] then 0 else ElemSum(ds[..|ds| - 1], elemSize) + ds[|ds| - 1].uncompBytes / elemSize
  }

  /**
   * The shape `Container::new` gives `block_start_elems`: one more entry than blocks,
   * starting at 0, each the saturating sum of the previous and the block's whole elements.
   */
  ghost predicate StartsOk(starts: seq<u64>, dir: seq<BlockDirEntry>, elemSize: nat)
    requires elemSize > 0
  {
    |starts| == |dir| + 1 && starts[0] == 0 &&
    forall k :: 0 <= k < |dir| ==> starts[k + 1] == SatAdd(starts[k], dir[k].uncompBytes / elemSize)
  }

  /** The prefix-sum loop of `Container::new`. */
  method BlockStartElems(dir: seq<BlockDirEntry>, elemSize: nat) returns (starts: seq<u64>)
    requires elemSize > 0
    ensures StartsOk(starts, dir, elemSize)
  {
    starts := [0];
    var acc: u64 := 0;
    for k := 0 to |dir|
      invariant |starts| == k + 1 && starts[0] == 0 && starts[k] == acc
      invariant forall j :: 0 <= j < k ==> starts[j + 1] == SatAdd(starts[j], dir[j].uncompBytes / elemSize)
    {
      acc := SatAdd(acc, dir[k].uncompBytes / elemSize);
      starts := starts + [acc];
    }
  }

  /** Block starts never decrease. */
  lemma {:induction false} StartsMonotone(starts: seq<u64>, dir: seq<BlockDirEntry>, elemSize: nat, i: nat, j: nat)
    requires elemSize > 0 && StartsOk(starts, dir, elemSize) && i <= j <= |dir|
    ensures starts[i] <= starts[j]
  {
    if i < j {
      StartsMonotone(starts, dir, elemSize, i, j - 1);
      assert starts[j] == SatAdd(starts[j - 1], dir[j - 1].uncompBytes / elemSize);
    }
  }

  /** Start `k` is the number of elements in blocks before `k`, capped at `u64::MAX`. */
  lemma {:induction false} StartsAreCappedSums(starts: seq<u64>, dir: seq<BlockDirEntry>, elemSize: nat, k: nat)
    requires elemSize > 0 && StartsOk(starts, dir, elemSize) && k <= |dir|
    ensures starts[k] == if ElemSum(dir[..k], elemSize) <= U64_MAX then ElemSum(dir[..k], elemSize) else U64_MAX
  {
    if k > 0 {
      StartsAreCappedSums(starts, dir, elemSize, k - 1);
      assert dir[..k][..k - 1] == dir[..k - 1];
      assert starts[k] == SatAdd(starts[k - 1], dir[k - 1].uncompBytes / elemSize);
    }
  }

  /** `Vec::resize(n, 0)`: truncate, or pad with zero bytes. */
  function Resized(s: seq<byte>, n: nat): (r: seq<byte>)
    ensures |r| == n
    ensures forall i :: 0 <= i < n ==> r[i] == if i < |s| then s[i] else 0
  {
    if n <= |s| then s[..n] else s + seq(n - |s|, _ => 0)
  }

  /**
   * The bytes of `len` elements of `size` bytes, `local` elements in: each product and
   * the sum are checked against the usize range, in that order.
   */
  function ByteSpan(local: nat, len: nat, size: nat): (r: Result<(nat, nat)>)
    ensures r.Ok? <==> local * size + len * size < U64_LIMIT
    ensures r.Ok? ==> r.value == (local * size, local * size + len * size)
    ensures r.Ok? ==> r.value.0 <= r.value.1 && r.value.1 - r.value.0 == len * size
  {
    var off, bytes := local * size, len * size;
    MulLe(0, local, size);
    MulLe(0, len, size);
    if off >= U64_LIMIT then Err("Byte offset overflow")
    else if bytes >= U64_LIMIT then Err("Byte length overflow")
    else if off + bytes >= U64_LIMIT then Err("Slice range overflow")
    else Ok((off, off + bytes))
  }

  class Container {
    const compressedRegion: seq<byte>
    const dir: seq<BlockDirEntry>
    const blockStartElems: seq<u64>
    const codec: byte
    const compressionLevel: byte
    const elemSize: nat
    const arrayFilter: byte
    const inflaters: Inflaters
    var cache: seq<Option<seq<byte>>>
    var scratch: seq<byte>

    /** Every cached block is what decoding that block yields. */
    ghost predicate Valid()
      reads this
    {
      elemSize > 0 && |cache| == |dir| && StartsOk(blockStartElems, dir, elemSize) &&
      forall id :: 0 <= id < |cache| && cache[id].Some? ==> BlockOf(id) == Ok(cache[id].value)
    }

    /** `Container::empty`: no blocks, one start at 0, element size 1. */
    constructor Empty(inflaters: Inflaters)
      ensures Valid()
      ensures compressedRegion == [] && dir == [] && blockStartElems == [0] && cache == []
      ensures codec == CODEC_ZLIB && compressionLevel == 0 && elemSize == 1
      ensures arrayFilter == ARRAY_FILTER_NONE && scratch == []
    {
      compressedRegion := [];
      dir := [];
      blockStartElems := [0];
      codec := CODEC_ZLIB;
      compressionLevel := 0;
      elemSize := 1;
      arrayFilter := ARRAY_FILTER_NONE;
      this.inflaters := inflaters;
      cache := [];
      scratch := [];
    }

    /** The final struct literal of `Container::new`: every block uncached. */
    constructor FromParts(compressedRegion: seq<byte>, dir: seq<BlockDirEntry>, blockStartElems: seq<u64>,
                          codec: byte, compressionLevel: byte, elemSize: nat, arrayFilter: byte,
                          inflaters: Inflaters)
      requires elemSize > 0 && StartsOk(blockStartElems, dir, elemSize)
      ensures Valid()
      ensures this.compressedRegion == compressedRegion && this.dir == dir
      ensures this.blockStartElems == blockStartElems && this.codec == codec
      ensures this.compressionLevel == compressionLevel && this.elemSize == elemSize
      ensures this.arrayFilter == arrayFilter
      ensures cache == seq(|dir|, _ => None) && scratch == []
    {
      this.compressedRegion := compressedRegion;
      this.dir := dir;
      this.blockStartElems := blockStartElems;
      this.codec := codec;
      this.compressionLevel := compressionLevel;
      this.elemSize := elemSize;
      this.arrayFilter := arrayFilter;
      this.inflaters := inflaters;
      cache := seq(|dir|, _ => None);
      scratch := [];
    }

    /** The byte-shuffle filter applies only to elements wider than one byte. */
    predicate ShuffleOn() {
      arrayFilter == ARRAY_FILTER_BYTE_SHUFFLE && elemSize > 1
    }

    /** Blocks that need decompression or unshuffling are produced into owned, cached buffers. */
    predicate NeedsOwned() {
      compressionLevel != 0 || ShuffleOn()
    }

    /** The stored bytes of block `id`: `[comp_off, comp_off + comp_size)` of the compressed region. */
    function CompBytes(id: nat): (r: Result<seq<byte>>)
      requires id < |dir|
      ensures r.Ok? <==> dir[id].compOff + dir[id].compSize < U64_LIMIT &&
                         dir[id].compOff + dir[id].compSize <= |compressedRegion|
      ensures r.Ok? ==> r.value == compressedRegion[dir[id].compOff..dir[id].compOff + dir[id].compSize]
    {
      var e := dir[id];
      if e.compOff + e.compSize >= U64_LIMIT then Err("Block range overflow")
      else if e.compOff + e.compSize > |compressedRegion| then Err("EOF")
      else Ok(compressedRegion[e.compOff..e.compOff + e.compSize])
    }

    /**
     * Decompression of one block's stored bytes. A non-zero recorded
     * uncompressed size must match the produced length.
     */
    function Inflate(comp: seq<byte>, e: BlockDirEntry): (r: Result<seq<byte>>)
      ensures r.Ok? && e.uncompBytes != 0 ==> |r.value| == e.uncompBytes
      ensures compressionLevel == 0 ==> r == if e.uncompBytes != 0 && |comp| != e.uncompBytes
                                             then Err("Uncompressed block size mismatch") else Ok(comp)
      ensures compressionLevel != 0 && codec != CODEC_ZLIB && codec != CODEC_ZSTD ==>
                r == Err("Unsupported container codec")
    {
      if compressionLevel == 0 then
        if e.uncompBytes != 0 && |comp| != e.uncompBytes then Err("Uncompressed block size mismatch")
        else Ok(comp)
      else
        var inflated :-
          if codec == CODEC_ZLIB then
            (match inflaters.zlib(comp)
             case Some(v) => Ok(v)
             case None => Err("Zlib decompression failed"))
          else if codec == CODEC_ZSTD then
            (match inflaters.zstdBulk(comp, e.uncompBytes)
             case Some(v) => Ok(v)
             case None => Err("Zstd decompression failed"))
          else Err("Unsupported container codec");
        if e.uncompBytes != 0 && |inflated| != e.uncompBytes then Err("Inflated block size mismatch")
        else Ok(inflated)
    }

    /** The array filter applied to a decompressed block. */
    function Unfilter(raw: seq<byte>): (r: Result<seq<byte>>)
      ensures r.Ok? ==> |r.value| == |raw|
      ensures !ShuffleOn() || raw == [] ==> r == Ok(raw)
    {
      if ShuffleOn() && raw != [] then
        if |raw| % elemSize != 0 then Err("unshuffle: invalid byte length")
        else Ok(Unshuffled(raw, elemSize, |raw| / elemSize))
      else Ok(raw)
    }

    /** The decompressed, not yet unshuffled, bytes of an owned block. */
    function RawBlock(id: nat): (r: Result<seq<byte>>)
      requires id < |dir|
      ensures r.Ok? ==> CompBytes(id).Ok? && Inflate(CompBytes(id).value, dir[id]) == r
    {
      var comp :- CompBytes(id);
      Inflate(comp, dir[id])
    }

    /** What `block_bytes(id)` yields, independent of what is cached. */
    function BlockOf(id: nat): (r: Result<seq<byte>>)
      ensures id >= |dir| ==> r == Err("Invalid block id")
      ensures id < |dir| && CompBytes(id).Err? ==> r == CompBytes(id)
      ensures id < |dir| && !NeedsOwned() ==> r == CompBytes(id)
    {
      if id >= |dir| then Err("Invalid block id")
      else
        var comp :- CompBytes(id);
        if !NeedsOwned() then Ok(comp)
        else
          var raw :- Inflate(comp, dir[id]);
          Unfilter(raw)
    }

    /** An owned block has the recorded uncompressed size whenever one is recorded. */
    lemma BlockOfSize(id: nat)
      requires id < |dir| && NeedsOwned() && BlockOf(id).Ok? && dir[id].uncompBytes != 0
      ensures |BlockOf(id).value| == dir[id].uncompBytes
    {
    }

    /** With the shuffle filter on, shuffling the block again gives back the decompressed bytes. */
    lemma BlockOfUnshuffles(id: nat)
      requires id < |dir| && ShuffleOn() && BlockOf(id).Ok? && RawBlock(id).Ok? && RawBlock(id).value != []
      ensures |RawBlock(id).value| % elemSize == 0
      ensures Shuffled(BlockOf(id).value, elemSize, |RawBlock(id).value| / elemSize) == RawBlock(id).value
    {
      var raw := RawBlock(id).value;
      var n := |raw| / elemSize;
      assert elemSize * n == |raw|;
      ShuffleUnshuffle(raw, elemSize, n);
    }

    /**
     * `block_bytes`: the bytes of block `id`. A block that needs decompression or
     * unshuffling is computed once, stored in `cache[id]`, and served from there on
     * every later call; only `cache[id]` and `scratch` ever change.
     */
    method BlockBytes(blockId: u32) returns (r: Result<seq<byte>>)
      requires Valid()
      modifies this
      ensures Valid()
      ensures r == BlockOf(blockId)
      ensures blockId < |dir| && old(cache[blockId]).Some? ==> cache == old(cache) && scratch == old(scratch)
      ensures r.Err? || !NeedsOwned() ==> cache == old(cache)
      ensures r.Ok? && NeedsOwned() ==> cache == old(cache)[blockId := Some(r.value)]
      ensures scratch != old(scratch) ==> blockId < |dir| && old(cache[blockId]).None? && ShuffleOn()
      ensures r.Ok? && scratch != old(scratch) ==> scratch == RawBlock(blockId).value
    {
      var id := blockId;
      if id >= |dir| {
        return Err("Invalid block id");
      }
      var e := dir[id];
      var comp :- CompBytes(id);
      if !NeedsOwned() {
        return Ok(comp);
      }
      if cache[id].None? {
        var block :- Inflate(comp, e);
        if ShuffleOn() && block != [] {
          scratch := Resized(scratch, |block|);
          var s := scratch;
          var dst := new byte[|block|](i requires 0 <= i < |block| => s[i]);
          var outcome := UnshuffleInto(dst, block, elemSize);
          if outcome.Fail? {
            return Err(outcome.msg);
          }
          block, scratch := dst[..], block;
        }
        cache := cache[id := Some(block)];
      }
      return Ok(cache[id].value);
    }

    /**
     * The byte range `slice_elems` takes from block `id`: elements are counted from the
     * block's start element, and every product and sum must fit in a usize.
     */
    function LocalByteRange(id: nat, globalElemOff: u64, elemLen: u32): (r: Result<(nat, nat)>)
      requires elemSize > 0 && |blockStartElems| == |dir| + 1
      ensures r.Ok? <==> id + 1 < |blockStartElems| && globalElemOff >= blockStartElems[id] &&
                         (globalElemOff - blockStartElems[id]) * elemSize + elemLen * elemSize < U64_LIMIT
      ensures r.Ok? ==> r.value == ((globalElemOff - blockStartElems[id]) * elemSize,
                                    (globalElemOff - blockStartElems[id]) * elemSize + elemLen * elemSize)
      ensures r.Ok? ==> r.value.0 <= r.value.1 && r.value.1 - r.value.0 == elemLen * elemSize
      ensures id + 1 >= |blockStartElems| ==> r == Err("Invalid block id")
      ensures id + 1 < |blockStartElems| && globalElemOff < blockStartElems[id] ==>
                r == Err("Element offset before block start")
    {
      if id + 1 >= |blockStartElems| then Err("Invalid block id")
      else if globalElemOff < blockStartElems[id] then Err("Element offset before block start")
      else
        ByteSpan(globalElemOff - blockStartElems[id], elemLen, elemSize)
    }

    /**
     * `slice_elems`: `elem_len` elements of block `id`, starting at global element
     * `global_elem_off`, as the bytes `[(off - start)*elem_size, +elem_len*elem_size)` of the
     * block; range errors come first, then the block's own errors, then "EOF".
     */
    method SliceElems(blockId: u32, globalElemOff: u64, elemLen: u32) returns (r: Result<seq<byte>>)
      requires Valid()
      modifies this
      ensures Valid()
      ensures LocalByteRange(blockId, globalElemOff, elemLen).Err? ==>
                r == Err(LocalByteRange(blockId, globalElemOff, elemLen).msg)
      ensures LocalByteRange(blockId, globalElemOff, elemLen).Ok? && BlockOf(blockId).Err? ==>
                r == BlockOf(blockId)
      ensures r.Ok? <==> LocalByteRange(blockId, globalElemOff, elemLen).Ok? && BlockOf(blockId).Ok? &&
                         LocalByteRange(blockId, globalElemOff, elemLen).value.1 <= |BlockOf(blockId).value|
      ensures r.Ok? ==> var (s, e) := LocalByteRange(blockId, globalElemOff, elemLen).value;
                        r.value == BlockOf(blockId).value[s..e]
      ensures r.Ok? ==> |r.value| == elemLen * elemSize
    {
      var range :- LocalByteRange(blockId, globalElemOff, elemLen);
      var block :- BlockBytes(blockId);
      if range.1 > |block| {
        return Err("EOF");
      }
      return Ok(block[range.0..range.1]);
    }
  }

  /**
   * `Container::new`: the empty container when there is nothing to read; otherwise
   * the directory and prefix sums of a container of `size` bytes at `off` in `file`.
   */
  method NewContainer(file: seq<byte>, off: nat, size: nat, blockCount: u32, codec: byte,
                      compressionLevel: byte, elemSize: nat, arrayFilter: byte, inflaters: Inflaters)
    returns (r: Result<Container>)
    ensures r.Ok? ==> fresh(r.value) && r.value.Valid()
    ensures size == 0 || blockCount == 0 ==> r.Ok? && r.value.dir == [] && r.value.blockStartElems == [0]
    ensures size != 0 && blockCount != 0 && elemSize == 0 ==> r == Err("Invalid elem_size")
    ensures size != 0 && blockCount != 0 && elemSize != 0 ==>
              (r.Ok? <==> ReadSlice(file, off, size).Ok? && BLOCK_DIR_ENTRY_SIZE * blockCount <= size)
    ensures size != 0 && blockCount != 0 && r.Ok? ==>
              var bytes := file[off..off + size];
              && |r.value.dir| == blockCount
              && (forall i :: 0 <= i < blockCount ==> r.value.dir[i] == DirEntryAt(bytes, i))
              && r.value.compressedRegion == bytes[BLOCK_DIR_ENTRY_SIZE * blockCount..]
              && r.value.elemSize == elemSize && r.value.codec == codec
              && r.value.compressionLevel == compressionLevel && r.value.arrayFilter == arrayFilter
  {
    if size == 0 || blockCount == 0 {
      var c := new Container.Empty(inflaters);
      return Ok(c);
    }
    if elemSize == 0 {
      return Err("Invalid elem_size");
    }
    var bytes :- ReadSlice(file, off, size);
    var dirBytes := BLOCK_DIR_ENTRY_SIZE * blockCount;
    if dirBytes > |bytes| {
      return Err("Container too small for block directory");
    }
    var dir := ReadBlockDir(bytes, blockCount);
    var starts := BlockStartElems(dir, elemSize);
    var c := new Container.FromParts(bytes[dirBytes..], dir, starts, codec, compressionLevel,
                                     elemSize, arrayFilter, inflaters);
    return Ok(c);
  }
}
