/**
 * The reader of crates/parser/src/b64/decode2.rs: ranges of the file (`slice_at`),
 * the chromatogram index, the block container (`ContainerReader`) with its cache,
 * the first element of each block, and the decoding of one item's array.
 */
module BlockReader {
  import opened Wrappers
  import opened Bytes
  import opened Text
  import opened Arith
  import opened Shuffle
  import opened HeaderLayout
  import opened BlockContainer
  import Cursor

  /** The message `slice_at` gives for a range past the end of the file. */
  function OutOfRangeMessage(field: string, off: nat, len: nat, fileLen: nat): string
  {
    field + ": out of range (off=" + Decimal(off) + ", len=" + Decimal(len) + ", file_len=" + Decimal(fileLen) + ")"
  }

  /**
   * `slice_at`: the `len` bytes at `off`, or an error naming the field when the end
   * overflows a usize or lies past the end of `bytes`.
   */
  function SliceAt(bytes: seq<byte>, off: u64, len: u64, field: string): (r: Result<seq<byte>>)
    ensures r.Ok? <==> off + len < U64_LIMIT && off + len <= |bytes|
    ensures r.Ok? ==> r.value == bytes[off..off + len]
    ensures off + len >= U64_LIMIT ==> r == Err(field + ": range overflow")
    ensures off + len < U64_LIMIT && off + len > |bytes| ==> r == Err(OutOfRangeMessage(field, off, len, |bytes|))
  {
    if off + len >= U64_LIMIT then Err(field + ": range overflow")
    else if off + len > |bytes| then Err(OutOfRangeMessage(field, off, len, |bytes|))
    else Ok(bytes[off..off + len])
  }

  /** A range laid out between a prefix and a suffix is read back exactly. */
  lemma SliceAtOfParts(pre: seq<byte>, mid: seq<byte>, post: seq<byte>, field: string)
    requires |pre + mid + post| < U64_LIMIT
    ensures SliceAt(pre + mid + post, |pre|, |mid|, field) == Ok(mid)
  {
    assert (pre + mid + post)[|pre|..|pre| + |mid|] == mid;
  }

  /** Six consecutive fields of 8, 8, 4, 4, 4 and 4 bytes at `p` make up the 32 bytes there. */
  lemma SixFieldsAt(b: seq<byte>, p: nat, f0: seq<byte>, f1: seq<byte>, f2: seq<byte>, f3: seq<byte>,
                    f4: seq<byte>, f5: seq<byte>)
    requires p + INDEX_ENTRY_SIZE <= |b|
    requires f0 == b[p..p + 8] && f1 == b[p + 8..p + 16] && f2 == b[p + 16..p + 20]
    requires f3 == b[p + 20..p + 24] && f4 == b[p + 24..p + 28] && f5 == b[p + 28..p + 32]
    ensures f0 + f1 + f2 + f3 + f4 + f5 == b[p..p + INDEX_ENTRY_SIZE]
  {
    assert b[p..p + 16] == b[p..p + 8] + b[p + 8..p + 16];
    assert b[p..p + 20] == b[p..p + 16] + b[p + 16..p + 20];
    assert b[p..p + 24] == b[p..p + 20] + b[p + 20..p + 24];
    assert b[p..p + 28] == b[p..p + 24] + b[p + 24..p + 28];
    assert b[p..p + 32] == b[p..p + 28] + b[p + 28..p + 32];
  }

  /** A slice of a slice is the slice of the whole at the summed offset. */
  lemma SliceOfSlice(u: seq<byte>, a: nat, n: nat, c: nat, k: nat)
    requires a + n <= |u| && c + k <= n
    ensures u[a..a + n][c..c + k] == u[a + c..a + c + k]
  {
    var v, w := u[a..a + n][c..c + k], u[a + c..a + c + k];
    assert forall t :: 0 <= t < k ==> v[t] == w[t];
  }

  /** The six cursor reads of one chromatogram index entry at `pos`; none of them can fail. */
  method ReadChromEntry(raw: seq<byte>, pos: nat) returns (e: IndexEntry)
    requires pos + INDEX_ENTRY_SIZE <= |raw| < U64_LIMIT
    ensures EncodeIndexEntry(e) == raw[pos..pos + INDEX_ENTRY_SIZE]
  {
    var timeOff, p1 := Cursor.ReadU64LeAt(raw, pos, "time_element_off");
    var intenOff, p2 := Cursor.ReadU64LeAt(raw, p1, "inten_element_off");
    var timeLen, p3 := Cursor.ReadU32LeAt(raw, p2, "time_element_len");
    var intenLen, p4 := Cursor.ReadU32LeAt(raw, p3, "inten_element_len");
    var timeBlock, p5 := Cursor.ReadU32LeAt(raw, p4, "time_block_id");
    var intenBlock, p6 := Cursor.ReadU32LeAt(raw, p5, "inten_block_id");
    e := IndexEntry(timeOff.value, intenOff.value, timeLen.value, intenLen.value,
                    timeBlock.value, intenBlock.value);
    SixFieldsAt(raw, pos, LeBytes(e.xOff, 8), LeBytes(e.yOff, 8), LeBytes(e.xLen, 4), LeBytes(e.yLen, 4),
                LeBytes(e.xBlock, 4), LeBytes(e.yBlock, 4));
  }

  /**
   * `parse_chrom_index`: `chrom_count` 32-byte entries at `off_chrom_index`. A
   * chromatogram's time array is its x array and its intensity array its y array.
   * The size product and the field reads cannot fail once the slice is in range.
   */
  method ParseChromIndex(bytes: seq<byte>, chromCount: u32, offChromIndex: u64) returns (r: Result<seq<IndexEntry>>)
    ensures r.Ok? <==> SliceAt(bytes, offChromIndex, INDEX_ENTRY_SIZE * chromCount, "chrom index").Ok?
    ensures r.Err? ==> r.msg == SliceAt(bytes, offChromIndex, INDEX_ENTRY_SIZE * chromCount, "chrom index").msg
    ensures r.Ok? ==> |r.value| == chromCount
    ensures r.Ok? ==> forall i :: 0 <= i < chromCount ==>
              EncodeIndexEntry(r.value[i]) ==
                bytes[offChromIndex + INDEX_ENTRY_SIZE * i..offChromIndex + INDEX_ENTRY_SIZE * i + INDEX_ENTRY_SIZE]
  {
    var need: u64 := INDEX_ENTRY_SIZE * chromCount;
    var raw :- SliceAt(bytes, offChromIndex, need, "chrom index");
    var pos := 0;
    var out: seq<IndexEntry> := [];
    for k := 0 to chromCount
      invariant pos == INDEX_ENTRY_SIZE * k && |out| == k
      invariant forall i :: 0 <= i < k ==>
                  EncodeIndexEntry(out[i]) == raw[INDEX_ENTRY_SIZE * i..INDEX_ENTRY_SIZE * i + INDEX_ENTRY_SIZE]
    {
      var e := ReadChromEntry(raw, pos);
      out := out + [e];
      pos := pos + INDEX_ENTRY_SIZE;
    }
    forall i | 0 <= i < chromCount
      ensures EncodeIndexEntry(out[i]) ==
                bytes[offChromIndex + INDEX_ENTRY_SIZE * i..offChromIndex + INDEX_ENTRY_SIZE * i + INDEX_ENTRY_SIZE]
    {
      SliceOfSlice(bytes, offChromIndex, need, INDEX_ENTRY_SIZE * i, INDEX_ENTRY_SIZE);
    }
    return Ok(out);
  }

  /** The message `ensure_block` gives when a block decodes to the wrong size. */
  function BadSizeMessage(id: nat, got: nat, expected: nat): string
  {
    "container: bad block size (block_id=" + Decimal(id) + ", got=" + Decimal(got) + ", expected=" + Decimal(expected) + ")"
  }

  /**
   * `ContainerReader`: a container inside `bytes`, whose compressed region starts
   * right after the block directory. Blocks are produced on demand (a copy at
   * compression level 0, else the foreign `decompress_zstd`), unshuffled through the
   * `scratch` buffer when the byte-shuffle filter is on, and cached.
   */
  class ContainerReader {
    const bytes: seq<byte>
    const elemSize: nat
    const compressionLevel: byte
    const arrayFilter: byte
    const dir: seq<BlockDirEntry>
    const compBufStart: nat
    const zstd: seq<byte> -> Result<seq<byte>>
    var cache: seq<Option<seq<byte>>>
    var scratch: seq<byte>

    /** The byte-shuffle filter applies only to elements wider than one byte. */
    predicate ShuffleOn()
    {
      arrayFilter == ARRAY_FILTER_BYTE_SHUFFLE && elemSize > 1
    }

    /** The stored bytes of block `id`: `comp_size` bytes at `comp_buf_start + comp_off`. */
    function CompRange(id: nat): (r: Result<(nat, nat)>)
      requires id < |dir|
      ensures r.Ok? <==> compBufStart + dir[id].compOff + dir[id].compSize < U64_LIMIT &&
                         compBufStart + dir[id].compOff + dir[id].compSize <= |bytes|
      ensures r.Ok? ==> r.value == (compBufStart + dir[id].compOff, compBufStart + dir[id].compOff + dir[id].compSize)
      ensures compBufStart + dir[id].compOff >= U64_LIMIT ==> r == Err("comp start overflow")
      ensures compBufStart + dir[id].compOff < U64_LIMIT <= compBufStart + dir[id].compOff + dir[id].compSize ==>
                r == Err("comp end overflow")
      ensures compBufStart + dir[id].compOff + dir[id].compSize < U64_LIMIT &&
              compBufStart + dir[id].compOff + dir[id].compSize > |bytes| ==>
                r == Err("container: block range out of bounds")
    {
      var start := compBufStart + dir[id].compOff;
      if start >= U64_LIMIT then Err("comp start overflow")
      else if start + dir[id].compSize >= U64_LIMIT then Err("comp end overflow")
      else if start + dir[id].compSize > |bytes| then Err("container: block range out of bounds")
      else Ok((start, start + dir[id].compSize))
    }

    /**
     * The bytes `ensure_block` produces for block `id` before any filter: the stored
     * bytes at level 0, their zstd decoding otherwise; exactly `uncomp_bytes` of them.
     */
    function Produced(id: nat): (r: Result<seq<byte>>)
      requires id < |dir|
      ensures r.Ok? ==> CompRange(id).Ok? && |r.value| == dir[id].uncompBytes
      ensures CompRange(id).Err? ==> r == Err(CompRange(id).msg)
      ensures compressionLevel == 0 && CompRange(id).Ok? ==>
                var (s, e) := CompRange(id).value;
                r == if e - s == dir[id].uncompBytes then Ok(bytes[s..e])
                     else Err(BadSizeMessage(id, e - s, dir[id].uncompBytes))
      ensures compressionLevel != 0 && CompRange(id).Ok? ==>
                var (s, e) := CompRange(id).value;
                (r.Ok? <==> zstd(bytes[s..e]).Ok? && |zstd(bytes[s..e]).value| == dir[id].uncompBytes) &&
                (r.Ok? ==> r.value == zstd(bytes[s..e]).value)
    {
      var range :- CompRange(id);
      var comp := bytes[range.0..range.1];
      var out :- if compressionLevel == 0 then Ok(comp) else zstd(comp);
      if |out| != dir[id].uncompBytes then Err(BadSizeMessage(id, |out|, dir[id].uncompBytes))
      else Ok(out)
    }

    /** How many leading bytes of an `n`-byte block the filter rewrites: its whole elements. */
    function WholeLen(n: nat): (m: nat)
      ensures m <= n
      ensures !ShuffleOn() ==> m == n
      ensures ShuffleOn() ==> m % elemSize == 0 && n - m < elemSize
    {
      if ShuffleOn() then WholeElems(elemSize, n); DivModOf(elemSize * (n / elemSize), elemSize, n / elemSize, 0);
        elemSize * (n / elemSize)
      else n
    }

    /** The element-wise layout of the whole elements of a produced block. */
    function Unfiltered(raw: seq<byte>): (r: seq<byte>)
      ensures |r| == WholeLen(|raw|)
      ensures !ShuffleOn() ==> r == raw
      ensures ShuffleOn() ==> Shuffled(r, elemSize, |raw| / elemSize) == raw[..WholeLen(|raw|)]
    {
      if ShuffleOn() then
        var n := |raw| / elemSize;
        ShuffleUnshuffle(raw[..elemSize * n], elemSize, n);
        Unshuffled(raw[..elemSize * n], elemSize, n)
      else raw
    }

    /**
     * What `ensure_block` stores for a produced block: with the filter on, the
     * scratch buffer resized to the block, its whole elements unshuffled from the
     * block and its trailing bytes as the scratch buffer held them.
     */
    function Filled(raw: seq<byte>, oldScratch: seq<byte>): (r: seq<byte>)
      ensures |r| == |raw|
      ensures r[..WholeLen(|raw|)] == Unfiltered(raw)
      ensures ShuffleOn() ==> r[WholeLen(|raw|)..] == Resized(oldScratch, |raw|)[WholeLen(|raw|)..]
    {
      if ShuffleOn() then
        var rest := Resized(oldScratch, |raw|)[WholeLen(|raw|)..];
        assert (Unfiltered(raw) + rest)[..WholeLen(|raw|)] == Unfiltered(raw);
        Unfiltered(raw) + rest
      else raw
    }

    /**
     * Every cached block was produced from its stored bytes and holds the
     * element-wise layout of its whole elements.
     */
    ghost predicate Valid()
      reads this
    {
      |cache| == |dir| &&
      forall id :: 0 <= id < |cache| && cache[id].Some? ==>
        Produced(id).Ok? && |cache[id].value| == |Produced(id).value| &&
        cache[id].value[..WholeLen(|Produced(id).value|)] == Unfiltered(Produced(id).value)
    }

    /** The struct literal `ContainerReader::new` ends with: every block uncached. */
    constructor (bytes: seq<byte>, elemSize: nat, compressionLevel: byte, arrayFilter: byte,
                 dir: seq<BlockDirEntry>, compBufStart: nat, zstd: seq<byte> -> Result<seq<byte>>)
      ensures Valid()
      ensures this.bytes == bytes && this.elemSize == elemSize && this.compressionLevel == compressionLevel
      ensures this.arrayFilter == arrayFilter && this.dir == dir && this.compBufStart == compBufStart
      ensures this.zstd == zstd
      ensures cache == seq(|dir|, _ => None) && scratch == []
    {
      this.bytes := bytes;
      this.elemSize := elemSize;
      this.compressionLevel := compressionLevel;
      this.arrayFilter := arrayFilter;
      this.dir := dir;
      this.compBufStart := compBufStart;
      this.zstd := zstd;
      cache := seq(|dir|, _ => None);
      scratch := [];
    }

    /** The first half of `ensure_block`: read the stored bytes, decode them, check the size. */
    method Produce(i: nat) returns (r: Result<seq<byte>>)
      requires i < |dir|
      ensures r == Produced(i)
    {
      var range :- CompRange(i);
      var comp := bytes[range.0..range.1];
      var out;
      if compressionLevel == 0 {
        out := comp;
      } else {
        out :- zstd(comp);
      }
      if |out| != dir[i].uncompBytes {
        return Err(BadSizeMessage(i, |out|, dir[i].uncompBytes));
      }
      return Ok(out);
    }

    /**
     * The filter step of `ensure_block`: resize the scratch buffer to the block,
     * unshuffle the block's whole elements into it and take a copy of it.
     */
    method UnshuffleThroughScratch(raw: seq<byte>) returns (out: seq<byte>)
      requires ShuffleOn()
      modifies this
      ensures out == scratch == Filled(raw, old(scratch))
      ensures cache == old(cache)
    {
      var resized := Resized(scratch, |raw|);
      var buf := new byte[|raw|](j requires 0 <= j < |raw| => resized[j]);
      ByteUnshuffleInto(raw, buf, elemSize);
      var m := elemSize * (|raw| / elemSize);
      assert buf[..] == buf[..m] + buf[m..];
      scratch := buf[..];
      out := scratch;
    }

    /**
     * `ensure_block`: fills `cache[block_id]` unless it is already filled, in which
     * case nothing changes. Only that cache slot and the scratch buffer are written,
     * and only when the call succeeds.
     */
    method EnsureBlock(blockId: u32) returns (r: Result<()>)
      requires Valid()
      modifies this
      ensures Valid()
      ensures r.Ok? <==> blockId < |dir| && Produced(blockId).Ok?
      ensures blockId >= |old(cache)| ==> r == Err("block_id out of range: " + Decimal(blockId))
      ensures blockId < |old(cache)| && old(cache)[blockId].Some? ==> cache == old(cache) && scratch == old(scratch)
      ensures r.Err? ==> cache == old(cache) && scratch == old(scratch)
      ensures blockId < |old(cache)| && old(cache)[blockId].None? && r.Err? ==> r.msg == Produced(blockId).msg
      ensures blockId < |old(cache)| && old(cache)[blockId].None? && r.Ok? ==>
                && cache == old(cache)[blockId := Some(Filled(Produced(blockId).value, old(scratch)))]
                && scratch == if ShuffleOn() then Filled(Produced(blockId).value, old(scratch)) else old(scratch)
    {
      var i := blockId as nat;
      if i >= |cache| {
        return Err("block_id out of range: " + Decimal(blockId));
      }
      if cache[i].Some? {
        return Ok(());
      }
      var out :- Produce(i);
      if ShuffleOn() {
        out := UnshuffleThroughScratch(out);
      }
      cache := cache[i := Some(out)];
      return Ok(());
    }

    /**
     * `block_bytes`: the cached bytes of block `block_id`, produced first if needed.
     * Every successful call yields the element-wise layout of the block's whole
     * elements, whatever was cached or held in scratch before.
     */
    method BlockBytes(blockId: u32) returns (r: Result<seq<byte>>)
      requires Valid()
      modifies this
      ensures Valid()
      ensures r.Ok? <==> blockId < |dir| && Produced(blockId).Ok?
      ensures blockId >= |old(cache)| ==> r == Err("block_id out of range: " + Decimal(blockId))
      ensures r.Err? ==> cache == old(cache) && scratch == old(scratch)
      ensures blockId < |old(cache)| && old(cache)[blockId].None? && r.Err? ==> r.msg == Produced(blockId).msg
      ensures blockId < |old(cache)| && old(cache)[blockId].Some? ==>
                r == Ok(old(cache)[blockId].value) && cache == old(cache) && scratch == old(scratch)
      ensures r.Ok? ==> cache == old(cache)[blockId := Some(r.value)]
      ensures r.Ok? ==> |r.value| == dir[blockId].uncompBytes &&
                        r.value[..WholeLen(|r.value|)] == Unfiltered(Produced(blockId).value)
    {
      var ok :- EnsureBlock(blockId);
      return Ok(cache[blockId].value);
    }
  }

  /**
   * `ContainerReader::new`: a container of `block_count` blocks at the start of
   * `bytes`. The directory entries are read as in `Container::new` (the cursor
   * reads inside the directory cannot fail) and the compressed region starts
   * right after the directory.
   */
  method NewContainerReader(bytes: seq<byte>, blockCount: u32, elemSize: nat, compressionLevel: byte,
                            arrayFilter: byte, zstd: seq<byte> -> Result<seq<byte>>)
    returns (r: Result<ContainerReader>)
    ensures r.Ok? <==> BLOCK_DIR_ENTRY_SIZE * blockCount <= |bytes|
    ensures r.Err? ==> r.msg == "container too small for directory"
    ensures r.Ok? ==> fresh(r.value) && r.value.Valid()
    ensures r.Ok? ==>
              && |r.value.dir| == blockCount
              && (forall i :: 0 <= i < blockCount ==> r.value.dir[i] == DirEntryAt(bytes, i))
              && r.value.compBufStart == BLOCK_DIR_ENTRY_SIZE * blockCount
              && r.value.bytes == bytes && r.value.elemSize == elemSize
              && r.value.compressionLevel == compressionLevel && r.value.arrayFilter == arrayFilter
              && r.value.cache == seq(blockCount, _ => None) && r.value.scratch == []
  {
    var dirBytes := BLOCK_DIR_ENTRY_SIZE * blockCount;
    if |bytes| < dirBytes {
      return Err("container too small for directory");
    }
    var dir := ReadBlockDir(bytes, blockCount);
    var c := new ContainerReader(bytes, elemSize, compressionLevel, arrayFilter, dir, dirBytes, zstd);
    return Ok(c);
  }

  /** One array reference of an index entry: its first global element and its block. */
  datatype BlockRef = BlockRef(elemOff: u64, blockId: u32)

  /** The x (m/z or time) references of an index. */
  function XRefs(index: seq<IndexEntry>): (r: seq<BlockRef>)
    ensures |r| == |index|
    ensures forall i :: 0 <= i < |index| ==> r[i] == BlockRef(index[i].xOff, index[i].xBlock)
  {
    seq(|index|, i requires 0 <= i < |index| => BlockRef(index[i].xOff, index[i].xBlock))
  }

  /** The y (intensity) references of an index. */
  function YRefs(index: seq<IndexEntry>): (r: seq<BlockRef>)
    ensures |r| == |index|
    ensures forall i :: 0 <= i < |index| ==> r[i] == BlockRef(index[i].yOff, index[i].yBlock)
  {
    seq(|index|, i requires 0 <= i < |index| => BlockRef(index[i].yOff, index[i].yBlock))
  }

  /** The smallest element offset among the references into block `b`, or `u64::MAX`. */
  function MinStart(refs: seq<BlockRef>, b: nat): u64
  {
    if refs == [] then U64_MAX
    else
      var m := MinStart(refs[..|refs| - 1], b);
      var last := refs[|refs| - 1];
      if last.blockId == b && last.elemOff < m then last.elemOff else m
  }

  /**
   * `MinStart` is the least offset of the references into the block: no such
   * reference starts earlier, and unless it is `u64::MAX` some reference starts there.
   */
  lemma {:induction false} MinStartIsLeast(refs: seq<BlockRef>, b: nat)
    ensures forall i :: 0 <= i < |refs| && refs[i].blockId == b ==> MinStart(refs, b) <= refs[i].elemOff
    ensures MinStart(refs, b) == U64_MAX ||
            exists i :: 0 <= i < |refs| && refs[i].blockId == b && refs[i].elemOff == MinStart(refs, b)
  {
    if refs != [] {
      var init := refs[..|refs| - 1];
      MinStartIsLeast(init, b);
      forall i | 0 <= i < |refs| - 1
        ensures refs[i] == init[i]
      {
      }
      if MinStart(refs, b) != U64_MAX && MinStart(refs, b) == MinStart(init, b) {
        var i :| 0 <= i < |init| && init[i].blockId == b && init[i].elemOff == MinStart(init, b);
        assert refs[i] == init[i];
      }
    }
  }

  /** A block no reference points into keeps the unknown start `u64::MAX`. */
  lemma NoRefsUnknownStart(refs: seq<BlockRef>, b: nat)
    requires forall i :: 0 <= i < |refs| ==> refs[i].blockId != b
    ensures MinStart(refs, b) == U64_MAX
  {
    MinStartIsLeast(refs, b);
  }

  /**
   * The loop shared by the `compute_block_starts_*` functions: start every block at
   * `u64::MAX` and lower it to each referencing offset; a block id past
   * `block_count` ends the loop with an error naming the field.
   */
  method ComputeBlockStarts(refs: seq<BlockRef>, blockCount: u32, field: string) returns (r: Result<seq<u64>>)
    ensures r.Ok? <==> forall i :: 0 <= i < |refs| ==> refs[i].blockId < blockCount
    ensures r.Err? ==> r.msg == field + " out of range"
    ensures r.Ok? ==> |r.value| == blockCount
    ensures r.Ok? ==> forall b :: 0 <= b < blockCount ==> r.value[b] == MinStart(refs, b)
  {
    var starts: seq<u64> := seq(blockCount, _ => U64_MAX);
    for i := 0 to |refs|
      invariant |starts| == blockCount
      invariant forall k :: 0 <= k < i ==> refs[k].blockId < blockCount
      invariant forall b :: 0 <= b < blockCount ==> starts[b] == MinStart(refs[..i], b)
    {
      var bi := refs[i].blockId;
      if bi >= |starts| {
        return Err(field + " out of range");
      }
      assert refs[..i + 1][..i] == refs[..i];
      starts := starts[bi := if refs[i].elemOff < starts[bi] then refs[i].elemOff else starts[bi]];
    }
    assert refs[..|refs|] == refs;
    return Ok(starts);
  }

  /** `compute_block_starts_for_x`: spectrum m/z arrays. */
  method ComputeBlockStartsForX(index: seq<IndexEntry>, blockCount: u32) returns (r: Result<seq<u64>>)
    ensures r.Ok? <==> forall i :: 0 <= i < |index| ==> index[i].xBlock < blockCount
    ensures r.Err? ==> r.msg == "mz_block_id out of range"
    ensures r.Ok? ==> |r.value| == blockCount && forall b :: 0 <= b < blockCount ==> r.value[b] == MinStart(XRefs(index), b)
  {
    r := ComputeBlockStarts(XRefs(index), blockCount, "mz_block_id");
  }

  /** `compute_block_starts_for_y`: spectrum intensity arrays. */
  method ComputeBlockStartsForY(index: seq<IndexEntry>, blockCount: u32) returns (r: Result<seq<u64>>)
    ensures r.Ok? <==> forall i :: 0 <= i < |index| ==> index[i].yBlock < blockCount
    ensures r.Err? ==> r.msg == "inten_block_id out of range"
    ensures r.Ok? ==> |r.value| == blockCount && forall b :: 0 <= b < blockCount ==> r.value[b] == MinStart(YRefs(index), b)
  {
    r := ComputeBlockStarts(YRefs(index), blockCount, "inten_block_id");
  }

  /** `compute_block_starts_for_cx`: chromatogram time arrays. */
  method ComputeBlockStartsForCx(index: seq<IndexEntry>, blockCount: u32) returns (r: Result<seq<u64>>)
    ensures r.Ok? <==> forall i :: 0 <= i < |index| ==> index[i].xBlock < blockCount
    ensures r.Err? ==> r.msg == "time_block_id out of range"
    ensures r.Ok? ==> |r.value| == blockCount && forall b :: 0 <= b < blockCount ==> r.value[b] == MinStart(XRefs(index), b)
  {
    r := ComputeBlockStarts(XRefs(index), blockCount, "time_block_id");
  }

  /** `compute_block_starts_for_cy`: chromatogram intensity arrays. */
  method ComputeBlockStartsForCy(index: seq<IndexEntry>, blockCount: u32) returns (r: Result<seq<u64>>)
    ensures r.Ok? <==> forall i :: 0 <= i < |index| ==> index[i].yBlock < blockCount
    ensures r.Err? ==> r.msg == "inten_block_id out of range"
    ensures r.Ok? ==> |r.value| == blockCount && forall b :: 0 <= b < blockCount ==> r.value[b] == MinStart(YRefs(index), b)
  {
    r := ComputeBlockStarts(YRefs(index), blockCount, "inten_block_id");
  }

  /** A decoded array: its f32 or f64 samples, each kept as its 4 or 8 little-endian bytes. */
  datatype ArrayData = F32(values: seq<seq<byte>>) | F64(values: seq<seq<byte>>)

  /**
   * The checks `decode_item_array` makes before reading the block, in its order,
   * and then the byte offset and byte length of the item inside its block.
   */
  function ItemByteRange(starts: seq<u64>, blockId: nat, globalOff: u64, lenElems: u32, elemSize: nat)
    : (r: Result<(nat, nat)>)
    ensures r.Ok? <==> blockId < |starts| && starts[blockId] != U64_MAX && starts[blockId] <= globalOff &&
                       (elemSize == 4 || elemSize == 8) && (globalOff - starts[blockId]) * elemSize < U64_LIMIT
    ensures r.Ok? ==> r.value == ((globalOff - starts[blockId]) * elemSize, lenElems * elemSize)
    ensures blockId >= |starts| ==> r == Err("block_id out of range for starts")
    ensures blockId < |starts| && starts[blockId] == U64_MAX ==> r == Err("block start unknown")
    ensures blockId < |starts| && starts[blockId] != U64_MAX && globalOff < starts[blockId] ==>
              r == Err("negative local offset")
    ensures (blockId < |starts| && starts[blockId] != U64_MAX && starts[blockId] <= globalOff &&
             elemSize != 4 && elemSize != 8) ==> r == Err("unsupported elem_size")
  {
    if blockId >= |starts| then Err("block_id out of range for starts")
    else if starts[blockId] == U64_MAX then Err("block start unknown")
    else if globalOff < starts[blockId] then Err("negative local offset")
    else if elemSize != 4 && elemSize != 8 then Err("unsupported elem_size")
    else if (globalOff - starts[blockId]) * elemSize >= U64_LIMIT then Err("offset bytes overflow")
    else Ok(((globalOff - starts[blockId]) * elemSize, lenElems * elemSize))
  }

  /**
   * `decode_item_array`: `len_elems` elements of block `block_id`, starting at the
   * item's global element offset minus the block's first element. Range checks come
   * first, then the block's own errors, then the slice checks; on success the
   * samples are the item's elements of the block in element-wise layout.
   */
  method DecodeItemArray(reader: ContainerReader, starts: seq<u64>, blockId: u32, globalOff: u64, lenElems: u32)
    returns (r: Result<ArrayData>)
    requires reader.Valid()
    modifies reader
    ensures reader.Valid()
    ensures ItemByteRange(starts, blockId, globalOff, lenElems, reader.elemSize).Err? ==>
              r == Err(ItemByteRange(starts, blockId, globalOff, lenElems, reader.elemSize).msg) &&
              reader.cache == old(reader.cache) && reader.scratch == old(reader.scratch)
    ensures blockId < |reader.dir| && reader.Produced(blockId).Err? ==> r.Err?
    ensures r.Ok? <==>
              && ItemByteRange(starts, blockId, globalOff, lenElems, reader.elemSize).Ok?
              && blockId < |reader.dir| && reader.Produced(blockId).Ok?
              && var (off, len) := ItemByteRange(starts, blockId, globalOff, lenElems, reader.elemSize).value;
                 off + len < U64_LIMIT && off + len <= |reader.Produced(blockId).value|
    ensures r.Ok? ==> (r.value.F32? <==> reader.elemSize == 4) && |r.value.values| == lenElems
    ensures r.Ok? ==>
              var (off, len) := ItemByteRange(starts, blockId, globalOff, lenElems, reader.elemSize).value;
              off + len <= |reader.Unfiltered(reader.Produced(blockId).value)| &&
              r.value.values == Chunks(reader.Unfiltered(reader.Produced(blockId).value)[off..off + len],
                                       reader.elemSize, lenElems)
  {
    var range :- ItemByteRange(starts, blockId, globalOff, lenElems, reader.elemSize);
    var (off, len) := range;
    var raw :- reader.BlockBytes(blockId);
    if off + len >= U64_LIMIT {
      return Err("slice end overflow");
    }
    if off + len > |raw| {
      return Err("array slice out of bounds");
    }
    var k := reader.elemSize;
    var local := globalOff - starts[blockId];
    assert off + len == k * (local + lenElems);
    WholeMultiple(k, local + lenElems, |raw|);
    assert raw[off..off + len] == raw[..reader.WholeLen(|raw|)][off..off + len];
    var slice := raw[off..off + len];
    if k == 4 {
      return Ok(F32(Chunks(slice, 4, lenElems)));
    } else {
      return Ok(F64(Chunks(slice, 8, lenElems)));
    }
  }

  /**
   * Sample `j` of a decoded item is element `local + j` of its block, where `local`
   * is the item's offset from the block's first element.
   */
  lemma DecodedElementAt(u: seq<byte>, k: nat, local: nat, lenElems: nat, j: nat)
    requires k > 0 && k * local + k * lenElems <= |u| && j < lenElems
    ensures k * (local + j) + k <= |u|
    ensures Chunks(u[k * local..k * local + k * lenElems], k, lenElems)[j] == u[k * (local + j)..k * (local + j) + k]
  {
    var a, n, c := k * local, k * lenElems, k * j;
    var p := k * (local + j);
    assert p == a + c;
    assert c + k <= n by {
      MulLt(j, lenElems, k);
    }
    ChunkOfWindow(u, a, n, k, lenElems, j, c);
  }

  /** Chunk `j` of the window `u[a..a+n]` is the `k` bytes at `a + c`, where `c = k*j`. */
  lemma ChunkOfWindow(u: seq<byte>, a: nat, n: nat, k: nat, m: nat, j: nat, c: nat)
    requires a + n <= |u| && k * m <= n && j < m && c == k * j && c + k <= n
    ensures Chunks(u[a..a + n], k, m)[j] == u[a + c..a + c + k]
  {
    ChunkAt(u[a..a + n], k, m, j);
    SliceOfSlice(u, a, n, c, k);
  }
}
