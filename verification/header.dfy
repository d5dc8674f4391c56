/**
 * The fixed 192-byte header of a B000 file and the section layout `decode` derives
 * from it (crates/parser/src/utilities/decode.rs): section offsets and sizes as
 * little-endian u64, counts as u32, and single-byte codec, format and filter fields.
 */
module HeaderLayout {
  import opened Wrappers
  import opened Bytes

  const HEADER_SIZE: nat := 192
  const INDEX_ENTRY_SIZE: nat := 32
  /** The magic number "B000". */
  const MAGIC: seq<byte> := [0x42, 0x30, 0x30, 0x30]
  const HDR_CODEC_MASK: nat := 0x0F
  const HDR_ARRAY_FILTER_OFF: nat := 178

  datatype Header = Header(
    offSpecIndex: u64, offChromIndex: u64, offSpecMeta: u64, offChromMeta: u64, offGlobalMeta: u64,
    sizeSpectX: u64, offSpectX: u64, sizeSpectY: u64, offSpectY: u64,
    sizeChromX: u64, offChromX: u64, sizeChromY: u64, offChromY: u64,
    spectrumCount: u32, chromCount: u32,
    specMetaCount: u32, specNumCount: u32, specStrCount: u32,
    chromMetaCount: u32, chromNumCount: u32, chromStrCount: u32,
    globalMetaCount: u32, globalNumCount: u32, globalStrCount: u32,
    blockCountSpectX: u32, blockCountSpectY: u32, blockCountChromX: u32, blockCountChromY: u32,
    codecFlags: byte, codec: byte,
    chromXFmt: byte, chromYFmt: byte, spectXFmt: byte, spectYFmt: byte,
    compressionLevel: byte, arrayFilter: byte)
  {
    /** Bit 4 of the codec byte: the spectrum metadata section is compressed. */
    predicate SpecMetaCompressed() { (codecFlags / 16) % 2 == 1 }
    /** Bit 5: the chromatogram metadata section is compressed. */
    predicate ChromMetaCompressed() { (codecFlags / 32) % 2 == 1 }
    /** Bit 6: the global metadata section is compressed. */
    predicate GlobalMetaCompressed() { (codecFlags / 64) % 2 == 1 }
  }

  function U64Field(b: seq<byte>, o: nat): u64
    requires o + 8 <= |b|
  {
    ReadU64At(b, o).value
  }

  function U32Field(b: seq<byte>, o: nat): u32
    requires o + 4 <= |b|
  {
    ReadU32At(b, o).value
  }

  /**
   * The header checks of `decode`: a buffer shorter than the header, a wrong magic
   * number and a non-zero endianness flag are each rejected with their own message.
   */
  function ParseHeader(bytes: seq<byte>): (r: Result<Header>)
    ensures |bytes| < HEADER_SIZE ==> r == Err("Buffer too small for header")
    ensures |bytes| >= HEADER_SIZE && bytes[0..4] != MAGIC ==> r == Err("Invalid binary magic number")
    ensures |bytes| >= HEADER_SIZE && bytes[0..4] == MAGIC && bytes[4] != 0 ==>
              r == Err("Unsupported endianness flag")
    ensures r.Ok? <==> |bytes| >= HEADER_SIZE && bytes[0..4] == MAGIC && bytes[4] == 0
    ensures r.Ok? ==> r.value.codec == r.value.codecFlags % 16 && r.value.codecFlags == bytes[172]
    ensures r.Ok? ==> r.value.arrayFilter == bytes[HDR_ARRAY_FILTER_OFF]
  {
    if |bytes| < HEADER_SIZE then Err("Buffer too small for header")
    else
      var h := bytes[..HEADER_SIZE];
      if h[0..4] != MAGIC then
        assert bytes[0..4] == h[0..4];
        Err("Invalid binary magic number")
      else if h[4] != 0 then Err("Unsupported endianness flag")
      else
        assert bytes[0..4] == h[0..4];
        Ok(Header(
          U64Field(h, 8), U64Field(h, 16), U64Field(h, 24), U64Field(h, 32), U64Field(h, 40),
          U64Field(h, 48), U64Field(h, 56), U64Field(h, 64), U64Field(h, 72),
          U64Field(h, 80), U64Field(h, 88), U64Field(h, 96), U64Field(h, 104),
          U32Field(h, 112), U32Field(h, 116),
          U32Field(h, 120), U32Field(h, 124), U32Field(h, 128),
          U32Field(h, 132), U32Field(h, 136), U32Field(h, 140),
          U32Field(h, 144), U32Field(h, 148), U32Field(h, 152),
          U32Field(h, 156), U32Field(h, 160), U32Field(h, 164), U32Field(h, 168),
          h[172], h[172] % 16,
          h[173], h[174], h[175], h[176],
          h[177], h[HDR_ARRAY_FILTER_OFF]))
  }

  /** Only the first 192 bytes decide the header: what follows never changes it. */
  lemma ParseHeaderPrefix(bytes: seq<byte>, tail: seq<byte>)
    requires |bytes| >= HEADER_SIZE
    ensures ParseHeader(bytes + tail) == ParseHeader(bytes)
  {
    assert (bytes + tail)[..HEADER_SIZE] == bytes[..HEADER_SIZE];
    assert (bytes + tail)[0..4] == bytes[0..4];
  }

  /** `fmt_elem_size`: format 1 is f32 (4 bytes), format 2 is f64 (8 bytes). */
  function FmtElemSize(fmt: byte): (r: Result<nat>)
    ensures r.Ok? <==> fmt == 1 || fmt == 2
    ensures r.Ok? ==> r.value == 4 * fmt
    ensures r.Err? ==> r.msg == "Invalid float format"
  {
    match fmt
    case 1 => Ok(4)
    case 2 => Ok(8)
    case _ => Err("Invalid float format")
  }

  /** The smallest non-zero value of `xs`, if any (the fold `min_nonzero_usize` computes). */
  function MinNonzero(xs: seq<nat>): Option<nat>
  {
    if xs == [] then None
    else
      var m := MinNonzero(xs[..|xs| - 1]);
      var x := xs[|xs| - 1];
      if x == 0 then m
      else match m
        case Some(cur) => Some(if cur <= x then cur else x)
        case None => Some(x)
  }

  /** `None` exactly when every value is zero; otherwise a non-zero member below every non-zero value. */
  lemma {:induction false} MinNonzeroIsMin(xs: seq<nat>)
    ensures MinNonzero(xs).None? <==> forall i :: 0 <= i < |xs| ==> xs[i] == 0
    ensures MinNonzero(xs).Some? ==>
              && MinNonzero(xs).value != 0
              && MinNonzero(xs).value in xs
              && forall i :: 0 <= i < |xs| && xs[i] != 0 ==> MinNonzero(xs).value <= xs[i]
  {
    if xs != [] {
      var init := xs[..|xs| - 1];
      MinNonzeroIsMin(init);
      forall i | 0 <= i < |init|
        ensures init[i] == xs[i]
      {
      }
    }
  }

  /** `min_nonzero_usize`: the loop skipping zeros and keeping the running minimum. */
  method MinNonzeroUsize(xs: seq<nat>) returns (m: Option<nat>)
    ensures m == MinNonzero(xs)
  {
    m := None;
    for k := 0 to |xs|
      invariant m == MinNonzero(xs[..k])
    {
      assert xs[..k + 1][..k] == xs[..k];
      var x := xs[k];
      if x == 0 {
        continue;
      }
      m := Some(match m
        case Some(cur) => if cur <= x then cur else x
        case None => x);
    }
    assert xs[..|xs|] == xs;
  }

  /** The element sizes and byte sections `decode` locates before building containers. */
  datatype Sections = Sections(
    spectXElemSize: nat, spectYElemSize: nat, chromXElemSize: nat, chromYElemSize: nat,
    spectrumIndex: seq<byte>, chromatogramIndex: seq<byte>,
    specMeta: seq<byte>, chromMeta: seq<byte>, globalMeta: seq<byte>)

  /** Where the global metadata ends: the first non-zero container offset, else the end of the file. */
  function GlobalMetaEnd(bytes: seq<byte>, h: Header): nat
  {
    MinNonzero([h.offSpectX, h.offSpectY, h.offChromX, h.offChromY]).GetOr(|bytes|)
  }

  /** All four array formats are 1 (f32) or 2 (f64). */
  predicate FormatsValid(h: Header)
  {
    FmtElemSize(h.spectXFmt).Ok? && FmtElemSize(h.spectYFmt).Ok? &&
    FmtElemSize(h.chromXFmt).Ok? && FmtElemSize(h.chromYFmt).Ok?
  }

  /** Both index tables, 32 bytes per item, lie inside the file. */
  predicate IndexTablesFit(bytes: seq<byte>, h: Header)
  {
    && h.offSpecIndex + INDEX_ENTRY_SIZE * h.spectrumCount <= |bytes|
    && h.offSpecIndex + INDEX_ENTRY_SIZE * h.spectrumCount < U64_LIMIT
    && h.offChromIndex + INDEX_ENTRY_SIZE * h.chromCount <= |bytes|
    && h.offChromIndex + INDEX_ENTRY_SIZE * h.chromCount < U64_LIMIT
  }

  /**
   * The section checks of `decode`, in its order: the four array formats, the two
   * index tables (32 bytes per item), ordered metadata offsets, then the global
   * metadata running up to the first container.
   */
  function LocateSections(bytes: seq<byte>, h: Header): (r: Result<Sections>)
    ensures r.Ok? ==>
              && h.offSpecMeta <= h.offChromMeta <= h.offGlobalMeta <= GlobalMetaEnd(bytes, h) <= |bytes|
              && h.offSpecIndex + INDEX_ENTRY_SIZE * h.spectrumCount <= |bytes|
              && h.offChromIndex + INDEX_ENTRY_SIZE * h.chromCount <= |bytes|
              && r.value.spectrumIndex == bytes[h.offSpecIndex..h.offSpecIndex + INDEX_ENTRY_SIZE * h.spectrumCount]
              && r.value.chromatogramIndex == bytes[h.offChromIndex..h.offChromIndex + INDEX_ENTRY_SIZE * h.chromCount]
              && r.value.specMeta == bytes[h.offSpecMeta..h.offChromMeta]
              && r.value.chromMeta == bytes[h.offChromMeta..h.offGlobalMeta]
              && r.value.globalMeta == bytes[h.offGlobalMeta..GlobalMetaEnd(bytes, h)]
    ensures r.Ok? ==>
              && r.value.spectXElemSize == 4 * h.spectXFmt && r.value.spectYElemSize == 4 * h.spectYFmt
              && r.value.chromXElemSize == 4 * h.chromXFmt && r.value.chromYElemSize == 4 * h.chromYFmt
    ensures (FmtElemSize(h.spectXFmt).Err? || FmtElemSize(h.spectYFmt).Err? ||
             FmtElemSize(h.chromXFmt).Err? || FmtElemSize(h.chromYFmt).Err?) ==> r == Err("Invalid float format")
    ensures r.Ok? <==>
              && FormatsValid(h) && IndexTablesFit(bytes, h)
              && h.offSpecMeta <= h.offChromMeta <= h.offGlobalMeta <= GlobalMetaEnd(bytes, h) <= |bytes|
              && GlobalMetaEnd(bytes, h) < U64_LIMIT
    ensures (&& FormatsValid(h) && IndexTablesFit(bytes, h)
             && (h.offChromMeta < h.offSpecMeta || h.offGlobalMeta < h.offChromMeta))
            ==> r == Err("Invalid meta offsets")
    ensures (&& FormatsValid(h) && IndexTablesFit(bytes, h)
             && h.offSpecMeta <= h.offChromMeta <= h.offGlobalMeta <= |bytes| && h.offGlobalMeta < U64_LIMIT
             && GlobalMetaEnd(bytes, h) < h.offGlobalMeta)
            ==> r == Err("Invalid global meta/container offsets")
  {
    var sx :- FmtElemSize(h.spectXFmt);
    var sy :- FmtElemSize(h.spectYFmt);
    var cx :- FmtElemSize(h.chromXFmt);
    var cy :- FmtElemSize(h.chromYFmt);
    var spectrumIndex :- ReadSlice(bytes, h.offSpecIndex, h.spectrumCount * INDEX_ENTRY_SIZE);
    var chromatogramIndex :- ReadSlice(bytes, h.offChromIndex, h.chromCount * INDEX_ENTRY_SIZE);
    if h.offChromMeta < h.offSpecMeta || h.offGlobalMeta < h.offChromMeta then Err("Invalid meta offsets")
    else
      var specMeta :- ReadSlice(bytes, h.offSpecMeta, h.offChromMeta - h.offSpecMeta);
      var chromMeta :- ReadSlice(bytes, h.offChromMeta, h.offGlobalMeta - h.offChromMeta);
      var first := GlobalMetaEnd(bytes, h);
      if first < h.offGlobalMeta then Err("Invalid global meta/container offsets")
      else
        var globalMeta :- ReadSlice(bytes, h.offGlobalMeta, first - h.offGlobalMeta);
        Ok(Sections(sx, sy, cx, cy, spectrumIndex, chromatogramIndex, specMeta, chromMeta, globalMeta))
  }

  /** One 32-byte index entry: element offsets, element lengths and block ids of the x and y arrays. */
  datatype IndexEntry = IndexEntry(xOff: u64, yOff: u64, xLen: u32, yLen: u32, xBlock: u32, yBlock: u32)

  function EncodeIndexEntry(e: IndexEntry): (r: seq<byte>)
    ensures |r| == INDEX_ENTRY_SIZE
  {
    LeBytes(e.xOff, 8) + LeBytes(e.yOff, 8) + LeBytes(e.xLen, 4) + LeBytes(e.yLen, 4)
      + LeBytes(e.xBlock, 4) + LeBytes(e.yBlock, 4)
  }

  function IndexEntryOf(w: seq<byte>): IndexEntry
    requires |w| == INDEX_ENTRY_SIZE
  {
    Pow256Widths();
    LeValueBound(w[0..8]);
    LeValueBound(w[8..16]);
    LeValueBound(w[16..20]);
    LeValueBound(w[20..24]);
    LeValueBound(w[24..28]);
    LeValueBound(w[28..32]);
    IndexEntry(LeValue(w[0..8]), LeValue(w[8..16]), LeValue(w[16..20]), LeValue(w[20..24]),
               LeValue(w[24..28]), LeValue(w[28..32]))
  }

  /**
   * `read_index_entry_with_blocks`: entry `item_idx` of the index table, or
   * "Index overflow" when it does not lie inside the table.
   */
  function ReadIndexEntryWithBlocks(indexBytes: seq<byte>, itemIdx: nat): (r: Result<IndexEntry>)
    ensures r.Ok? <==> INDEX_ENTRY_SIZE * itemIdx + INDEX_ENTRY_SIZE <= |indexBytes| &&
                       INDEX_ENTRY_SIZE * itemIdx + INDEX_ENTRY_SIZE < U64_LIMIT
    ensures r.Err? ==> r.msg == "Index overflow"
    ensures r.Ok? ==> r.value == IndexEntryOf(indexBytes[INDEX_ENTRY_SIZE * itemIdx..INDEX_ENTRY_SIZE * itemIdx + INDEX_ENTRY_SIZE])
  {
    var base := itemIdx * INDEX_ENTRY_SIZE;
    if base >= U64_LIMIT then Err("Index overflow")
    else if base + INDEX_ENTRY_SIZE >= U64_LIMIT then Err("Index overflow")
    else if base + INDEX_ENTRY_SIZE > |indexBytes| then Err("Index overflow")
    else Ok(IndexEntryOf(indexBytes[base..base + INDEX_ENTRY_SIZE]))
  }

  /** Reading back an entry a writer stored at position `i` gives that entry. */
  lemma IndexEntryRoundTrip(indexBytes: seq<byte>, i: nat, e: IndexEntry)
    requires INDEX_ENTRY_SIZE * i + INDEX_ENTRY_SIZE <= |indexBytes| < U64_LIMIT
    requires indexBytes[INDEX_ENTRY_SIZE * i..INDEX_ENTRY_SIZE * i + INDEX_ENTRY_SIZE] == EncodeIndexEntry(e)
    ensures ReadIndexEntryWithBlocks(indexBytes, i) == Ok(e)
  {
    var w := EncodeIndexEntry(e);
    assert w[0..8] == LeBytes(e.xOff, 8);
    assert w[8..16] == LeBytes(e.yOff, 8);
    assert w[16..20] == LeBytes(e.xLen, 4);
    assert w[20..24] == LeBytes(e.yLen, 4);
    assert w[24..28] == LeBytes(e.xBlock, 4);
    assert w[28..32] == LeBytes(e.yBlock, 4);
    Pow256Widths();
    LeValueOfBytes(e.xOff, 8);
    LeValueOfBytes(e.yOff, 8);
    LeValueOfBytes(e.xLen, 4);
    LeValueOfBytes(e.yLen, 4);
    LeValueOfBytes(e.xBlock, 4);
    LeValueOfBytes(e.yBlock, 4);
  }
}
