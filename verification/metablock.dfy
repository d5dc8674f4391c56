/**
 * `decode_meta_block` of crates/parser/src/utilities/decode.rs: a metadata section
 * laid out as columns (item start indices, then per-row vocabulary codes,
 * accession numbers, unit codes, unit accession numbers, value kinds and value
 * indices, then the numeric values, the string offsets and lengths, and the string
 * bytes), turned into one cvParam list per item. Item `i` owns rows
 * `item_indices[i] .. item_indices[i+1]`, in the compressed-sparse-row manner.
 */
module MetaBlock {
  import opened Wrappers
  import opened Seqs
  import opened Bytes
  import opened Accession
  import opened Mzml

  /** The columns of a metadata section, numbers as read (u32 values, f64 bit patterns). */
  datatype MetaColumns = MetaColumns(
    itemIndices: seq<nat>,
    refCodes: seq<byte>,
    accessions: seq<nat>,
    unitRefs: seq<byte>,
    unitAccessions: seq<nat>,
    kinds: seq<byte>,
    valueIndices: seq<nat>,
    numbers: seq<nat>,
    strOffsets: seq<nat>,
    strLengths: seq<nat>,
    strData: seq<byte>)

  /** Column lengths and value ranges the layout guarantees. */
  ghost predicate Shaped(c: MetaColumns, ic: nat, mc: nat, nc: nat, sc: nat)
  {
    && |c.itemIndices| == ic + 1 && |c.refCodes| == mc && |c.accessions| == mc && |c.unitRefs| == mc
    && |c.unitAccessions| == mc && |c.kinds| == mc && |c.valueIndices| == mc && |c.numbers| == nc
    && |c.strOffsets| == sc && |c.strLengths| == sc
    && (forall k :: 0 <= k < |c.itemIndices| ==> c.itemIndices[k] < U32_LIMIT)
    && (forall k :: 0 <= k < mc ==> c.accessions[k] < U32_LIMIT && c.unitAccessions[k] < U32_LIMIT)
    && (forall k :: 0 <= k < nc ==> c.numbers[k] < U64_LIMIT)
  }

  /** Columns of some layout. */
  ghost predicate WellFormed(c: MetaColumns)
  {
    |c.itemIndices| >= 1 && Shaped(c, |c.itemIndices| - 1, |c.kinds|, |c.numbers|, |c.strOffsets|)
  }

  /** Every word read from `b` fits its width. */
  lemma WordsBound(b: seq<byte>, c: nat)
    ensures 4 * c <= |b| ==> forall k :: 0 <= k < c ==> U32Words(b, c)[k] < U32_LIMIT
    ensures 8 * c <= |b| ==> forall k :: 0 <= k < c ==> U64Words(b, c)[k] < U64_LIMIT
  {
    Pow256Widths();
    if 4 * c <= |b| {
      forall k | 0 <= k < c ensures U32Words(b, c)[k] < U32_LIMIT {
        LeValueBound(b[4 * k..4 * k + 4]);
      }
    }
    if 8 * c <= |b| {
      forall k | 0 <= k < c ensures U64Words(b, c)[k] < U64_LIMIT {
        LeValueBound(b[8 * k..8 * k + 8]);
      }
    }
  }

  /** The number of bytes the item indices and the six per-row columns take. */
  function RowBytes(ic: nat, mc: nat): nat
  {
    4 * (ic + 1) + 15 * mc
  }

  /** The number of bytes the columns before the string data take. */
  function ColumnBytes(ic: nat, mc: nat, nc: nat, sc: nat): nat
  {
    RowBytes(ic, mc) + 8 * nc + 8 * sc
  }

  /**
   * The section read column by column: "EOF" exactly when the fixed-size columns do
   * not fit in the bytes; the string data is whatever follows them.
   */
  function MetaLayout(bytes: seq<byte>, ic: u32, mc: u32, nc: u32, sc: u32): (r: Result<MetaColumns>)
    ensures r.Ok? <==> ColumnBytes(ic, mc, nc, sc) <= |bytes|
    ensures r.Err? ==> r.msg == "EOF"
    ensures r.Ok? ==> Shaped(r.value, ic, mc, nc, sc) && r.value.strData == bytes[ColumnBytes(ic, mc, nc, sc)..]
  {
    if ColumnBytes(ic, mc, nc, sc) > |bytes| then Err("EOF") else Ok(ColumnsAt(bytes, ic, mc, nc, sc))
  }

  /** The item indices and the six per-row columns at the start of a section. */
  datatype RowColumns = RowColumns(
    itemIndices: seq<nat>,
    refCodes: seq<byte>,
    accessions: seq<nat>,
    unitRefs: seq<byte>,
    unitAccessions: seq<nat>,
    kinds: seq<byte>,
    valueIndices: seq<nat>)

  /** A code column of `mc` bytes at `o` and the `mc` u32 words that follow it. */
  function CodedColumnsAt(bytes: seq<byte>, o: nat, mc: nat): (p: (seq<byte>, seq<nat>))
    requires o + mc * 5 <= |bytes|
    ensures |p.0| == mc && |p.1| == mc
    ensures forall k :: 0 <= k < mc ==> p.1[k] < U32_LIMIT
  {
    WordsBound(bytes[o + mc..o + mc * 5], mc);
    (bytes[o..o + mc], U32Words(bytes[o + mc..o + mc * 5], mc))
  }

  /** The row columns at their offsets, when they fit. */
  function RowColumnsAt(bytes: seq<byte>, ic: nat, mc: nat): (c: RowColumns)
    requires RowBytes(ic, mc) <= |bytes|
    ensures |c.itemIndices| == ic + 1 && |c.refCodes| == mc && |c.accessions| == mc && |c.unitRefs| == mc
    ensures |c.unitAccessions| == mc && |c.kinds| == mc && |c.valueIndices| == mc
    ensures forall k :: 0 <= k < |c.itemIndices| ==> c.itemIndices[k] < U32_LIMIT
    ensures forall k :: 0 <= k < mc ==> c.accessions[k] < U32_LIMIT && c.unitAccessions[k] < U32_LIMIT
  {
    var o1 := (ic + 1) * 4;
    WordsBound(bytes[0..o1], ic + 1);
    var cvs := CodedColumnsAt(bytes, o1, mc);
    var units := CodedColumnsAt(bytes, o1 + mc * 5, mc);
    var values := CodedColumnsAt(bytes, o1 + mc * 10, mc);
    RowColumns(U32Words(bytes[0..o1], ic + 1), cvs.0, cvs.1, units.0, units.1, values.0, values.1)
  }

  /** The columns at their offsets, when they fit. */
  function ColumnsAt(bytes: seq<byte>, ic: nat, mc: nat, nc: nat, sc: nat): (c: MetaColumns)
    requires ColumnBytes(ic, mc, nc, sc) <= |bytes|
    ensures Shaped(c, ic, mc, nc, sc) && c.strData == bytes[ColumnBytes(ic, mc, nc, sc)..]
  {
    var rows := RowColumnsAt(bytes, ic, mc);
    var o7 := RowBytes(ic, mc);
    var o8 := o7 + nc * 8;
    var o9 := o8 + sc * 4;
    var o10 := o9 + sc * 4;
    WordsBound(bytes[o7..o8], nc);
    MetaColumns(rows.itemIndices, rows.refCodes, rows.accessions, rows.unitRefs, rows.unitAccessions,
                rows.kinds, rows.valueIndices, U64Words(bytes[o7..o8], nc),
                U32Words(bytes[o8..o9], sc), U32Words(bytes[o9..o10], sc), bytes[o10..])
  }

  /**
   * The value of row `m`: kind 0 with an index into the numbers gives the number's
   * text, kind 1 with an index into the strings gives the string (its UTF-8 decoding,
   * empty when invalid) or the empty string when it runs past the string data, and
   * anything else gives no value.
   */
  function ValueAt(c: MetaColumns, m: nat, env: Env): (v: Option<string>)
    requires m < |c.kinds| && m < |c.valueIndices| && |c.strLengths| == |c.strOffsets|
    requires forall k :: 0 <= k < |c.numbers| ==> c.numbers[k] < U64_LIMIT
    ensures v.None? <==> !(c.kinds[m] == 0 && c.valueIndices[m] < |c.numbers|) &&
                         !(c.kinds[m] == 1 && c.valueIndices[m] < |c.strOffsets|)
    ensures (c.kinds[m] == 1 && c.valueIndices[m] < |c.strOffsets| &&
             c.strOffsets[c.valueIndices[m]] + c.strLengths[c.valueIndices[m]] > |c.strData|) ==> v == Some("")
  {
    var kind, idx := c.kinds[m], c.valueIndices[m];
    if kind == 0 && idx < |c.numbers| then Some(env.f64Display(c.numbers[idx]))
    else if kind == 1 && idx < |c.strOffsets| then
      var off, len := c.strOffsets[idx], c.strLengths[idx];
      if off + len <= |c.strData| then Some(env.utf8(c.strData[off..off + len]).GetOr("")) else Some("")
    else None
  }

  /** The cvParam of row `m`: codes and numbers turned back into vocabulary, accession and name. */
  function ParamAt(c: MetaColumns, m: nat, env: Env): CvParam
    requires WellFormed(c) && m < |c.kinds|
  {
    var cvRef := CvRefFromCode(c.refCodes[m]);
    var unitRef := CvRefFromCode(c.unitRefs[m]);
    CvParam(cvRef, MakeAccession(cvRef, c.accessions[m]),
            CvNameFromCode(cvRef, c.accessions[m], env.cvNames).GetOr(""),
            ValueAt(c, m, env), unitRef, MakeAccession(unitRef, c.unitAccessions[m]),
            CvNameFromCode(unitRef, c.unitAccessions[m], env.cvNames))
  }

  /** The params of rows `a .. b`, in row order; none when `a >= b`. */
  function RowParams(c: MetaColumns, a: nat, b: nat, env: Env): (r: seq<CvParam>)
    requires WellFormed(c)
    requires a < b ==> b <= |c.kinds|
    ensures |r| == if a < b then b - a else 0
    ensures forall k :: 0 <= k < |r| ==> r[k] == ParamAt(c, a + k, env)
  {
    if a < b then seq(b - a, k requires 0 <= k < b - a => ParamAt(c, a + k, env)) else []
  }

  /** Item `i` reaches past the rows: the source indexes the columns out of bounds and panics. */
  predicate Overruns(c: MetaColumns, i: nat)
  {
    i + 1 < |c.itemIndices| && c.itemIndices[i] < c.itemIndices[i + 1] && c.itemIndices[i + 1] > |c.kinds|
  }

  /** The params of item `i`: rows `item_indices[i] .. item_indices[i+1]`. */
  function ItemParams(c: MetaColumns, i: nat, env: Env): (r: seq<CvParam>)
    requires WellFormed(c) && i + 1 < |c.itemIndices| && !Overruns(c, i)
  {
    RowParams(c, c.itemIndices[i], c.itemIndices[i + 1], env)
  }

  /** `read_u32_vec(read_slice(bytes, o, c * 4)?, c)`: the `c` u32 words at `o`, or "EOF". */
  method ReadU32Column(bytes: seq<byte>, o: nat, c: nat) returns (r: Result<seq<nat>>)
    ensures r.Ok? <==> o + c * 4 <= |bytes| && o + c * 4 < U64_LIMIT
    ensures r.Err? ==> r.msg == "EOF"
    ensures r.Ok? ==> r.value == U32Words(bytes[o..o + c * 4], c)
  {
    var raw :- ReadSlice(bytes, o, c * 4);
    var words := ReadU32Vec(raw, c);
    return Ok(words.value);
  }

  /** `read_f64_vec(read_slice(bytes, o, c * 8)?, c)`: the `c` raw 64-bit words at `o`, or "EOF". */
  method ReadF64Column(bytes: seq<byte>, o: nat, c: nat) returns (r: Result<seq<nat>>)
    ensures r.Ok? <==> o + c * 8 <= |bytes| && o + c * 8 < U64_LIMIT
    ensures r.Err? ==> r.msg == "EOF"
    ensures r.Ok? ==> r.value == U64Words(bytes[o..o + c * 8], c)
  {
    var raw :- ReadSlice(bytes, o, c * 8);
    var words := ReadF64Vec(raw, c);
    return Ok(words.value);
  }

  /** A code column and its u32 column, as `decode_meta_block` reads them one after the other. */
  method ReadCodedColumns(bytes: seq<byte>, o: nat, mc: nat) returns (r: Result<(seq<byte>, seq<nat>)>)
    ensures r.Ok? <==> o + mc * 5 <= |bytes| && o + mc * 5 < U64_LIMIT
    ensures r.Err? ==> r.msg == "EOF"
    ensures r.Ok? ==> r.value == CodedColumnsAt(bytes, o, mc)
  {
    var codes :- ReadSlice(bytes, o, mc);
    var words :- ReadU32Column(bytes, o + mc, mc);
    return Ok((codes, words));
  }

  /** The first seven column reads of `decode_meta_block`, up to the value indices. */
  method ReadRowColumns(bytes: seq<byte>, ic: nat, mc: nat) returns (r: Result<RowColumns>)
    requires ic < U32_LIMIT && mc < U32_LIMIT
    ensures r.Ok? <==> RowBytes(ic, mc) <= |bytes|
    ensures r.Err? ==> r.msg == "EOF"
    ensures r.Ok? ==> r.value == RowColumnsAt(bytes, ic, mc)
  {
    var itemIndices :- ReadU32Column(bytes, 0, ic + 1);
    var offset := (ic + 1) * 4;
    var cvs :- ReadCodedColumns(bytes, offset, mc);
    offset := offset + mc * 5;
    var units :- ReadCodedColumns(bytes, offset, mc);
    offset := offset + mc * 5;
    var values :- ReadCodedColumns(bytes, offset, mc);
    return Ok(RowColumns(itemIndices, cvs.0, cvs.1, units.0, units.1, values.0, values.1));
  }

  /** The column reads of `decode_meta_block`, each read advancing the offset. */
  method ReadMetaColumns(bytes: seq<byte>, itemCount: u32, metaCount: u32, numCount: u32, strCount: u32)
    returns (r: Result<MetaColumns>)
    ensures r == MetaLayout(bytes, itemCount, metaCount, numCount, strCount)
  {
    var ic, mc, nc, sc := itemCount as nat, metaCount as nat, numCount as nat, strCount as nat;
    var rows :- ReadRowColumns(bytes, ic, mc);
    var offset := RowBytes(ic, mc);
    var numbers :- ReadF64Column(bytes, offset, nc);
    offset := offset + nc * 8;
    var strOffsets :- ReadU32Column(bytes, offset, sc);
    offset := offset + sc * 4;
    var strLengths :- ReadU32Column(bytes, offset, sc);
    offset := offset + sc * 4;
    return Ok(MetaColumns(rows.itemIndices, rows.refCodes, rows.accessions, rows.unitRefs, rows.unitAccessions,
                          rows.kinds, rows.valueIndices, numbers, strOffsets, strLengths, bytes[offset..]));
  }

  /**
   * `decode_meta_block`: the layout's "EOF", or the panic of an item whose rows run
   * past the row columns (an error here), or for each item `i` the params of rows
   * `item_indices[i] .. item_indices[i+1]`, in order.
   */
  method DecodeMetaBlock(bytes: seq<byte>, itemCount: u32, metaCount: u32, numCount: u32, strCount: u32, env: Env)
    returns (r: Result<seq<seq<CvParam>>>)
    ensures MetaLayout(bytes, itemCount, metaCount, numCount, strCount).Err? ==> r == Err("EOF")
    ensures MetaLayout(bytes, itemCount, metaCount, numCount, strCount).Ok? ==>
      var c := MetaLayout(bytes, itemCount, metaCount, numCount, strCount).value;
      && (r.Err? <==> exists i :: 0 <= i < itemCount && Overruns(c, i))
      && (r.Ok? ==> |r.value| == itemCount &&
                    forall i :: 0 <= i < itemCount ==>
                      !Overruns(c, i) && r.value[i] == ItemParams(c, i, env))
  {
    var c :- ReadMetaColumns(bytes, itemCount, metaCount, numCount, strCount);
    var result: seq<seq<CvParam>> := [];
    for i := 0 to itemCount as nat
      invariant |result| == i
      invariant forall j :: 0 <= j < i ==> !Overruns(c, j) && result[j] == ItemParams(c, j, env)
    {
      var item := DecodeItem(c, i, env);
      if item.Err? {
        return Err(item.msg);
      }
      result := result + [item.value];
    }
    return Ok(result);
  }

  /** The inner loop of `decode_meta_block`: the params of item `i`, row by row. */
  method DecodeItem(c: MetaColumns, i: nat, env: Env) returns (r: Result<seq<CvParam>>)
    requires WellFormed(c) && i + 1 < |c.itemIndices|
    ensures r.Err? <==> Overruns(c, i)
    ensures r.Ok? ==> r.value == ItemParams(c, i, env)
  {
    var start, end := c.itemIndices[i], c.itemIndices[i + 1];
    var itemParams: seq<CvParam> := [];
    if start < end {
      for m := start to end
        invariant m == start || m <= |c.kinds|
        invariant |itemParams| == m - start
        invariant forall k :: 0 <= k < m - start ==> itemParams[k] == ParamAt(c, start + k, env)
      {
        if m >= |c.kinds| {
          return Err("index out of bounds");
        }
        itemParams := itemParams + [ParamAt(c, m, env)];
      }
      RowParamsByIndex(c, start, end, itemParams, env);
    }
    return Ok(itemParams);
  }

  /** A sequence holding the params of rows `a .. b` one by one is `RowParams(c, a, b)`. */
  lemma RowParamsByIndex(c: MetaColumns, a: nat, b: nat, ps: seq<CvParam>, env: Env)
    requires WellFormed(c) && a < b <= |c.kinds|
    requires |ps| == b - a
    requires forall k :: 0 <= k < |ps| ==> ps[k] == ParamAt(c, a + k, env)
    ensures ps == RowParams(c, a, b, env)
  {
  }

  /** Rows are shared out in order: item indices that never decrease and stay within the rows never fail. */
  lemma MonotoneIndicesFit(c: MetaColumns, n: nat, i: nat)
    requires n < |c.itemIndices|
    requires forall k :: 0 <= k < n ==> c.itemIndices[k] <= c.itemIndices[k + 1]
    requires c.itemIndices[n] <= |c.kinds|
    requires i < n
    ensures c.itemIndices[i + 1] <= c.itemIndices[n] && !Overruns(c, i)
  {
    MonotoneChain(c.itemIndices, i + 1, n);
  }

  /** Along a sequence that never decreases up to position `n`, an earlier entry is at most a later one. */
  lemma {:induction false} MonotoneChain(s: seq<nat>, j: nat, n: nat)
    requires j <= n < |s|
    requires forall i :: 0 <= i < n ==> s[i] <= s[i + 1]
    ensures s[j] <= s[n]
    decreases n - j
  {
    if j < n {
      MonotoneChain(s, j + 1, n);
    }
  }

  function Flatten(items: seq<seq<CvParam>>): seq<CvParam>
  {
    if items == [] then [] else Flatten(items[..|items| - 1]) + items[|items| - 1]
  }

  lemma RowParamsSplit(c: MetaColumns, a: nat, b: nat, e: nat, env: Env)
    requires WellFormed(c) && a <= b <= e <= |c.kinds|
    ensures RowParams(c, a, e, env) == RowParams(c, a, b, env) + RowParams(c, b, e, env)
  {
    var l, x, y := RowParams(c, a, e, env), RowParams(c, a, b, env), RowParams(c, b, e, env);
    forall k | 0 <= k < |y| ensures l[|x| + k] == y[k] {
      assert a + (|x| + k) == b + k;
    }
    ConcatByIndex(l, x, y);
  }

  /**
   * With item indices that never decrease, the items' params laid end to end are the
   * params of rows `item_indices[0] .. item_indices[n]`: every row goes to exactly
   * one item, in order.
   */
  lemma {:induction false} ItemsCoverRows(c: MetaColumns, items: seq<seq<CvParam>>, env: Env)
    requires WellFormed(c) && |items| < |c.itemIndices|
    requires forall i :: 0 <= i < |items| ==> c.itemIndices[i] <= c.itemIndices[i + 1]
    requires c.itemIndices[|items|] <= |c.kinds|
    requires forall i :: 0 <= i < |items| ==> !Overruns(c, i) && items[i] == ItemParams(c, i, env)
    ensures c.itemIndices[0] <= c.itemIndices[|items|]
    ensures Flatten(items) == RowParams(c, c.itemIndices[0], c.itemIndices[|items|], env)
  {
    var n := |items|;
    if n > 0 {
      ItemsCoverRows(c, items[..n - 1], env);
      RowParamsSplit(c, c.itemIndices[0], c.itemIndices[n - 1], c.itemIndices[n], env);
    }
  }

  /**
   * Accession numbers survive the round trip through their text form: reading the
   * number back out of a decoded accession gives the stored number, for every
   * vocabulary code except NCIT's.
   */
  lemma ParamAccessionNumbers(c: MetaColumns, m: nat, env: Env)
    requires WellFormed(c) && m < |c.kinds|
    ensures c.refCodes[m] != 2 ==> ParseAccTail(ParamAt(c, m, env).accession) == c.accessions[m]
    ensures c.unitRefs[m] != 2 ==> ParseAccTail(ParamAt(c, m, env).unitAccession) == c.unitAccessions[m]
  {
    if c.refCodes[m] != 2 {
      NotNcit(c.refCodes[m]);
      ParseAccTailOfMakeAccession(CvRefFromCode(c.refCodes[m]), c.accessions[m]);
    }
    if c.unitRefs[m] != 2 {
      NotNcit(c.unitRefs[m]);
      ParseAccTailOfMakeAccession(CvRefFromCode(c.unitRefs[m]), c.unitAccessions[m]);
    }
  }

  lemma NotNcit(code: byte)
    requires code != 2
    ensures CvRefFromCode(code) != Some("NCIT")
  {
    if code <= 3 {
      assert CvRefFromCode(code).value != "NCIT";
    }
  }
}
