/**
 * Cursor reads of crates/parser/src/b64/utilities/common.rs (`take`, `read_u32_vec`,
 * `read_f64_vec`, `vs_len_bytes`) and the field readers of decode2.rs built on
 * them (`read_u32_le_at`, `read_u64_le_at`). The Rust code advances a `&mut usize`;
 * here the position goes in and the new position comes out.
 */
module Cursor {
  import opened Wrappers
  import opened Bytes
  import opened Text

  /** The message `take` gives when the input ends too early. */
  function EofMessage(field: string, n: nat, pos: nat, len: nat): string
  {
    "unexpected EOF while reading " + field + ": need " + Decimal(n) + " bytes at pos " + Decimal(pos) +
    ", len " + Decimal(len)
  }

  /**
   * `take`: the `n` bytes at `pos` and the position after them; on overflow or
   * end of input an error naming the field, and the position stays where it was.
   */
  method Take(bytes: seq<byte>, pos: nat, n: nat, field: string) returns (r: Result<seq<byte>>, pos': nat)
    ensures r.Ok? <==> pos + n < U64_LIMIT && pos + n <= |bytes|
    ensures r.Ok? ==> r.value == bytes[pos..pos + n] && pos' == pos + n
    ensures r.Err? ==> pos' == pos
    ensures r.Err? ==> r.msg == if pos + n >= U64_LIMIT then "overflow while reading " + field
                                else EofMessage(field, n, pos, |bytes|)
  {
    if pos + n >= U64_LIMIT {
      return Err("overflow while reading " + field), pos;
    }
    var end := pos + n;
    if end > |bytes| {
      return Err(EofMessage(field, n, pos, |bytes|)), pos;
    }
    return Ok(bytes[pos..end]), end;
  }

  /** `read_u32_le_at` (decode2.rs): a little-endian u32 at the cursor. */
  method ReadU32LeAt(bytes: seq<byte>, pos: nat, field: string) returns (r: Result<u32>, pos': nat)
    ensures r.Ok? <==> pos + 4 < U64_LIMIT && pos + 4 <= |bytes|
    ensures r.Ok? ==> LeBytes(r.value, 4) == bytes[pos..pos + 4] && pos' == pos + 4
    ensures r.Err? ==> pos' == pos
  {
    var s;
    s, pos' := Take(bytes, pos, 4, field);
    if s.Err? {
      return Err(s.msg), pos';
    }
    LeValueBound(s.value);
    Pow256Widths();
    LeBytesOfValue(s.value);
    return Ok(LeValue(s.value)), pos';
  }

  /** `read_u64_le_at` (decode2.rs): a little-endian u64 at the cursor. */
  method ReadU64LeAt(bytes: seq<byte>, pos: nat, field: string) returns (r: Result<u64>, pos': nat)
    ensures r.Ok? <==> pos + 8 < U64_LIMIT && pos + 8 <= |bytes|
    ensures r.Ok? ==> LeBytes(r.value, 8) == bytes[pos..pos + 8] && pos' == pos + 8
    ensures r.Err? ==> pos' == pos
  {
    var s;
    s, pos' := Take(bytes, pos, 8, field);
    if s.Err? {
      return Err(s.msg), pos';
    }
    LeValueBound(s.value);
    Pow256Widths();
    LeBytesOfValue(s.value);
    return Ok(LeValue(s.value)), pos';
  }

  /** The message a `usize` multiplication that overflows stands for (a panic in the source). */
  const MUL_OVERFLOW: string := "attempt to multiply with overflow"

  /** The message an index past the end of a slice stands for (a panic in the source). */
  const INDEX_OUT_OF_BOUNDS: string := "index out of bounds"

  /**
   * `read_u32_vec` (common.rs): `n` little-endian u32s at the cursor, which moves by
   * `4*n`. The byte count `n * 4` is `usize` arithmetic; when it overflows the source
   * panics, which is an error here.
   */
  method ReadU32VecAt(bytes: seq<byte>, pos: nat, n: nat) returns (r: Result<seq<nat>>, pos': nat)
    ensures r.Ok? <==> 4 * n < U64_LIMIT && pos + 4 * n < U64_LIMIT && pos + 4 * n <= |bytes|
    ensures 4 * n >= U64_LIMIT ==> r == Err(MUL_OVERFLOW)
    ensures r.Ok? ==> r.value == U32Words(bytes[pos..pos + 4 * n], n) && pos' == pos + 4 * n
    ensures r.Ok? ==> forall k :: 0 <= k < n ==> r.value[k] < U32_LIMIT
    ensures r.Err? ==> pos' == pos
  {
    if n * 4 >= U64_LIMIT {
      return Err(MUL_OVERFLOW), pos;
    }
    var raw;
    raw, pos' := Take(bytes, pos, n * 4, "u32 vector");
    if raw.Err? {
      return Err(raw.msg), pos';
    }
    r := ReadU32Vec(raw.value, n);
  }

  /**
   * `read_f64_vec` (common.rs): `n` f64s at the cursor, as their 64-bit patterns; an
   * overflowing byte count `n * 8` is an error.
   */
  method ReadF64VecAt(bytes: seq<byte>, pos: nat, n: nat) returns (r: Result<seq<nat>>, pos': nat)
    ensures r.Ok? <==> 8 * n < U64_LIMIT && pos + 8 * n < U64_LIMIT && pos + 8 * n <= |bytes|
    ensures 8 * n >= U64_LIMIT ==> r == Err(MUL_OVERFLOW)
    ensures r.Ok? ==> r.value == U64Words(bytes[pos..pos + 8 * n], n) && pos' == pos + 8 * n
    ensures r.Err? ==> pos' == pos
  {
    if n * 8 >= U64_LIMIT {
      return Err(MUL_OVERFLOW), pos;
    }
    var raw;
    raw, pos' := Take(bytes, pos, n * 8, "f64 vector");
    if raw.Err? {
      return Err(raw.msg), pos';
    }
    r := ReadF64Vec(raw.value, n);
  }

  /** String row `j` (`vk[j] == 1`) has an index that points at an existing offset and length. */
  predicate StringRowOk(vk: seq<byte>, vi: seq<u32>, voff: seq<u32>, vlen: seq<u32>, j: nat)
    requires j < |vk|
  {
    vk[j] == 1 ==> j < |vi| && vi[j] < |voff| && vi[j] < |vlen|
  }

  /** Every string row points at an existing offset and length. */
  predicate StringRowsInRange(vk: seq<byte>, vi: seq<u32>, voff: seq<u32>, vlen: seq<u32>)
  {
    forall j :: 0 <= j < |vk| ==> StringRowOk(vk, vi, voff, vlen, j)
  }

  /** Where string `idx` ends in the string data. */
  function StringEnd(voff: seq<u32>, vlen: seq<u32>, idx: nat): nat
    requires idx < |voff| && idx < |vlen|
  {
    voff[idx] as nat + vlen[idx] as nat
  }

  /**
   * `vs_len_bytes`: how many bytes of string data the string rows reach, i.e. the
   * largest `StringEnd(voff, vlen, vi[j])` over string rows, or 0 when there are none.
   * The source reads `vi[j]` only for string rows; the first bad string row decides
   * the error: past the end of `vi` (a panic in the source) or pointing past the
   * offset and length columns. The overflow check cannot fire, since two u32 values
   * always sum below 2^64.
   */
  method VsLenBytes(vk: seq<byte>, vi: seq<u32>, voff: seq<u32>, vlen: seq<u32>) returns (r: Result<nat>)
    ensures r.Ok? <==> StringRowsInRange(vk, vi, voff, vlen)
    ensures r.Err? ==>
              exists j :: 0 <= j < |vk| && !StringRowOk(vk, vi, voff, vlen, j) &&
                (forall i :: 0 <= i < j ==> StringRowOk(vk, vi, voff, vlen, i)) &&
                r.msg == if j >= |vi| then INDEX_OUT_OF_BOUNDS else "string VI out of range"
    ensures r.Ok? ==> forall j :: 0 <= j < |vk| && vk[j] == 1 ==>
              StringRowOk(vk, vi, voff, vlen, j) && StringEnd(voff, vlen, vi[j]) <= r.value
    ensures r.Ok? ==>
              r.value == 0 || exists j :: 0 <= j < |vk| && vk[j] == 1 && StringRowOk(vk, vi, voff, vlen, j) &&
                                         StringEnd(voff, vlen, vi[j]) == r.value
  {
    var maxEnd := 0;
    for j := 0 to |vk|
      invariant forall i :: 0 <= i < j ==> StringRowOk(vk, vi, voff, vlen, i)
      invariant forall i :: 0 <= i < j && vk[i] == 1 ==>
                  StringRowOk(vk, vi, voff, vlen, i) && StringEnd(voff, vlen, vi[i]) <= maxEnd
      invariant maxEnd == 0 || exists i :: 0 <= i < j && vk[i] == 1 && StringRowOk(vk, vi, voff, vlen, i) &&
                                            StringEnd(voff, vlen, vi[i]) == maxEnd
    {
      if vk[j] != 1 {
        continue;
      }
      if j >= |vi| {
        assert !StringRowOk(vk, vi, voff, vlen, j);
        return Err(INDEX_OUT_OF_BOUNDS);
      }
      var idx := vi[j];
      if idx >= |voff| || idx >= |vlen| {
        assert !StringRowOk(vk, vi, voff, vlen, j);
        return Err("string VI out of range");
      }
      var end := StringEnd(voff, vlen, idx);
      if end > maxEnd {
        maxEnd := end;
      }
    }
    return Ok(maxEnd);
  }
}
