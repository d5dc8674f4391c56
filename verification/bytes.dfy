/**
 * Little-endian field access over byte buffers: the `read_*_at`, `read_slice`
 * and `read_*_vec` helpers of the B000 reader (crates/parser/src/utilities/decode.rs).
 */
module Bytes {
  import opened Wrappers

  function Pow256(k: nat): (r: nat)
    ensures r >= 1
  {
    if k == 0 then 1 else 256 * Pow256(k - 1)
  }

  /** The unsigned integer whose little-endian encoding is `s`. */
  function LeValue(s: seq<byte>): nat
  {
    if |s| == 0 then 0 else s[0] + 256 * LeValue(s[1..])
  }

  /** The `k`-byte little-endian encoding of `n` (high bytes beyond `k` dropped). */
  function LeBytes(n: nat, k: nat): (r: seq<byte>)
    ensures |r| == k
  {
    if k == 0 then [] else [n % 256] + LeBytes(n / 256, k - 1)
  }

  lemma {:induction false} LeValueBound(s: seq<byte>)
    ensures LeValue(s) < Pow256(|s|)
  {
    if |s| > 0 {
      LeValueBound(s[1..]);
    }
  }

  /** Decoding inverts encoding for every value that fits in `k` bytes. */
  lemma {:induction false} LeValueOfBytes(n: nat, k: nat)
    requires n < Pow256(k)
    ensures LeValue(LeBytes(n, k)) == n
  {
    if k > 0 {
      LeValueOfBytes(n / 256, k - 1);
      assert LeBytes(n, k)[1..] == LeBytes(n / 256, k - 1);
    }
  }

  /** Encoding inverts decoding: a byte string is determined by its value and length. */
  lemma {:induction false} LeBytesOfValue(s: seq<byte>)
    ensures LeBytes(LeValue(s), |s|) == s
  {
    if |s| > 0 {
      LeBytesOfValue(s[1..]);
      var v := LeValue(s[1..]);
      assert (s[0] + 256 * v) % 256 == s[0];
      assert (s[0] + 256 * v) / 256 == v;
    }
  }

  /** Two byte strings of equal length with equal values are equal. */
  lemma LeValueInjective(a: seq<byte>, b: seq<byte>)
    requires |a| == |b| && LeValue(a) == LeValue(b)
    ensures a == b
  {
    LeBytesOfValue(a);
    LeBytesOfValue(b);
  }

  lemma Pow256Widths()
    ensures Pow256(1) == U8_LIMIT && Pow256(4) == U32_LIMIT && Pow256(8) == U64_LIMIT
  {
  }

  /** `read_u8_at`: the byte at `o`, or "EOF". */
  function ReadU8At(b: seq<byte>, o: nat): (r: Result<byte>)
    ensures r.Ok? <==> o < |b|
    ensures r.Ok? ==> r.value == b[o]
  {
    if o < |b| then Ok(b[o]) else Err("EOF")
  }

  /** `read_u32_at`: the little-endian u32 stored at bytes `o..o+4`, or "EOF". */
  function ReadU32At(b: seq<byte>, o: nat): (r: Result<u32>)
    ensures r.Ok? <==> o + 4 <= |b|
    ensures r.Ok? ==> LeBytes(r.value, 4) == b[o..o + 4]
  {
    if o + 4 <= |b| then
      LeValueBound(b[o..o + 4]);
      Pow256Widths();
      LeBytesOfValue(b[o..o + 4]);
      Ok(LeValue(b[o..o + 4]))
    else Err("EOF")
  }

  /** `read_u64_at`: the little-endian u64 stored at bytes `o..o+8`, or "EOF". */
  function ReadU64At(b: seq<byte>, o: nat): (r: Result<u64>)
    ensures r.Ok? <==> o + 8 <= |b|
    ensures r.Ok? ==> LeBytes(r.value, 8) == b[o..o + 8]
  {
    if o + 8 <= |b| then
      LeValueBound(b[o..o + 8]);
      Pow256Widths();
      LeBytesOfValue(b[o..o + 8]);
      Ok(LeValue(b[o..o + 8]))
    else Err("EOF")
  }

  /**
   * `read_slice`: the `l` bytes at `o`. Fails with "EOF" when `o + l` overflows
   * a usize or runs past the buffer.
   */
  function ReadSlice(b: seq<byte>, o: nat, l: nat): (r: Result<seq<byte>>)
    ensures r.Ok? <==> o + l <= |b| && o + l < U64_LIMIT
    ensures r.Ok? ==> |r.value| == l && r.value == b[o..o + l]
    ensures r.Err? ==> r.msg == "EOF"
  {
    if o + l >= U64_LIMIT then Err("EOF")
    else if o + l > |b| then Err("EOF")
    else Ok(b[o..o + l])
  }

  /** The `c` little-endian u32 words at the start of `b`. */
  function U32Words(b: seq<byte>, c: nat): (r: seq<nat>)
    requires 4 * c <= |b|
    ensures |r| == c
  {
    seq(c, k requires 0 <= k < c => LeValue(b[4 * k..4 * k + 4]))
  }

  /** The `c` raw 8-byte words at the start of `b` (f64 bit patterns, never interpreted). */
  function U64Words(b: seq<byte>, c: nat): (r: seq<nat>)
    requires 8 * c <= |b|
    ensures |r| == c
  {
    seq(c, k requires 0 <= k < c => LeValue(b[8 * k..8 * k + 8]))
  }

  /** `read_u32_vec` of decode.rs: exactly `c` words, or "EOF" when `b` is too short. */
  method ReadU32Vec(b: seq<byte>, c: nat) returns (r: Result<seq<nat>>)
    ensures r.Ok? <==> 4 * c <= |b|
    ensures r.Ok? ==> |r.value| == c && r.value == U32Words(b, c)
    ensures r.Ok? ==> forall k :: 0 <= k < c ==> r.value[k] < U32_LIMIT
  {
    if |b| < 4 * c {
      return Err("EOF");
    }
    var out: seq<nat> := [];
    var k := 0;
    while k < c
      invariant 0 <= k <= c
      invariant out == U32Words(b, c)[..k]
      invariant forall j :: 0 <= j < k ==> out[j] < U32_LIMIT
    {
      LeValueBound(b[4 * k..4 * k + 4]);
      Pow256Widths();
      out := out + [LeValue(b[4 * k..4 * k + 4])];
      k := k + 1;
    }
    return Ok(out);
  }

  /** `read_f64_vec` of decode.rs: exactly `c` raw 64-bit words, or "EOF". */
  method ReadF64Vec(b: seq<byte>, c: nat) returns (r: Result<seq<nat>>)
    ensures r.Ok? <==> 8 * c <= |b|
    ensures r.Ok? ==> |r.value| == c && r.value == U64Words(b, c)
  {
    if |b| < 8 * c {
      return Err("EOF");
    }
    var out: seq<nat> := [];
    var k := 0;
    while k < c
      invariant 0 <= k <= c
      invariant out == U64Words(b, c)[..k]
    {
      out := out + [LeValue(b[8 * k..8 * k + 8])];
      k := k + 1;
    }
    return Ok(out);
  }

  /** `n` consecutive `w`-byte groups of `b` (the shape of `chunks_exact(w)`). */
  function Chunks(b: seq<byte>, w: nat, n: nat): (r: seq<seq<byte>>)
    requires w * n <= |b|
    ensures |r| == n
    ensures forall k :: 0 <= k < n ==> |r[k]| == w
    ensures n > 0 ==> r[0] == b[..w]
  {
    if n == 0 then []
    else
      assert w * n == w + w * (n - 1);
      [b[..w]] + Chunks(b[w..], w, n - 1)
  }

  /** Chunk `k` is exactly bytes `w*k .. w*k+w` of the input. */
  lemma {:induction false} ChunkAt(b: seq<byte>, w: nat, n: nat, k: nat)
    requires w * n <= |b| && k < n
    ensures w * k + w <= |b| && Chunks(b, w, n)[k] == b[w * k..w * k + w]
  {
    assert w * n == w + w * (n - 1);
    if k > 0 {
      ChunkAt(b[w..], w, n - 1, k - 1);
      assert w * k == w + w * (k - 1);
    }
  }
}
