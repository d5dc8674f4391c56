/**
 * The byte-shuffle array filter of B000 containers. A block of `n` elements of
 * `k` bytes each is stored column-wise: byte `b` of element `i` sits at `b*n + i`.
 * `unshuffle_into` (decode.rs) and `byte_unshuffle_into` (decode2.rs) restore the
 * element-wise layout, where that byte sits at `i*k + b`.
 */
module Shuffle {
  import opened Wrappers
  import opened Arith

  lemma RowIndexBound(p: nat, k: nat, n: nat)
    requires n > 0 && p < k * n
    ensures p / n < k && (p % n) * k + p / n < k * n
  {
    ColumnIndexBound(p, n, k);
  }

  /** Element-wise layout from column-wise layout: result byte `i*k + b` is input byte `b*n + i`. */
  function Unshuffled(src: seq<byte>, k: nat, n: nat): (r: seq<byte>)
    requires k > 0 && |src| == k * n
    ensures |r| == k * n
  {
    seq(k * n, j requires 0 <= j < k * n => ColumnIndexBound(j, k, n); src[(j % k) * n + j / k])
  }

  /** Column-wise layout from element-wise layout (what the writer's shuffle produces). */
  function Shuffled(src: seq<byte>, k: nat, n: nat): (r: seq<byte>)
    requires k > 0 && |src| == k * n
    ensures |r| == k * n
  {
    seq(k * n, p requires 0 <= p < k * n =>
      assert n > 0;
      RowIndexBound(p, k, n);
      src[(p % n) * k + p / n])
  }

  /** The position of byte `b` of element `i` in each layout. */
  lemma UnshuffledAt(src: seq<byte>, k: nat, n: nat, i: nat, b: nat)
    requires k > 0 && |src| == k * n && i < n && b < k
    ensures i * k + b < k * n && b * n + i < k * n
    ensures Unshuffled(src, k, n)[i * k + b] == src[b * n + i]
  {
    var j := i * k + b;
    PairIndexBound(i, b, k, n);
    PairIndexBound(b, i, n, k);
    DivModOf(j, k, i, b);
    ColumnIndexBound(j, k, n);
  }

  lemma ShuffledAt(src: seq<byte>, k: nat, n: nat, i: nat, b: nat)
    requires k > 0 && |src| == k * n && i < n && b < k
    ensures i * k + b < k * n && b * n + i < k * n
    ensures Shuffled(src, k, n)[b * n + i] == src[i * k + b]
  {
    var p := b * n + i;
    PairIndexBound(b, i, n, k);
    DivModOf(p, n, b, i);
    RowIndexBound(p, k, n);
    UnshuffledAt(src, k, n, i, b);
  }

  /** Unshuffling undoes shuffling. */
  lemma UnshuffleShuffle(s: seq<byte>, k: nat, n: nat)
    requires k > 0 && |s| == k * n
    ensures Unshuffled(Shuffled(s, k, n), k, n) == s
  {
    var t := Shuffled(s, k, n);
    forall j | 0 <= j < k * n
      ensures Unshuffled(t, k, n)[j] == s[j]
    {
      var i, b := j / k, j % k;
      ColumnIndexBound(j, k, n);
      DivModOf(j, k, i, b);
      UnshuffledAt(t, k, n, i, b);
      ShuffledAt(s, k, n, i, b);
    }
  }

  /** Shuffling undoes unshuffling: the filter is a permutation of byte positions. */
  lemma ShuffleUnshuffle(s: seq<byte>, k: nat, n: nat)
    requires k > 0 && |s| == k * n
    ensures Shuffled(Unshuffled(s, k, n), k, n) == s
  {
    var t := Unshuffled(s, k, n);
    forall p | 0 <= p < k * n
      ensures Shuffled(t, k, n)[p] == s[p]
    {
      assert n > 0;
      var b, i := p / n, p % n;
      RowIndexBound(p, k, n);
      DivModOf(p, n, b, i);
      ShuffledAt(t, k, n, i, b);
      UnshuffledAt(s, k, n, i, b);
    }
  }

  /** Byte `j` of the element-wise block is written once column `b` has reached row `i`. */
  ghost predicate Written(j: nat, k: nat, b: nat, i: nat)
    requires k > 0
  {
    j % k < b || (j % k == b && j / k < i)
  }

  lemma WrittenStep(j: nat, k: nat, b: nat, i: nat)
    requires k > 0 && b < k
    ensures Written(j, k, b, i + 1) <==> (Written(j, k, b, i) || j == i * k + b)
  {
    if j == i * k + b {
      DivModOf(j, k, i, b);
    } else if j % k == b && j / k == i {
      assert false;
    }
  }

  /**
   * Loop state of the unshuffle: bytes already reached hold their element-wise
   * value `u[j]`; every other byte still holds its original value `o[j]`.
   */
  ghost predicate Progress(d: seq<byte>, o: seq<byte>, u: seq<byte>, k: nat, n: nat, b: nat, i: nat)
    requires k > 0
  {
    |d| == |o| && |u| == k * n <= |d| &&
    forall j :: 0 <= j < |d| ==> d[j] == (if j < k * n && Written(j, k, b, i) then u[j] else o[j])
  }

  lemma InnerStep(d: seq<byte>, o: seq<byte>, s: seq<byte>, k: nat, n: nat, b: nat, i: nat)
    requires k > 0 && |s| == k * n && b < k && i < n
    requires Progress(d, o, Unshuffled(s, k, n), k, n, b, i)
    ensures i * k + b < k * n && b * n + i < k * n
    ensures Progress(d[i * k + b := s[b * n + i]], o, Unshuffled(s, k, n), k, n, b, i + 1)
  {
    var u := Unshuffled(s, k, n);
    var p := i * k + b;
    UnshuffledAt(s, k, n, i, b);
    var d' := d[p := s[b * n + i]];
    forall j | 0 <= j < |d'|
      ensures d'[j] == (if j < k * n && Written(j, k, b, i + 1) then u[j] else o[j])
    {
      WrittenStep(j, k, b, i);
    }
  }

  lemma OuterStep(d: seq<byte>, o: seq<byte>, u: seq<byte>, k: nat, n: nat, b: nat)
    requires k > 0 && b < k
    requires Progress(d, o, u, k, n, b, n)
    ensures Progress(d, o, u, k, n, b + 1, 0)
  {
    forall j | 0 <= j < k * n
      ensures Written(j, k, b, n) <==> Written(j, k, b + 1, 0)
    {
      ColumnIndexBound(j, k, n);
    }
  }

  /**
   * The double loop both readers share: for each column `b < k` and element
   * `i < n`, `dst[i*k + b] := src[b*n + i]`. Bytes of `dst` past `k*n` are left alone.
   */
  method UnshuffleColumns(dst: array<byte>, src: seq<byte>, k: nat, n: nat)
    requires k > 0 && k * n <= |src| && k * n <= dst.Length
    modifies dst
    ensures dst[..k * n] == Unshuffled(src[..k * n], k, n)
    ensures dst[k * n..] == old(dst[k * n..])
  {
    ghost var s := src[..k * n];
    ghost var u := Unshuffled(s, k, n);
    ghost var o := dst[..];
    for b := 0 to k
      invariant Progress(dst[..], o, u, k, n, b, 0)
    {
      for i := 0 to n
        invariant Progress(dst[..], o, u, k, n, b, i)
      {
        InnerStep(dst[..], o, s, k, n, b, i);
        ghost var before := dst[..];
        dst[i * k + b] := src[b * n + i];
        assert dst[..] == before[i * k + b := s[b * n + i]];
      }
      OuterStep(dst[..], o, u, k, n, b);
    }
    forall j | 0 <= j < k * n
      ensures Written(j, k, k, 0)
    {
      ColumnIndexBound(j, k, n);
    }
  }

  /**
   * `unshuffle_into` (decode.rs): fails when the lengths differ, copies when the
   * element size is at most 1, fails when the length is not a whole number of
   * elements, and otherwise writes the element-wise layout of `src` into `dst`.
   */
  method UnshuffleInto(dst: array<byte>, src: seq<byte>, elemSize: nat) returns (r: Outcome)
    modifies dst
    ensures r.Pass? <==> dst.Length == |src| && (elemSize <= 1 || |src| % elemSize == 0)
    ensures r.Pass? && elemSize <= 1 ==> dst[..] == src
    ensures r.Pass? && elemSize > 1 ==>
      dst[..] == Unshuffled(src, elemSize, |src| / elemSize)
    ensures r.Fail? ==> dst[..] == old(dst[..])
    ensures r.Fail? ==> r.msg == if dst.Length != |src| then "unshuffle size mismatch"
                                 else "unshuffle: invalid byte length"
  {
    if dst.Length != |src| {
      return Fail("unshuffle size mismatch");
    }
    if elemSize <= 1 {
      forall j | 0 <= j < dst.Length {
        dst[j] := src[j];
      }
      return Pass;
    }
    if |src| % elemSize != 0 {
      return Fail("unshuffle: invalid byte length");
    }
    var n := |src| / elemSize;
    assert elemSize * n == |src|;
    UnshuffleColumns(dst, src, elemSize, n);
    assert src[..elemSize * n] == src;
    assert dst[..] == dst[..elemSize * n];
    return Pass;
  }

  /**
   * `byte_unshuffle_into` (decode2.rs): `count = |input| / elemSize` whole elements
   * are unshuffled into `output`; trailing bytes of `output` keep their old values.
   * The source indexes out of bounds (panics) when `output` is shorter than that.
   */
  method ByteUnshuffleInto(input: seq<byte>, output: array<byte>, elemSize: nat)
    requires elemSize > 0 && elemSize * (|input| / elemSize) <= output.Length
    modifies output
    ensures var m := elemSize * (|input| / elemSize);
      && output[..m] == Unshuffled(input[..m], elemSize, |input| / elemSize)
      && output[m..] == old(output[m..])
  {
    var count := |input| / elemSize;
    UnshuffleColumns(output, input, elemSize, count);
  }
}
