/**
 * Metadata sections may be compressed; writers sometimes leave zero padding after
 * the compressed stream. `decompress_zlib_allow_pad0` and `decompress_zstd_allow_pad0`
 * (crates/parser/src/utilities/decode.rs) retry with up to seven trailing zero bytes
 * removed, one at a time. The decoders themselves are parameters.
 */
module MetaInflate {
  import opened Wrappers
  import opened BlockContainer

  const MAX_PAD_TRIMS: nat := 7

  /** How many trailing zero bytes the retry loop may strip, counting from `i` and capped at `cap`. */
  function TrailingZeros(s: seq<byte>, cap: nat, i: nat): (t: nat)
    requires i <= cap && i <= |s|
    ensures i <= t <= cap && t <= |s|
    decreases cap - i
  {
    if i < cap && i < |s| && s[|s| - 1 - i] == 0 then TrailingZeros(s, cap, i + 1) else i
  }

  /** The trimmed count is exactly the run of trailing zeros, cut at `cap`. */
  lemma {:induction false} TrailingZerosExact(s: seq<byte>, cap: nat, i: nat)
    requires i <= cap && i <= |s|
    requires forall j :: |s| - i <= j < |s| ==> s[j] == 0
    ensures var t := TrailingZeros(s, cap, i);
      && (forall j :: |s| - t <= j < |s| ==> s[j] == 0)
      && (t < cap && t < |s| ==> s[|s| - 1 - t] != 0)
    decreases cap - i
  {
    if i < cap && i < |s| && s[|s| - 1 - i] == 0 {
      TrailingZerosExact(s, cap, i + 1);
    }
  }

  /** `input` without its last `t` bytes. */
  function DropLast(input: seq<byte>, t: nat): (r: seq<byte>)
    requires t <= |input|
    ensures |r| == |input| - t && r == input[..|input| - t]
  {
    input[..|input| - t]
  }

  /** The first of `input` minus `t`, `t+1`, ..., `last` trailing bytes that `f` decodes. */
  function FirstDecoded(f: seq<byte> -> Option<seq<byte>>, input: seq<byte>, t: nat, last: nat): Option<seq<byte>>
    requires last <= |input|
    decreases last + 1 - t
  {
    if t > last then None
    else match f(DropLast(input, t))
      case Some(v) => Some(v)
      case None => FirstDecoded(f, input, t + 1, last)
  }

  /** What the retry loop yields: the first trim, fewest bytes removed first, that decodes. */
  function AllowPad0(f: seq<byte> -> Option<seq<byte>>, input: seq<byte>): Option<seq<byte>>
  {
    FirstDecoded(f, input, 0, TrailingZeros(input, MAX_PAD_TRIMS, 0))
  }

  /**
   * A success is the decoding of `input` with some `t <= 7` trailing zero bytes removed,
   * and no shorter trim decodes.
   */
  lemma {:induction false} FirstDecodedSound(f: seq<byte> -> Option<seq<byte>>, input: seq<byte>, t: nat, last: nat)
    returns (k: nat)
    requires last <= |input| && FirstDecoded(f, input, t, last).Some?
    ensures t <= k <= last && f(DropLast(input, k)) == FirstDecoded(f, input, t, last)
    ensures forall j :: t <= j < k ==> f(DropLast(input, j)).None?
    decreases last + 1 - t
  {
    if f(DropLast(input, t)).Some? {
      k := t;
    } else {
      k := FirstDecodedSound(f, input, t + 1, last);
    }
  }

  lemma {:induction false} FirstDecodedComplete(f: seq<byte> -> Option<seq<byte>>, input: seq<byte>, t: nat, last: nat)
    requires last <= |input| && FirstDecoded(f, input, t, last).None?
    ensures forall j :: t <= j <= last ==> f(DropLast(input, j)).None?
    decreases last + 1 - t
  {
    if t <= last {
      FirstDecodedComplete(f, input, t + 1, last);
    }
  }

  /** The loop tries at most eight inputs, each `input` minus a run of trailing zeros. */
  lemma AllowPad0Sound(f: seq<byte> -> Option<seq<byte>>, input: seq<byte>) returns (k: nat)
    requires AllowPad0(f, input).Some?
    ensures k <= MAX_PAD_TRIMS && k <= |input|
    ensures forall j :: |input| - k <= j < |input| ==> input[j] == 0
    ensures f(DropLast(input, k)) == AllowPad0(f, input)
    ensures forall j :: 0 <= j < k ==> f(DropLast(input, j)).None?
  {
    TrailingZerosExact(input, MAX_PAD_TRIMS, 0);
    k := FirstDecodedSound(f, input, 0, TrailingZeros(input, MAX_PAD_TRIMS, 0));
  }

  /** A failure means every allowed trim was rejected, up to the run of trailing zeros. */
  lemma AllowPad0Complete(f: seq<byte> -> Option<seq<byte>>, input: seq<byte>)
    requires AllowPad0(f, input).None?
    ensures f(input).None?
    ensures forall j :: 0 <= j <= |input| && j <= MAX_PAD_TRIMS &&
              (forall m :: |input| - j <= m < |input| ==> input[m] == 0)
              ==> f(DropLast(input, j)).None?
  {
    var last := TrailingZeros(input, MAX_PAD_TRIMS, 0);
    TrailingZerosExact(input, MAX_PAD_TRIMS, 0);
    FirstDecodedComplete(f, input, 0, last);
    assert DropLast(input, 0) == input;
    forall j | 0 <= j <= |input| && j <= MAX_PAD_TRIMS &&
               (forall m :: |input| - j <= m < |input| ==> input[m] == 0)
      ensures f(DropLast(input, j)).None?
    {
      if j > last {
        assert false;
      }
    }
  }

  /** The retry loop of `decompress_*_allow_pad0`. */
  method DecompressAllowPad0(f: seq<byte> -> Option<seq<byte>>, input: seq<byte>, failMsg: string)
    returns (r: Result<seq<byte>>)
    ensures r == match AllowPad0(f, input) case Some(v) => Ok(v) case None => Err(failMsg)
  {
    var last := TrailingZeros(input, MAX_PAD_TRIMS, 0);
    assert DropLast(input, 0) == input;
    var first := f(input);
    if first.Some? {
      return Ok(first.value);
    }
    var end := |input|;
    var i := 0;
    while i < MAX_PAD_TRIMS
      invariant 0 <= i <= MAX_PAD_TRIMS && i <= |input| && end == |input| - i
      invariant TrailingZeros(input, MAX_PAD_TRIMS, i) == last
      invariant AllowPad0(f, input) == FirstDecoded(f, input, i + 1, last)
    {
      if end == 0 || input[end - 1] != 0 {
        break;
      }
      end := end - 1;
      var v := f(input[..end]);
      if v.Some? {
        return Ok(v.value);
      }
      i := i + 1;
    }
    return Err(failMsg);
  }

  /**
   * `decompress_meta_if_needed`: uncompressed sections pass through; compressed ones
   * go through the retry loop of the header's codec; any other codec is an error.
   */
  method DecompressMetaIfNeeded(codec: byte, isCompressed: bool, bytes: seq<byte>, inflaters: Inflaters)
    returns (r: Result<seq<byte>>)
    ensures !isCompressed ==> r == Ok(bytes)
    ensures isCompressed && codec == CODEC_ZLIB ==>
              r == match AllowPad0(inflaters.zlib, bytes) case Some(v) => Ok(v) case None => Err("Zlib decompression failed")
    ensures isCompressed && codec == CODEC_ZSTD ==>
              r == match AllowPad0(inflaters.zstdStream, bytes) case Some(v) => Ok(v) case None => Err("Zstd decompression failed")
    ensures isCompressed && codec != CODEC_ZLIB && codec != CODEC_ZSTD ==> r == Err("Unsupported meta codec")
  {
    if !isCompressed {
      return Ok(bytes);
    }
    if codec == CODEC_ZLIB {
      r := DecompressAllowPad0(inflaters.zlib, bytes, "Zlib decompression failed");
    } else if codec == CODEC_ZSTD {
      r := DecompressAllowPad0(inflaters.zstdStream, bytes, "Zstd decompression failed");
    } else {
      r := Err("Unsupported meta codec");
    }
  }
}
