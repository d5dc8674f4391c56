/**
 * String helpers with Rust's semantics: `split_once`, `rsplit_once`, `trim`,
 * `to_ascii_lowercase`, zero-padded decimal formatting (`{:07}`) and
 * `str::parse` for unsigned integers.
 */
module Text {
  import opened Wrappers

  predicate IsDigit(c: char) { '0' <= c <= '9' }

  function DigitVal(c: char): nat
    requires IsDigit(c)
  {
    (c as int) - ('0' as int)
  }

  function DigitChar(d: nat): (c: char)
    requires d < 10
    ensures IsDigit(c) && DigitVal(c) == d
  {
    (('0' as int) + d) as char
  }

  predicate AllDigits(s: string) { forall i :: 0 <= i < |s| ==> IsDigit(s[i]) }

  /** Reads the digit string `s` into the running value `acc`, most significant first. */
  function Horner(acc: nat, s: string): (r: nat)
    requires AllDigits(s)
    decreases s
  {
    if |s| == 0 then acc else Horner(acc * 10 + DigitVal(s[0]), s[1..])
  }

  lemma {:induction false} HornerAppend(acc: nat, s: string, c: char)
    requires AllDigits(s) && IsDigit(c)
    ensures AllDigits(s + [c]) && Horner(acc, s + [c]) == Horner(acc, s) * 10 + DigitVal(c)
    decreases s
  {
    if |s| > 0 {
      assert (s + [c])[1..] == s[1..] + [c];
      HornerAppend(acc * 10 + DigitVal(s[0]), s[1..], c);
    }
  }

  lemma {:induction false} HornerAtLeast(acc: nat, s: string)
    requires AllDigits(s)
    ensures Horner(acc, s) >= acc
    decreases s
  {
    if |s| > 0 {
      HornerAtLeast(acc * 10 + DigitVal(s[0]), s[1..]);
    }
  }

  /** The shortest decimal rendering of `n` (Rust's `{}` for an unsigned integer). */
  function Decimal(n: nat): (r: string)
    ensures |r| >= 1 && AllDigits(r)
  {
    if n < 10 then [DigitChar(n)] else Decimal(n / 10) + [DigitChar(n % 10)]
  }

  /** Parsing a rendered decimal gives the number back. */
  lemma {:induction false} DecimalValue(n: nat)
    ensures Horner(0, Decimal(n)) == n
  {
    if n >= 10 {
      DecimalValue(n / 10);
      HornerAppend(0, Decimal(n / 10), DigitChar(n % 10));
    }
  }

  function Zeros(k: nat): (r: string)
    ensures |r| == k && AllDigits(r)
  {
    if k == 0 then "" else "0" + Zeros(k - 1)
  }

  /** Rust's `{:0w}`: left-pad with '0' up to width `w`. */
  function ZeroPad(s: string, w: nat): (r: string)
    ensures r == Zeros(if |s| < w then w - |s| else 0) + s
  {
    Zeros(if |s| < w then w - |s| else 0) + s
  }

  /** Leading zeros do not change a decimal value. */
  lemma {:induction false} LeadingZerosValue(k: nat, s: string)
    requires AllDigits(s)
    ensures AllDigits(Zeros(k) + s) && Horner(0, Zeros(k) + s) == Horner(0, s)
  {
    if k > 0 {
      var t := Zeros(k) + s;
      assert t[0] == '0' && t[1..] == Zeros(k - 1) + s;
      assert Horner(0, t) == Horner(0 * 10 + DigitVal(t[0]), t[1..]);
      LeadingZerosValue(k - 1, s);
    } else {
      assert Zeros(k) + s == s;
    }
  }

  /**
   * Rust's `str::parse` for an unsigned integer type whose values are below `limit`:
   * an optional '+', then one or more ASCII digits, and no overflow.
   */
  function ParseUnsigned(s: string, limit: nat): (r: Option<nat>)
    ensures r.Some? ==> r.value < limit
  {
    var digits := if |s| > 0 && s[0] == '+' then s[1..] else s;
    if |digits| == 0 || !AllDigits(digits) then None
    else if Horner(0, digits) < limit then Some(Horner(0, digits))
    else None
  }

  function ParseU32(s: string): (r: Option<nat>)
    ensures r.Some? ==> r.value < U32_LIMIT
  {
    ParseUnsigned(s, U32_LIMIT)
  }

  /** A zero-padded rendering parses back to the number it renders. */
  lemma ParsePadded(n: nat, w: nat, limit: nat)
    requires n < limit
    ensures ParseUnsigned(ZeroPad(Decimal(n), w), limit) == Some(n)
  {
    var k := if |Decimal(n)| < w then w - |Decimal(n)| else 0;
    LeadingZerosValue(k, Decimal(n));
    DecimalValue(n);
  }

  /** A string with a character that is neither a digit nor a leading '+' never parses. */
  lemma ParseRejectsNonDigit(s: string, i: nat, limit: nat)
    requires 0 < i < |s| && !IsDigit(s[i])
    ensures ParseUnsigned(s, limit) == None
  {
    var digits := if |s| > 0 && s[0] == '+' then s[1..] else s;
    if s[0] == '+' {
      assert digits[i - 1] == s[i];
    } else {
      assert digits[i] == s[i];
    }
  }

  /** Index of the first `c` in `s`. */
  function IndexOf(s: string, c: char): (r: Option<nat>)
    ensures r.None? <==> c !in s
    ensures r.Some? ==> r.value < |s| && s[r.value] == c && c !in s[..r.value]
  {
    if |s| == 0 then None
    else if s[0] == c then Some(0)
    else
      match IndexOf(s[1..], c)
      case None => None
      case Some(i) =>
        assert s[..i + 1] == [s[0]] + s[1..][..i];
        Some(i + 1)
  }

  /** Index of the last `c` in `s`. */
  function LastIndexOf(s: string, c: char): (r: Option<nat>)
    ensures r.None? <==> c !in s
    ensures r.Some? ==> r.value < |s| && s[r.value] == c && c !in s[r.value + 1..]
  {
    if |s| == 0 then None
    else if s[|s| - 1] == c then Some(|s| - 1)
    else
      match LastIndexOf(s[..|s| - 1], c)
      case None => None
      case Some(i) =>
        assert s[i + 1..] == s[..|s| - 1][i + 1..] + [s[|s| - 1]];
        Some(i)
  }

  /** Rust's `split_once(c)`: the parts before and after the first `c`. */
  function SplitOnce(s: string, c: char): (r: Option<(string, string)>)
    ensures r.None? <==> c !in s
    ensures r.Some? ==> s == r.value.0 + [c] + r.value.1 && c !in r.value.0
  {
    match IndexOf(s, c)
    case None => None
    case Some(i) =>
      assert s == s[..i] + [c] + s[i + 1..];
      Some((s[..i], s[i + 1..]))
  }

  /** Rust's `rsplit_once(c)`: the parts before and after the last `c`. */
  function RSplitOnce(s: string, c: char): (r: Option<(string, string)>)
    ensures r.None? <==> c !in s
    ensures r.Some? ==> s == r.value.0 + [c] + r.value.1 && c !in r.value.1
  {
    match LastIndexOf(s, c)
    case None => None
    case Some(i) =>
      assert s == s[..i] + [c] + s[i + 1..];
      Some((s[..i], s[i + 1..]))
  }

  /** The text after the last `c`, or all of `s` (`rsplit(c).next()` / `rsplit_once` fallback). */
  function AfterLast(s: string, c: char): (r: string)
    ensures c !in r
    ensures c !in s ==> r == s
    ensures c in s ==> exists a :: s == a + [c] + r
  {
    match RSplitOnce(s, c)
    case None => s
    case Some((a, b)) => b
  }

  /** A string starting with neither '+' nor a digit never parses. */
  lemma ParseRejectsLeading(s: string, limit: nat)
    requires |s| > 0 && s[0] != '+' && !IsDigit(s[0])
    ensures ParseUnsigned(s, limit) == None
  {
  }

  /** The text after the last `c` of `p + [c] + t` is `t` whenever `t` has no `c`. */
  lemma AfterLastOf(p: string, t: string, c: char)
    requires c !in t
    ensures AfterLast(p + [c] + t, c) == t
  {
    var s := p + [c] + t;
    assert s[|p|] == c;
    var r := RSplitOnce(s, c);
    var (a, b) := r.value;
    if |b| < |t| {
      assert false;
    } else if |b| > |t| {
      assert false;
    }
    assert b == s[|s| - |b|..] == t;
  }

  /** Text before the first `c` of `p + [c] + t` is `p` whenever `p` has no `c`. */
  lemma SplitOnceOf(p: string, t: string, c: char)
    requires c !in p
    ensures SplitOnce(p + [c] + t, c) == Some((p, t))
  {
    var s := p + [c] + t;
    assert s[|p|] == c;
    var (a, b) := SplitOnce(s, c).value;
    if |a| < |p| {
      assert false;
    } else if |a| > |p| {
      assert false;
    }
    assert a == s[..|a|] == p;
    assert b == s[|a| + 1..] == t;
  }

  lemma DigitsHaveNo(s: string, c: char)
    requires AllDigits(s) && !IsDigit(c)
    ensures c !in s
  {
  }

  predicate StartsWith(s: string, p: string) { |p| <= |s| && s[..|p|] == p }

  function ToAsciiLowerChar(c: char): char
  {
    if 'A' <= c <= 'Z' then ((c as int) + 32) as char else c
  }

  function ToAsciiLower(s: string): (r: string)
    ensures |r| == |s|
    ensures forall i :: 0 <= i < |s| ==> r[i] == ToAsciiLowerChar(s[i])
  {
    seq(|s|, i requires 0 <= i < |s| => ToAsciiLowerChar(s[i]))
  }

  /** Rust's `char::is_whitespace`: the Unicode White_Space characters. */
  predicate IsSpace(c: char)
  {
    ('\t' <= c <= '\r') || c == ' ' || c == '\U{0085}' || c == '\U{00A0}' || c == '\U{1680}' ||
    ('\U{2000}' <= c <= '\U{200A}') || c == '\U{2028}' || c == '\U{2029}' || c == '\U{202F}' ||
    c == '\U{205F}' || c == '\U{3000}'
  }

  function TrimStart(s: string): (r: string)
    ensures |r| <= |s| && r == s[|s| - |r|..]
    ensures |r| > 0 ==> !IsSpace(r[0])
  {
    if |s| > 0 && IsSpace(s[0]) then TrimStart(s[1..]) else s
  }

  function TrimEnd(s: string): (r: string)
    ensures |r| <= |s| && r == s[..|r|]
    ensures |r| > 0 ==> !IsSpace(r[|r| - 1])
  {
    if |s| > 0 && IsSpace(s[|s| - 1]) then TrimEnd(s[..|s| - 1]) else s
  }

  /** Rust's `str::trim`. */
  function Trim(s: string): (r: string)
    ensures |r| <= |s|
    ensures |r| > 0 ==> !IsSpace(r[0]) && !IsSpace(r[|r| - 1])
  {
    TrimEnd(TrimStart(s))
  }
}
