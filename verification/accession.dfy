/**
 * Controlled-vocabulary accessions such as "MS:1000514": the binary form stores a
 * vocabulary code and a number; the reader turns them back into text
 * (`cv_ref_from_code`, `make_accession`, `cv_name_from_code`, `parse_acc_tail` in
 * crates/parser/src/utilities/decode.rs) and takes accessions apart again
 * (`split_prefix`, `is_cv_prefix`, `unit_cv_ref`, `parse_accession_tail_str` in
 * crates/parser/src/b64/utilities/common.rs).
 */
module Accession {
  import opened Wrappers
  import opened Text

  /** The four vocabularies with their own binary code. */
  predicate IsCvPrefix(p: string)
  {
    p == "MS" || p == "UO" || p == "NCIT" || p == "PEFF"
  }

  /** `cv_ref_from_code`: codes 0..3 name MS, UO, NCIT and PEFF; any other code names none. */
  function CvRefFromCode(c: byte): (r: Option<string>)
    ensures r.Some? <==> c <= 3
    ensures r.Some? ==> IsCvPrefix(r.value)
  {
    match c
    case 0 => Some("MS")
    case 1 => Some("UO")
    case 2 => Some("NCIT")
    case 3 => Some("PEFF")
    case _ => None
  }

  /** Each vocabulary has exactly one code. */
  lemma CvRefCodeBijective(p: string) returns (c: byte)
    requires IsCvPrefix(p)
    ensures CvRefFromCode(c) == Some(p)
    ensures forall d: byte :: CvRefFromCode(d) == Some(p) ==> d == c
  {
    c := if p == "MS" then 0 else if p == "UO" then 1 else if p == "NCIT" then 2 else 3;
  }

  /** `{:07}`-style decimal rendering. */
  function Padded(a: nat, width: nat): (r: string)
    ensures AllDigits(r) && |r| >= width
  {
    ZeroPad(Decimal(a), width)
  }

  /**
   * `make_accession`: no accession for number 0; "MS", "UO" and "PEFF" get a 7-digit
   * zero-padded number, "NCIT" gets "C" and 5 digits, another vocabulary the plain
   * number after a colon, and no vocabulary the bare number.
   */
  function MakeAccession(r: Option<string>, a: u32): (acc: Option<string>)
    ensures acc.None? <==> a == 0
  {
    if a == 0 then None
    else match r
      case Some(p) =>
        if p == "MS" || p == "UO" || p == "PEFF" then Some(p + ":" + Padded(a, 7))
        else if p == "NCIT" then Some("NCIT:C" + Padded(a, 5))
        else Some(p + ":" + Decimal(a))
      case None => Some(Decimal(a))
  }

  /** `parse_acc_tail`: the text after the last ':' (or all of it) as a u32, else 0. */
  function ParseAccTail(acc: Option<string>): (t: u32)
    ensures acc.None? ==> t == 0
    ensures acc.Some? && ParseU32(AfterLast(acc.value, ':')).Some? ==> t == ParseU32(AfterLast(acc.value, ':')).value
  {
    match acc
    case None => 0
    case Some(s) => ParseU32(AfterLast(s, ':')).GetOr(0)
  }

  /** A padded rendering reads back as its number. */
  lemma PaddedValue(a: nat, width: nat)
    ensures |Padded(a, width)| > 0 && Horner(0, Padded(a, width)) == a
  {
    var k := if |Decimal(a)| < width then width - |Decimal(a)| else 0;
    LeadingZerosValue(k, Decimal(a));
    DecimalValue(a);
  }

  /** The text after the last ':' of an accession the reader built is the number's digits. */
  lemma MakeAccessionTail(r: Option<string>, a: u32)
    requires r != Some("NCIT") && a != 0
    ensures var t := AfterLast(MakeAccession(r, a).value, ':');
      |t| > 0 && AllDigits(t) && Horner(0, t) == a
  {
    match r
    case Some(p) =>
      var w := if p == "MS" || p == "UO" || p == "PEFF" then 7 else 0;
      var t := Padded(a, w);
      assert ZeroPad(Decimal(a), 0) == Decimal(a);
      assert MakeAccession(r, a).value == p + [':'] + t;
      DigitsHaveNo(t, ':');
      AfterLastOf(p, t, ':');
      PaddedValue(a, w);
    case None =>
      DigitsHaveNo(Decimal(a), ':');
      DecimalValue(a);
  }

  /**
   * Reading the number back out of an accession the reader built gives the stored
   * number, for every vocabulary except NCIT.
   */
  lemma ParseAccTailOfMakeAccession(r: Option<string>, a: u32)
    requires r != Some("NCIT")
    ensures ParseAccTail(MakeAccession(r, a)) == a
  {
    if a != 0 {
      MakeAccessionTail(r, a);
      var t := AfterLast(MakeAccession(r, a).value, ':');
      assert t[0] != '+';
    }
  }

  /** NCIT accessions carry a "C" before the number, so their tail never parses and reads as 0. */
  lemma ParseAccTailOfNcit(a: u32)
    ensures ParseAccTail(MakeAccession(Some("NCIT"), a)) == 0
  {
    if a != 0 {
      var t := "C" + Padded(a, 5);
      DigitsHaveNo(Padded(a, 5), ':');
      AfterLastOf("NCIT", t, ':');
      assert "NCIT:C" + Padded(a, 5) == "NCIT" + [':'] + t;
      ParseRejectsLeading(t, U32_LIMIT);
    }
  }

  /**
   * `cv_name_from_code`: the vocabulary table's name for "<ref>:<7-digit number>";
   * none for number 0, no vocabulary, or a key missing from the table.
   */
  function CvNameFromCode(r: Option<string>, a: u32, cvTable: map<string, string>): (name: Option<string>)
    ensures name.Some? <==> a != 0 && r.Some? && r.value + ":" + Padded(a, 7) in cvTable
  {
    if a == 0 || r.None? then None
    else
      var key := r.value + ":" + Padded(a, 7);
      if key in cvTable then Some(cvTable[key]) else None
  }

  /** For MS, UO and PEFF the name is looked up under the accession itself. */
  lemma CvNameIsAccessionName(p: string, a: u32, cvTable: map<string, string>)
    requires (p == "MS" || p == "UO" || p == "PEFF") && a != 0
    ensures MakeAccession(Some(p), a).value in cvTable ==>
              CvNameFromCode(Some(p), a, cvTable) == Some(cvTable[MakeAccession(Some(p), a).value])
    ensures MakeAccession(Some(p), a).value !in cvTable ==> CvNameFromCode(Some(p), a, cvTable).None?
  {
  }

  /** `split_prefix`: the accession split at its first ':'. */
  function SplitPrefix(acc: string): (r: Option<(string, string)>)
    ensures r.None? <==> ':' !in acc
    ensures r.Some? ==> acc == r.value.0 + ":" + r.value.1 && ':' !in r.value.0
  {
    SplitOnce(acc, ':')
  }

  /** `unit_cv_ref`: the vocabulary prefix of a unit accession, when it has one. */
  function UnitCvRef(unitAccession: Option<string>): (r: Option<string>)
    ensures r.Some? <==> unitAccession.Some? && ':' in unitAccession.value
    ensures r.Some? ==> ':' !in r.value && exists rest :: unitAccession.value == r.value + ":" + rest
  {
    match unitAccession
    case None => None
    case Some(u) =>
      match SplitPrefix(u)
      case None => None
      case Some((p, rest)) => Some(p)
  }

  /** The unit vocabulary read back from a unit accession the reader built is the vocabulary it was built from. */
  lemma UnitCvRefOfMakeAccession(p: string, a: u32)
    requires a != 0 && ':' !in p && p != "NCIT"
    ensures UnitCvRef(MakeAccession(Some(p), a)) == Some(p)
  {
    var t := if p == "MS" || p == "UO" || p == "PEFF" then Padded(a, 7) else Decimal(a);
    assert MakeAccession(Some(p), a).value == p + [':'] + t;
    SplitOnceOf(p, t, ':');
  }

  /** The decimal digits of `s`, in order, other characters dropped. */
  function DigitsOf(s: string): (r: string)
    ensures AllDigits(r) && |r| <= |s|
  {
    if s == [] then []
    else if IsDigit(s[0]) then [s[0]] + DigitsOf(s[1..])
    else DigitsOf(s[1..])
  }

  /**
   * The digit loop of `parse_accession_tail_str`: each ASCII digit is folded into the
   * u32 accumulator, other characters are skipped, and an overflow ends it (`None`).
   */
  function TailFold(v: u32, s: string): Option<u32>
    decreases s
  {
    if s == [] then Some(v)
    else if IsDigit(s[0]) then
      if v * 10 + DigitVal(s[0]) >= U32_LIMIT then None
      else TailFold(v * 10 + DigitVal(s[0]), s[1..])
    else TailFold(v, s[1..])
  }

  /**
   * `parse_accession_tail_str`: the digits after the last ':' (or of the whole text)
   * read as a number; 0 when there are none or the number overflows a u32.
   */
  function ParseAccessionTailStr(acc: string): u32
  {
    match TailFold(0, AfterLast(acc, ':'))
    case Some(v) => v
    case None => 0
  }

  lemma {:induction false} TailFoldIsDigitsValue(v: u32, s: string)
    decreases s
    ensures TailFold(v, s) == if Horner(v, DigitsOf(s)) < U32_LIMIT then Some(Horner(v, DigitsOf(s))) else None
  {
    if s != [] {
      var rest := DigitsOf(s[1..]);
      if IsDigit(s[0]) {
        var n := v * 10 + DigitVal(s[0]);
        assert DigitsOf(s) == [s[0]] + rest;
        assert Horner(v, DigitsOf(s)) == Horner(n, rest);
        if n >= U32_LIMIT {
          HornerAtLeast(n, rest);
        } else {
          TailFoldIsDigitsValue(n, s[1..]);
        }
      } else {
        TailFoldIsDigitsValue(v, s[1..]);
      }
    }
  }

  /**
   * The result is the value of all digits after the last ':' taken together, so
   * "MS:1000xxx" reads as 1000 and "a1b2" as 12; no digits or a value of 2^32 or
   * more gives 0.
   */
  lemma ParseAccessionTailStrIsDigitsValue(acc: string)
    ensures var n := Horner(0, DigitsOf(AfterLast(acc, ':')));
      ParseAccessionTailStr(acc) == if n < U32_LIMIT then n else 0
  {
    TailFoldIsDigitsValue(0, AfterLast(acc, ':'));
  }

  /** On accessions the reader built, the lenient digit reader agrees with `parse_acc_tail`. */
  lemma TailReadersAgree(r: Option<string>, a: u32)
    requires r != Some("NCIT") && a != 0
    ensures ParseAccessionTailStr(MakeAccession(r, a).value) == ParseAccTail(MakeAccession(r, a))
  {
    ParseAccTailOfMakeAccession(r, a);
    MakeAccessionTail(r, a);
    var acc := MakeAccession(r, a).value;
    DigitsOfDigits(AfterLast(acc, ':'));
    ParseAccessionTailStrIsDigitsValue(acc);
  }

  lemma {:induction false} DigitsOfDigits(s: string)
    requires AllDigits(s)
    ensures DigitsOf(s) == s
  {
    if s != [] {
      DigitsOfDigits(s[1..]);
    }
  }
}
