/**
 * Putting decoded x/y arrays into a binary data array list and reading their
 * lengths back: `bda_has_array_kind`, `ms_float_param`, `ensure_float_flag` and
 * `attach_xy_arrays_to_bdal` (crates/parser/src/b64/decode2.rs), and `decoded_len`,
 * `is_y_array` and `xy_lengths_from_bdal` (crates/parser/src/b64/utilities/common.rs).
 * Arrays are taken as `&mut` in the source; here they go in and come out as values.
 */
module XyArrays {
  import opened Wrappers
  import opened Seqs
  import opened Text
  import opened Accession
  import opened Mzml
  import opened SpectrumCv
  import opened BlockReader

  const ACC_Y_INTENSITY: string := "MS:1000515"
  const ACC_Y_SNR: string := "MS:1000786"

  /** The accession a float-precision flag is looked up by. */
  function FloatAccession(isF32: bool): string
  {
    if isF32 then "MS:1000521" else "MS:1000523"
  }

  /** The accession code of a float-precision flag. */
  function FloatCode(isF32: bool): u32
  {
    if isF32 then ACC_32BIT_FLOAT else ACC_64BIT_FLOAT
  }

  predicate HasTail(p: CvParam, tail: u32)
  {
    p.accession.Some? && ParseAccessionTailStr(p.accession.value) == tail
  }

  /** `bda_has_array_kind`: some cvParam's accession tail is `tail`. */
  function BdaHasArrayKind(bda: BinaryDataArray, tail: u32): (b: bool)
    ensures b <==> exists i :: 0 <= i < |bda.cvParams| && HasTail(bda.cvParams[i], tail)
  {
    Any(bda.cvParams, p => HasTail(p, tail))
  }

  /** `ms_float_param`: the MS cvParam naming a float precision, with no value or unit. */
  function MsFloatParam(tail: u32): (p: CvParam)
    ensures p.cvRef == Some("MS") && p.value.None?
    ensures p.unitCvRef.None? && p.unitAccession.None? && p.unitName.None?
    ensures tail != 0 ==> p.accession == MakeAccession(Some("MS"), tail)
    ensures p.name == if tail == ACC_32BIT_FLOAT then "32-bit float" else "64-bit float"
  {
    var name := if tail == ACC_32BIT_FLOAT then "32-bit float" else "64-bit float";
    CvParam(Some("MS"), Some("MS" + ":" + Padded(tail, 7)), name, None, None, None, None)
  }

  /** The decimal text of 100052, the common head of both float-precision codes. */
  lemma Decimal100052()
    ensures Decimal(100052) == "100052"
  {
    assert Decimal(1) == "1";
    assert Decimal(10) == "10";
    assert Decimal(100) == "100";
    assert Decimal(1000) == "1000";
    assert Decimal(10005) == "10005";
  }

  lemma Decimal1000521()
    ensures Decimal(1000521) == "1000521"
  {
    Decimal100052();
    assert Decimal(1000521) == Decimal(100052) + [DigitChar(1)];
  }

  lemma Decimal1000523()
    ensures Decimal(1000523) == "1000523"
  {
    Decimal100052();
    assert Decimal(1000523) == Decimal(100052) + [DigitChar(3)];
  }

  /** A number with at least `w` digits is rendered without padding. */
  lemma PaddedWide(a: nat, w: nat)
    requires |Decimal(a)| >= w
    ensures Padded(a, w) == Decimal(a)
  {
    assert Zeros(0) + Decimal(a) == Decimal(a);
  }

  /** The digits of a float-precision code are exactly the seven digits of its code. */
  lemma FloatDigits(isF32: bool)
    ensures Padded(FloatCode(isF32), 7) == Decimal(FloatCode(isF32))
    ensures FloatAccession(isF32) == "MS" + [':'] + Decimal(FloatCode(isF32))
  {
    if isF32 {
      Decimal1000521();
    } else {
      Decimal1000523();
    }
    PaddedWide(FloatCode(isF32), 7);
  }

  /** The accession tail reader reads a float-precision accession back as its code. */
  lemma FloatAccessionTail(isF32: bool)
    ensures ParseAccessionTailStr(FloatAccession(isF32)) == FloatCode(isF32)
  {
    var t := Decimal(FloatCode(isF32));
    FloatDigits(isF32);
    DigitsHaveNo(t, ':');
    AfterLastOf("MS", t, ':');
    DigitsOfDigits(t);
    DecimalValue(FloatCode(isF32));
    ParseAccessionTailStrIsDigitsValue(FloatAccession(isF32));
  }

  /** The param `ensure_float_flag` appends carries exactly the accession it looks for. */
  lemma MsFloatParamAccession(isF32: bool)
    ensures MsFloatParam(FloatCode(isF32)).accession == Some(FloatAccession(isF32))
    ensures ParseAccessionTailStr(FloatAccession(isF32)) == FloatCode(isF32)
  {
    FloatDigits(isF32);
    FloatAccessionTail(isF32);
  }

  predicate HasAccession(p: CvParam, acc: string)
  {
    p.accession == Some(acc)
  }

  /**
   * `ensure_float_flag`: marks the array as f32 or f64 (the other flag cleared) and
   * appends the matching precision cvParam unless one with its accession is present.
   * Nothing else in the array changes, and afterwards the accession is present.
   */
  function EnsureFloatFlag(bda: BinaryDataArray, isF32: bool): (r: BinaryDataArray)
    ensures r.isF32 == (if isF32 then Some(true) else None)
    ensures r.isF64 == (if isF32 then None else Some(true))
    ensures (exists i :: 0 <= i < |bda.cvParams| && HasAccession(bda.cvParams[i], FloatAccession(isF32))) ==>
              r.cvParams == bda.cvParams
    ensures !(exists i :: 0 <= i < |bda.cvParams| && HasAccession(bda.cvParams[i], FloatAccession(isF32))) ==>
              r.cvParams == bda.cvParams + [MsFloatParam(FloatCode(isF32))]
    ensures r == bda.(cvParams := r.cvParams, isF32 := r.isF32, isF64 := r.isF64)
    ensures exists i :: 0 <= i < |r.cvParams| && HasAccession(r.cvParams[i], FloatAccession(isF32))
  {
    var acc := FloatAccession(isF32);
    var params :=
      if Any(bda.cvParams, p => HasAccession(p, acc)) then bda.cvParams
      else
        (MsFloatParamAccession(isF32);
         assert HasAccession((bda.cvParams + [MsFloatParam(FloatCode(isF32))])[|bda.cvParams|], acc);
         bda.cvParams + [MsFloatParam(FloatCode(isF32))]);
    if isF32 then bda.(cvParams := params, isF32 := Some(true), isF64 := None)
    else bda.(cvParams := params, isF64 := Some(true), isF32 := None)
  }

  /** Flagging twice is flagging once. */
  lemma EnsureFloatFlagIdempotent(bda: BinaryDataArray, isF32: bool)
    ensures EnsureFloatFlag(EnsureFloatFlag(bda, isF32), isF32) == EnsureFloatFlag(bda, isF32)
  {
  }

  /** After flagging, the array carries the precision's accession tail as an array kind. */
  lemma EnsureFloatFlagKind(bda: BinaryDataArray, isF32: bool)
    ensures BdaHasArrayKind(EnsureFloatFlag(bda, isF32), FloatCode(isF32))
  {
    var ps := EnsureFloatFlag(bda, isF32).cvParams;
    var i :| 0 <= i < |ps| && HasAccession(ps[i], FloatAccession(isF32));
    PrecisionTail(ps[i], isF32);
  }

  /** A param with a float-precision accession has that precision's code as its tail. */
  lemma PrecisionTail(p: CvParam, isF32: bool)
    requires HasAccession(p, FloatAccession(isF32))
    ensures HasTail(p, FloatCode(isF32))
  {
    FloatAccessionTail(isF32);
  }

  /** `decoded_len`: the f64 sample count when there are f64 samples, else the f32 count. */
  function DecodedLen(bda: BinaryDataArray): (n: nat)
    ensures n == 0 <==> bda.decodedF64 == [] && bda.decodedF32 == []
  {
    if bda.decodedF64 != [] then |bda.decodedF64| else |bda.decodedF32|
  }

  /**
   * One arm of `attach_xy_arrays_to_bdal`: the samples replace those of their width,
   * the other width's samples are cleared, and the precision is flagged.
   */
  function StoreArray(bda: BinaryDataArray, d: ArrayData): (r: BinaryDataArray)
  {
    match d
    case F32(v) => EnsureFloatFlag(bda.(decodedF32 := v, decodedF64 := []), true)
    case F64(v) => EnsureFloatFlag(bda.(decodedF64 := v, decodedF32 := []), false)
  }

  /** A stored array holds exactly the decoded samples, flagged with their width. */
  lemma StoreArrayHolds(bda: BinaryDataArray, d: ArrayData)
    ensures var r := StoreArray(bda, d);
      && DecodedLen(r) == |d.values|
      && (d.F32? ==> r.decodedF32 == d.values && r.decodedF64 == [] && r.isF32 == Some(true) && r.isF64.None?)
      && (d.F64? ==> r.decodedF64 == d.values && r.decodedF32 == [] && r.isF64 == Some(true) && r.isF32.None?)
      && r.arrayLength == bda.arrayLength && r.encodedLength == bda.encodedLength
      && r.dataProcessingRef == bda.dataProcessingRef && r.userParams == bda.userParams
      && r.numericType == bda.numericType
      && BdaHasArrayKind(r, FloatCode(d.F32?))
  {
    match d
    case F32(v) => EnsureFloatFlagKind(bda.(decodedF32 := v, decodedF64 := []), true);
    case F64(v) => EnsureFloatFlagKind(bda.(decodedF64 := v, decodedF32 := []), false);
  }

  /** The first array carrying accession tail `kind`, if any. */
  function FirstWithKind(arrays: seq<BinaryDataArray>, kind: u32): (r: Option<nat>)
    ensures r.Some? ==> r.value < |arrays| && BdaHasArrayKind(arrays[r.value], kind)
    ensures r.Some? ==> forall j :: 0 <= j < r.value ==> !BdaHasArrayKind(arrays[j], kind)
    ensures r.None? <==> forall j :: 0 <= j < |arrays| ==> !BdaHasArrayKind(arrays[j], kind)
  {
    if arrays == [] then None
    else
      var init := arrays[..|arrays| - 1];
      assert forall j :: 0 <= j < |init| ==> init[j] == arrays[j];
      match FirstWithKind(init, kind)
      case Some(i) => Some(i)
      case None => if BdaHasArrayKind(arrays[|arrays| - 1], kind) then Some(|arrays| - 1) else None
  }

  /** Where x goes: the first array of the x kind, else the first array. */
  function XTarget(arrays: seq<BinaryDataArray>, xKind: u32): nat
  {
    FirstWithKind(arrays, xKind).GetOr(0)
  }

  /** Where y goes: the first array of the y kind, else the second array, else the first. */
  function YTarget(arrays: seq<BinaryDataArray>, yKind: u32): nat
  {
    FirstWithKind(arrays, yKind).GetOr(if |arrays| > 1 then 1 else 0)
  }

  /** The scan of `attach_xy_arrays_to_bdal`: the first array of each kind. */
  method FindKinds(arrays: seq<BinaryDataArray>, xKind: u32, yKind: u32) returns (xFound: Option<nat>, yFound: Option<nat>)
    ensures xFound == FirstWithKind(arrays, xKind) && yFound == FirstWithKind(arrays, yKind)
  {
    xFound, yFound := None, None;
    for i := 0 to |arrays|
      invariant xFound == FirstWithKind(arrays[..i], xKind)
      invariant yFound == FirstWithKind(arrays[..i], yKind)
    {
      assert arrays[..i + 1][..i] == arrays[..i];
      if xFound.None? && BdaHasArrayKind(arrays[i], xKind) {
        xFound := Some(i);
      }
      if yFound.None? && BdaHasArrayKind(arrays[i], yKind) {
        yFound := Some(i);
      }
    }
    assert arrays[..|arrays|] == arrays;
  }

  /** The arrays after `x` is stored at `xi` and then `y` at `yi`. */
  function Attached(arrays: seq<BinaryDataArray>, xi: nat, yi: nat, x: ArrayData, y: ArrayData): (r: seq<BinaryDataArray>)
    requires xi < |arrays| && yi < |arrays|
    ensures |r| == |arrays|
  {
    var withX := arrays[xi := StoreArray(arrays[xi], x)];
    withX[yi := StoreArray(withX[yi], y)]
  }

  /** `y` lands at its target (over `x` when the targets coincide), `x` at its own, the rest stay. */
  lemma AttachedAt(arrays: seq<BinaryDataArray>, xi: nat, yi: nat, x: ArrayData, y: ArrayData)
    requires xi < |arrays| && yi < |arrays|
    ensures var r := Attached(arrays, xi, yi, x, y);
      && r[yi] == StoreArray(if xi == yi then StoreArray(arrays[xi], x) else arrays[yi], y)
      && (xi != yi ==> r[xi] == StoreArray(arrays[xi], x))
      && (forall j :: 0 <= j < |arrays| && j != xi && j != yi ==> r[j] == arrays[j])
  {
  }

  /** Both targets lie inside a non-empty list. */
  lemma TargetsInRange(arrays: seq<BinaryDataArray>, xKind: u32, yKind: u32)
    requires arrays != []
    ensures XTarget(arrays, xKind) < |arrays| && YTarget(arrays, yKind) < |arrays|
  {
  }

  /**
   * `attach_xy_arrays_to_bdal`: on a non-empty list, `x` is stored into the first
   * array of the x kind (else the first array) and `y` into the first array of the
   * y kind (else the second, else the first), and `count` becomes the number of
   * arrays. An empty list is returned unchanged. The source's bounds checks on the
   * two targets always pass.
   */
  method AttachXyArraysToBdal(list: BinaryDataArrayList, x: ArrayData, y: ArrayData, xKind: u32, yKind: u32)
    returns (r: BinaryDataArrayList)
    ensures list.arrays == [] ==> r == list
    ensures list.arrays != [] ==>
              && XTarget(list.arrays, xKind) < |list.arrays| && YTarget(list.arrays, yKind) < |list.arrays|
              && r == BinaryDataArrayList(Some(|list.arrays|),
                                         Attached(list.arrays, XTarget(list.arrays, xKind), YTarget(list.arrays, yKind), x, y))
  {
    var arrays := list.arrays;
    var xFound, yFound := FindKinds(arrays, xKind, yKind);
    var xIdx := xFound.GetOr(0);
    var yIdx := yFound.GetOr(if |arrays| > 1 then 1 else 0);
    if arrays == [] {
      return list;
    }
    var withX := arrays[xIdx := StoreArray(arrays[xIdx], x)];
    var withXy := withX[yIdx := StoreArray(withX[yIdx], y)];
    return BinaryDataArrayList(Some(|withXy|), withXy);
  }

  /** `is_y_array`: some cvParam is the intensity or the signal-to-noise array. */
  function IsYArray(bda: BinaryDataArray): (b: bool)
    ensures b <==> exists i :: 0 <= i < |bda.cvParams| &&
                     (HasAccession(bda.cvParams[i], ACC_Y_INTENSITY) || HasAccession(bda.cvParams[i], ACC_Y_SNR))
  {
    Any(bda.cvParams, p => HasAccession(p, ACC_Y_INTENSITY) || HasAccession(p, ACC_Y_SNR))
  }

  /** An array that counts for the y length (`wantY`) or the x length. */
  predicate Counts(bda: BinaryDataArray, wantY: bool)
  {
    DecodedLen(bda) != 0 && IsYArray(bda) == wantY
  }

  /** The length of the first non-empty y array (`wantY`) or non-empty other array. */
  function FirstLen(arrays: seq<BinaryDataArray>, wantY: bool): (r: Option<nat>)
    ensures r.None? <==> forall j :: 0 <= j < |arrays| ==> !Counts(arrays[j], wantY)
    ensures r.Some? ==> exists i :: 0 <= i < |arrays| && Counts(arrays[i], wantY) && DecodedLen(arrays[i]) == r.value &&
                                    forall j :: 0 <= j < i ==> !Counts(arrays[j], wantY)
  {
    FindMap(arrays, b => LenIfCounts(b, wantY))
  }

  function LenIfCounts(bda: BinaryDataArray, wantY: bool): Option<nat>
  {
    if Counts(bda, wantY) then Some(DecodedLen(bda)) else None
  }

  /** Once a prefix has a first length, longer sequences keep it. */
  lemma {:induction false} FirstLenPrefix(arrays: seq<BinaryDataArray>, k: nat, wantY: bool)
    requires k <= |arrays| && FirstLen(arrays[..k], wantY).Some?
    ensures FirstLen(arrays, wantY) == FirstLen(arrays[..k], wantY)
    decreases |arrays| - k
  {
    if k < |arrays| {
      assert arrays[..k + 1][..k] == arrays[..k];
      FirstLenPrefix(arrays, k + 1, wantY);
    } else {
      assert arrays[..k] == arrays;
    }
  }

  /**
   * `xy_lengths_from_bdal`: no lengths without a list; otherwise the length of the
   * first non-empty intensity or signal-to-noise array as y and of the first
   * non-empty other array as x. The loop stops once both are known.
   */
  method XyLengthsFromBdal(list: Option<BinaryDataArrayList>) returns (xLen: Option<nat>, yLen: Option<nat>)
    ensures list.None? ==> xLen.None? && yLen.None?
    ensures list.Some? ==> xLen == FirstLen(list.value.arrays, false) && yLen == FirstLen(list.value.arrays, true)
  {
    if list.None? {
      return None, None;
    }
    var arrays := list.value.arrays;
    xLen, yLen := None, None;
    var i := 0;
    while i < |arrays| && !(xLen.Some? && yLen.Some?)
      invariant 0 <= i <= |arrays|
      invariant xLen == FirstLen(arrays[..i], false) && yLen == FirstLen(arrays[..i], true)
    {
      FindMapStep(arrays, i, b => LenIfCounts(b, false));
      FindMapStep(arrays, i, b => LenIfCounts(b, true));
      var len := DecodedLen(arrays[i]);
      if len != 0 {
        if IsYArray(arrays[i]) {
          if yLen.None? {
            yLen := Some(len);
          }
        } else if xLen.None? {
          xLen := Some(len);
        }
      }
      i := i + 1;
    }
    if i < |arrays| {
      FirstLenPrefix(arrays, i, false);
      FirstLenPrefix(arrays, i, true);
    } else {
      assert arrays[..i] == arrays;
    }
  }
}
