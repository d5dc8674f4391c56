/**
 * Post-processing of a spectrum's decoded cvParams in
 * crates/parser/src/utilities/decode.rs: dropping the binary-array params
 * (`strip_binary_array_cv_params`) and moving the precursor params into a
 * precursor list (`infer_precursor_list_from_spectrum_cv`). Both take the params
 * as `&mut Vec<CvParam>`; here the list goes in and the new list comes out.
 */
module SpectrumCv {
  import opened Wrappers
  import opened Seqs
  import opened Accession
  import opened Mzml

  const ACC_MZ_ARRAY: u32 := 1000514
  const ACC_INTENSITY_ARRAY: u32 := 1000515
  const ACC_TIME_ARRAY: u32 := 1000595
  const ACC_32BIT_FLOAT: u32 := 1000521
  const ACC_64BIT_FLOAT: u32 := 1000523
  const ACC_ZLIB_COMPRESSION: u32 := 1000574
  const ACC_NO_COMPRESSION: u32 := 1000576

  const ACC_ISO_TARGET_MZ: u32 := 1000827
  const ACC_ISO_LOWER_OFFSET: u32 := 1000828
  const ACC_ISO_UPPER_OFFSET: u32 := 1000829
  const ACC_SELECTED_ION_MZ: u32 := 1000744
  const ACC_CHARGE_STATE: u32 := 1000041
  const ACC_IN_SOURCE_CID: u32 := 1001880
  const ACC_COLLISION_ENERGY: u32 := 1000045

  /** The array-kind, precision and compression codes, which belong to binary arrays. */
  predicate IsBinaryArrayTail(t: u32)
  {
    t == ACC_MZ_ARRAY || t == ACC_INTENSITY_ARRAY || t == ACC_TIME_ARRAY || t == ACC_32BIT_FLOAT ||
    t == ACC_64BIT_FLOAT || t == ACC_ZLIB_COMPRESSION || t == ACC_NO_COMPRESSION
  }

  predicate KeptByStrip(p: CvParam)
  {
    !IsBinaryArrayTail(ParseAccTail(p.accession))
  }

  /**
   * `strip_binary_array_cv_params` (`Vec::retain`): the params whose accession tail
   * is not one of the seven binary-array codes, in their original order.
   */
  function StripBinaryArrayCvParams(params: seq<CvParam>): (r: seq<CvParam>)
    ensures forall p :: p in r <==> p in params && !IsBinaryArrayTail(ParseAccTail(p.accession))
    ensures |r| <= |params|
  {
    Filter(params, KeptByStrip)
  }

  /** Stripping works param by param, so it keeps the relative order of what it keeps. */
  lemma StripConcat(a: seq<CvParam>, b: seq<CvParam>)
    ensures StripBinaryArrayCvParams(a + b) == StripBinaryArrayCvParams(a) + StripBinaryArrayCvParams(b)
  {
    FilterConcat(a, b, KeptByStrip);
  }

  /** A list without binary-array params is left exactly as it was. */
  lemma StripKeepsOthers(params: seq<CvParam>)
    requires forall i :: 0 <= i < |params| ==> !IsBinaryArrayTail(ParseAccTail(params[i].accession))
    ensures StripBinaryArrayCvParams(params) == params
  {
    FilterKeepsAll(params, KeptByStrip);
  }

  /** Stripping twice is stripping once. */
  lemma StripIdempotent(params: seq<CvParam>)
    ensures StripBinaryArrayCvParams(StripBinaryArrayCvParams(params)) == StripBinaryArrayCvParams(params)
  {
    var r := StripBinaryArrayCvParams(params);
    assert forall i :: 0 <= i < |r| ==> KeptByStrip(r[i]) by {
      forall i | 0 <= i < |r| ensures KeptByStrip(r[i]) { assert r[i] in r; }
    }
    FilterKeepsAll(r, KeptByStrip);
  }

  /** Where `infer_precursor_list_from_spectrum_cv` files a param. */
  datatype PrecursorGroup = IsolationGroup | SelectedIonGroup | ActivationGroup | RestGroup

  /** The tests are tried in this order, so each param lands in exactly one group. */
  function GroupOf(p: CvParam): PrecursorGroup
  {
    var t := ParseAccTail(p.accession);
    if t == ACC_ISO_TARGET_MZ || t == ACC_ISO_LOWER_OFFSET || t == ACC_ISO_UPPER_OFFSET then IsolationGroup
    else if t == ACC_SELECTED_ION_MZ || t == ACC_CHARGE_STATE then SelectedIonGroup
    else if t == ACC_IN_SOURCE_CID || t == ACC_COLLISION_ENERGY then ActivationGroup
    else RestGroup
  }

  predicate InIsolation(p: CvParam) { GroupOf(p) == IsolationGroup }
  predicate InSelectedIon(p: CvParam) { GroupOf(p) == SelectedIonGroup }
  predicate InActivation(p: CvParam) { GroupOf(p) == ActivationGroup }
  predicate InRest(p: CvParam) { GroupOf(p) == RestGroup }

  /** The four groups together hold every param exactly as often as the input does. */
  lemma GroupsPartition(s: seq<CvParam>)
    ensures multiset(Filter(s, InIsolation)) + multiset(Filter(s, InSelectedIon)) +
            multiset(Filter(s, InActivation)) + multiset(Filter(s, InRest)) == multiset(s)
    ensures |Filter(s, InIsolation)| + |Filter(s, InSelectedIon)| + |Filter(s, InActivation)| +
            |Filter(s, InRest)| == |s|
  {
    FilterPartition4(s, InIsolation, InSelectedIon, InActivation, InRest);
  }

  /** Nothing goes to the first three groups exactly when every param stays behind. */
  lemma NoPrecursorParams(s: seq<CvParam>)
    ensures (Filter(s, InIsolation) == [] && Filter(s, InSelectedIon) == [] && Filter(s, InActivation) == []) <==>
            forall i :: 0 <= i < |s| ==> InRest(s[i])
  {
    if forall i :: 0 <= i < |s| ==> InRest(s[i]) {
      FilterDropsAll(s, InIsolation);
      FilterDropsAll(s, InSelectedIon);
      FilterDropsAll(s, InActivation);
    }
    if Filter(s, InIsolation) == [] && Filter(s, InSelectedIon) == [] && Filter(s, InActivation) == [] {
      forall i | 0 <= i < |s|
        ensures InRest(s[i])
      {
        assert s[i] in s;
        var g := GroupOf(s[i]);
        assert g != IsolationGroup && g != SelectedIonGroup && g != ActivationGroup;
      }
    }
  }

  /**
   * `infer_precursor_list_from_spectrum_cv`: drains `params` into the isolation-window,
   * selected-ion, activation and remaining groups, each in input order, and leaves
   * the remaining group behind. No precursor list when the first three groups are all
   * empty; otherwise one precursor, with a part for each non-empty group.
   */
  method InferPrecursorListFromSpectrumCv(params: seq<CvParam>) returns (r: Option<PrecursorList>, rest: seq<CvParam>)
    ensures rest == Filter(params, InRest)
    ensures r.None? <==> forall i :: 0 <= i < |params| ==> InRest(params[i])
    ensures r.Some? ==> r.value.count == Some(1) && |r.value.precursors| == 1
    ensures r.Some? ==>
      var pr := r.value.precursors[0];
      && (pr.isolationWindow.Some? <==> Filter(params, InIsolation) != [])
      && (pr.isolationWindow.Some? ==> pr.isolationWindow.value.cvParams == Filter(params, InIsolation))
      && (pr.selectedIonList.Some? <==> Filter(params, InSelectedIon) != [])
      && (pr.selectedIonList.Some? ==>
            pr.selectedIonList.value == SelectedIonList(Some(1), [SelectedIon(Filter(params, InSelectedIon))]))
      && (pr.activation.Some? <==> Filter(params, InActivation) != [])
      && (pr.activation.Some? ==> pr.activation.value.cvParams == Filter(params, InActivation))
  {
    var iso, sel, act;
    iso, sel, act, rest := SplitPrecursorGroups(params);
    NoPrecursorParams(params);
    if iso == [] && sel == [] && act == [] {
      return None, rest;
    }
    var isolationWindow := if iso == [] then None else Some(IsolationWindow(iso));
    var selectedIonList := if sel == [] then None else Some(SelectedIonList(Some(1), [SelectedIon(sel)]));
    var activation := if act == [] then None else Some(Activation(act));
    r := Some(PrecursorList(Some(1), [Precursor(isolationWindow, selectedIonList, activation)]));
  }

  /**
   * The four groups `grp` files the elements of `s` into, each in input order: with
   * `GroupOf` for `grp`, the reference the draining loop is checked against.
   */
  function Groups<T>(s: seq<T>, grp: T -> PrecursorGroup): (seq<T>, seq<T>, seq<T>, seq<T>)
  {
    if s == [] then ([], [], [], [])
    else
      var (iso, sel, act, rest) := Groups(s[..|s| - 1], grp);
      var p := s[|s| - 1];
      match grp(p)
      case IsolationGroup => (iso + [p], sel, act, rest)
      case SelectedIonGroup => (iso, sel + [p], act, rest)
      case ActivationGroup => (iso, sel, act + [p], rest)
      case RestGroup => (iso, sel, act, rest + [p])
  }

  /** Each group is the filter for that group. */
  lemma {:induction false} GroupsAreFilters<T(!new)>(s: seq<T>, grp: T -> PrecursorGroup,
                                                      f1: T -> bool, f2: T -> bool, f3: T -> bool, f4: T -> bool)
    requires forall x :: f1(x) == (grp(x) == IsolationGroup) && f2(x) == (grp(x) == SelectedIonGroup)
    requires forall x :: f3(x) == (grp(x) == ActivationGroup) && f4(x) == (grp(x) == RestGroup)
    ensures Groups(s, grp) == (Filter(s, f1), Filter(s, f2), Filter(s, f3), Filter(s, f4))
  {
    if s != [] {
      var s', p := s[..|s| - 1], s[|s| - 1];
      assert s == s' + [p];
      var (a, b, c, d) := Groups(s', grp);
      assert (a, b, c, d) == (Filter(s', f1), Filter(s', f2), Filter(s', f3), Filter(s', f4)) by {
        GroupsAreFilters(s', grp, f1, f2, f3, f4);
      }
      assert Filter(s, f1) == if f1(p) then a + [p] else a by { FilterSnoc(s', p, f1); }
      assert Filter(s, f2) == if f2(p) then b + [p] else b by { FilterSnoc(s', p, f2); }
      assert Filter(s, f3) == if f3(p) then c + [p] else c by { FilterSnoc(s', p, f3); }
      assert Filter(s, f4) == if f4(p) then d + [p] else d by { FilterSnoc(s', p, f4); }
      assert f1(p) == (grp(p) == IsolationGroup) && f2(p) == (grp(p) == SelectedIonGroup);
      assert f3(p) == (grp(p) == ActivationGroup) && f4(p) == (grp(p) == RestGroup);
      match grp(p)
      case IsolationGroup => assert Groups(s, grp) == (a + [p], b, c, d);
      case SelectedIonGroup => assert Groups(s, grp) == (a, b + [p], c, d);
      case ActivationGroup => assert Groups(s, grp) == (a, b, c + [p], d);
      case RestGroup => assert Groups(s, grp) == (a, b, c, d + [p]);
    }
  }

  /** The draining loop: each param goes to the group `GroupOf` names, in input order. */
  method SplitPrecursorGroups(params: seq<CvParam>)
    returns (iso: seq<CvParam>, sel: seq<CvParam>, act: seq<CvParam>, rest: seq<CvParam>)
    ensures iso == Filter(params, InIsolation) && sel == Filter(params, InSelectedIon)
    ensures act == Filter(params, InActivation) && rest == Filter(params, InRest)
  {
    iso, sel, act, rest := [], [], [], [];
    for i := 0 to |params|
      invariant (iso, sel, act, rest) == Groups(params[..i], GroupOf)
    {
      var p := params[i];
      assert params[..i + 1][..i] == params[..i];
      match GroupOf(p)
      case IsolationGroup => iso := iso + [p];
      case SelectedIonGroup => sel := sel + [p];
      case ActivationGroup => act := act + [p];
      case RestGroup => rest := rest + [p];
    }
    assert params[..|params|] == params;
    GroupsAreFilters(params, GroupOf, InIsolation, InSelectedIon, InActivation, InRest);
  }
}
