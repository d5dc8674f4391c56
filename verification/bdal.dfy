/**
 * `parse_binary_data_array_list` and its helpers in
 * crates/parser/src/b64/utilities/parse_binary_array_list.rs: the rows of a
 * `<binaryDataArrayList>` and of its `<binaryDataArray>` children are grouped by owner
 * id in order of first appearance, each group is folded into one array
 * (`apply_binary_data_array_metadatum`), the groups are sorted by owner id, and
 * arrays without a length inherit the parent's default array length.
 */
module BinaryArrayList {
  import opened Wrappers
  import opened Text
  import opened Seqs
  import opened Accession
  import opened Mzml
  import opened Rows
  import opened SpectrumCv

  const ACC_32BIT_INTEGER: u32 := 1000519
  const ACC_64BIT_INTEGER: u32 := 1000522

  /** `b000_tail`: the text after the first ':' as a u32, for an accession with the attribute prefix. */
  function B000Tail(acc: Option<string>): (r: Option<u32>)
    ensures r.Some? ==> exists t :: acc == Some(CV_REF_ATTR + ":" + t) && ParseU32(t) == Some(r.value)
  {
    match acc
    case None => None
    case Some(a) =>
      match SplitPrefix(a)
      case None => None
      case Some((p, t)) =>
        if p != CV_REF_ATTR then None
        else match ParseU32(t) case None => None case Some(n) => Some(n)
  }

  /** Conversely, "B000:<t>" has tail `t` read as a u32, whatever follows the first ':'. */
  lemma B000TailOf(t: string)
    ensures B000Tail(Some(CV_REF_ATTR + ":" + t)).Some? <==> ParseU32(t).Some?
    ensures ParseU32(t).Some? ==> B000Tail(Some(CV_REF_ATTR + ":" + t)).value == ParseU32(t).value
  {
    assert CV_REF_ATTR + ":" + t == CV_REF_ATTR + [':'] + t;
    SplitOnceOf(CV_REF_ATTR, t, ':');
  }

  /** The attribute rows the writer emits ("B000:" and the code in decimal) read back as their code. */
  lemma B000TailOfDecimal(n: u32)
    ensures B000Tail(Some(CV_REF_ATTR + ":" + Decimal(n))) == Some(n)
  {
    ParsePadded(n, 0, U32_LIMIT);
    assert ZeroPad(Decimal(n), 0) == Decimal(n);
    B000TailOf(Decimal(n));
  }

  /**
   * `as_u32`: a text value that parses as a u32, or a number that the environment's
   * whole-number test accepts; never an empty value.
   */
  function AsU32(v: MetadatumValue, env: Env): (r: Option<u32>)
    ensures v.Empty? ==> r.None?
    ensures v.Text? ==> (r.Some? <==> ParseU32(v.text).Some?)
    ensures v.Text? && r.Some? ==> r.value == ParseU32(v.text).value
  {
    match v
    case Number(bits) => env.f64AsU32(bits)
    case Text(s) => (match ParseU32(s) case None => None case Some(n) => Some(n))
    case Empty => None
  }

  /** A value written as decimal text reads back as its number. */
  lemma AsU32OfDecimal(n: u32, env: Env)
    ensures AsU32(Text(Decimal(n)), env) == Some(n)
  {
    ParsePadded(n, 0, U32_LIMIT);
    assert ZeroPad(Decimal(n), 0) == Decimal(n);
  }

  /** `as_string`: the same text as `value_to_opt_string` gives; none only for an empty value. */
  function AsString(v: MetadatumValue, env: Env): (r: Option<string>)
    ensures r == ValueToOptString(v, env)
    ensures r.None? <==> v.Empty?
  {
    match v
    case Text(s) => Some(s)
    case Number(bits) => Some(env.f64Display(bits))
    case Empty => None
  }

  /** The precision a numeric-type accession tail names. */
  function NumericTypeOfTail(t: nat): Option<NumericType>
  {
    if t == ACC_32BIT_INTEGER then Some(Int32)
    else if t == ACC_32BIT_FLOAT then Some(Float32)
    else if t == ACC_64BIT_INTEGER then Some(Int64)
    else if t == ACC_64BIT_FLOAT then Some(Float64)
    else None
  }

  /**
   * How a precision param updates `numeric_type`: an unset type takes it, an equal type
   * stays, and a different type resets it to unset.
   */
  function MergeNumericType(cur: Option<NumericType>, nt: NumericType): (r: Option<NumericType>)
    ensures r == Some(nt) <==> cur.None? || cur == Some(nt)
    ensures r.None? <==> cur.Some? && cur.value != nt
  {
    match cur
    case None => Some(nt)
    case Some(c) => if c == nt then Some(c) else None
  }

  /** A reset is not remembered: after a conflict the next precision param sets the type again. */
  lemma MergeAfterConflict(a: NumericType, b: NumericType)
    requires a != b
    ensures MergeNumericType(MergeNumericType(Some(a), b), a) == Some(a)
  {
  }

  /** How `apply_binary_data_array_metadatum` treats a row. */
  datatype RowKind =
    | Ignored                                 // no accession, or no ':' in it
    | Attribute(code: Option<u32>)            // "B000:<code>"; `None` when the tail is not a u32
    | Vocabulary(prefix: string, tail: string) // an MS, UO, NCIT or PEFF accession
    | User                                    // any other prefix

  function KindOf(m: Metadatum): RowKind
  {
    if m.accession.None? then Ignored
    else match SplitPrefix(m.accession.value)
      case None => Ignored
      case Some((p, t)) =>
        if p == CV_REF_ATTR then Attribute(match ParseU32(t) case None => None case Some(n) => Some(n))
        else if IsCvPrefix(p) then Vocabulary(p, t)
        else User
  }

  /** The cvParam a vocabulary row appends: names come from the vocabulary table, else the accession. */
  function RowCvParam(m: Metadatum, prefix: string, env: Env): CvParam
    requires m.accession.Some?
  {
    var acc := m.accession.value;
    CvParam(Some(prefix), Some(acc), CvName(env, acc).GetOr(acc), ValueToOptString(m.value, env),
            UnitCvRef(m.unitAccession), m.unitAccession,
            if m.unitAccession.Some? then CvName(env, m.unitAccession.value) else None)
  }

  /** The userParam any other row appends, named by its accession. */
  function RowUserParam(m: Metadatum, env: Env): UserParam
    requires m.accession.Some?
  {
    UserParam(m.accession.value, m.unitAccession, UnitCvRef(m.unitAccession), None, ValueToOptString(m.value, env))
  }

  /** The precision an "MS" accession with a numeric-type tail names. */
  function RowNumericType(prefix: string, tail: string): Option<NumericType>
  {
    if prefix != "MS" then None
    else match ParseU32(tail) case None => None case Some(t) => NumericTypeOfTail(t)
  }

  /**
   * `apply_binary_data_array_metadatum`: a row without a usable accession changes
   * nothing; an attribute row sets at most the array length, encoded length or data
   * processing reference and never adds a param; a vocabulary row appends its cvParam
   * (and merges a precision into the numeric type); any other row appends a userParam.
   */
  function Apply(out: BinaryDataArray, m: Metadatum, env: Env): (r: BinaryDataArray)
    ensures KindOf(m).Ignored? ==> r == out
    ensures KindOf(m).Attribute? ==>
              r == out.(arrayLength := r.arrayLength, encodedLength := r.encodedLength,
                        dataProcessingRef := r.dataProcessingRef)
    ensures KindOf(m) == Attribute(Some(ACC_ATTR_ARRAY_LENGTH)) ==> r.arrayLength == AsU32(m.value, env)
    ensures KindOf(m) == Attribute(Some(ACC_ATTR_ENCODED_LENGTH)) ==> r.encodedLength == AsU32(m.value, env)
    ensures KindOf(m) == Attribute(Some(ACC_ATTR_DATA_PROCESSING_REF)) ==> r.dataProcessingRef == AsString(m.value, env)
    ensures (KindOf(m).Attribute? &&
             KindOf(m).code !in {Some(ACC_ATTR_ARRAY_LENGTH), Some(ACC_ATTR_ENCODED_LENGTH), Some(ACC_ATTR_DATA_PROCESSING_REF)})
            ==> r == out
    ensures KindOf(m).Vocabulary? ==>
              && r.cvParams == out.cvParams + [RowCvParam(m, KindOf(m).prefix, env)]
              && r == out.(cvParams := r.cvParams, numericType := r.numericType)
    ensures KindOf(m).User? ==> r == out.(userParams := out.userParams + [RowUserParam(m, env)])
    ensures r.numericType != out.numericType ==>
              KindOf(m).Vocabulary? && RowNumericType(KindOf(m).prefix, KindOf(m).tail).Some? &&
              r.numericType == MergeNumericType(out.numericType, RowNumericType(KindOf(m).prefix, KindOf(m).tail).value)
  {
    if m.accession.None? then out
    else
      var acc := m.accession.value;
      match SplitPrefix(acc)
      case None => out
      case Some((prefix, tail)) =>
        if prefix == CV_REF_ATTR then
          (match ParseU32(tail)
           case None => out
           case Some(code) =>
             if code == ACC_ATTR_ARRAY_LENGTH then out.(arrayLength := AsU32(m.value, env))
             else if code == ACC_ATTR_ENCODED_LENGTH then out.(encodedLength := AsU32(m.value, env))
             else if code == ACC_ATTR_DATA_PROCESSING_REF then out.(dataProcessingRef := AsString(m.value, env))
             else out)
        else if IsCvPrefix(prefix) then
          var nt := match RowNumericType(prefix, tail)
            case None => out.numericType
            case Some(t) => MergeNumericType(out.numericType, t);
          out.(numericType := nt, cvParams := out.cvParams + [RowCvParam(m, prefix, env)])
        else out.(userParams := out.userParams + [RowUserParam(m, env)])
  }

  /** The rows applied one after another, first to last. */
  function ApplyAll(out: BinaryDataArray, rows: seq<Metadatum>, env: Env): BinaryDataArray
  {
    Fold(out, rows, Step(env))
  }

  /** `apply_binary_data_array_metadatum` under a fixed environment. */
  function Step(env: Env): (BinaryDataArray, Metadatum) -> BinaryDataArray
  {
    (b, m) => Apply(b, m, env)
  }

  /** `step` applied to each row in turn, first to last. */
  function Fold<V>(v: V, rows: seq<Metadatum>, step: (V, Metadatum) -> V): V
  {
    if rows == [] then v else step(Fold(v, rows[..|rows| - 1], step), rows[|rows| - 1])
  }

  /** `parse_binary_data_array`: the rows of one array applied to a new one. */
  function ParseBinaryDataArray(rows: seq<Metadatum>, env: Env): BinaryDataArray
  {
    ApplyAll(NEW_BINARY_DATA_ARRAY, rows, env)
  }

  /** The cvParams the vocabulary rows of `rows` stand for, in row order. */
  function CvParamsOf(rows: seq<Metadatum>, env: Env): seq<CvParam>
  {
    if rows == [] then []
    else
      var m := rows[|rows| - 1];
      CvParamsOf(rows[..|rows| - 1], env) + (if KindOf(m).Vocabulary? then [RowCvParam(m, KindOf(m).prefix, env)] else [])
  }

  /** The userParams the other-prefix rows of `rows` stand for, in row order. */
  function UserParamsOf(rows: seq<Metadatum>, env: Env): seq<UserParam>
  {
    if rows == [] then []
    else
      var m := rows[|rows| - 1];
      UserParamsOf(rows[..|rows| - 1], env) + (if KindOf(m).User? then [RowUserParam(m, env)] else [])
  }

  /**
   * Applying rows appends exactly one cvParam per vocabulary row and one userParam per
   * other-prefix row, in row order; attribute rows and rows without ':' add none.
   */
  lemma {:induction false} ApplyAllParams(out: BinaryDataArray, rows: seq<Metadatum>, env: Env)
    ensures ApplyAll(out, rows, env).cvParams == out.cvParams + CvParamsOf(rows, env)
    ensures ApplyAll(out, rows, env).userParams == out.userParams + UserParamsOf(rows, env)
  {
    if rows != [] {
      var init, m := rows[..|rows| - 1], rows[|rows| - 1];
      var before := ApplyAll(out, init, env);
      assert before.cvParams == out.cvParams + CvParamsOf(init, env) &&
             before.userParams == out.userParams + UserParamsOf(init, env) by {
        ApplyAllParams(out, init, env);
      }
      assert ApplyAll(out, rows, env) == Apply(before, m, env);
      ApplyParams(before, m, env);
    }
  }

  /** One row adds its cvParam or its userParam, or neither. */
  lemma ApplyParams(out: BinaryDataArray, m: Metadatum, env: Env)
    ensures Apply(out, m, env).cvParams ==
            out.cvParams + (if KindOf(m).Vocabulary? then [RowCvParam(m, KindOf(m).prefix, env)] else [])
    ensures Apply(out, m, env).userParams == out.userParams + (if KindOf(m).User? then [RowUserParam(m, env)] else [])
  {
  }

  /** Rows that agree on one precision leave the array with that precision. */
  lemma {:induction false} ApplyAllAgreeingPrecision(out: BinaryDataArray, rows: seq<Metadatum>, nt: NumericType, env: Env)
    requires out.numericType == Some(nt)
    requires forall k :: 0 <= k < |rows| && KindOf(rows[k]).Vocabulary? ==>
               RowNumericType(KindOf(rows[k]).prefix, KindOf(rows[k]).tail) in {None, Some(nt)}
    ensures ApplyAll(out, rows, env).numericType == Some(nt)
  {
    if rows != [] {
      var init := rows[..|rows| - 1];
      assert forall k :: 0 <= k < |init| ==> init[k] == rows[k];
      ApplyAllAgreeingPrecision(out, init, nt, env);
    }
  }

  /** The first default-array-length attribute (of any row) whose value is a u32. */
  function DefaultCandidate(m: Metadatum, env: Env): Option<u32>
  {
    if B000Tail(m.accession) == Some(ACC_ATTR_DEFAULT_ARRAY_LENGTH) then AsU32(m.value, env) else None
  }

  function ParentDefault(metadata: seq<Metadatum>, env: Env): (r: Option<u32>)
    ensures r.None? <==> forall i :: 0 <= i < |metadata| ==> DefaultCandidate(metadata[i], env).None?
    ensures r.Some? ==> exists i :: 0 <= i < |metadata| && DefaultCandidate(metadata[i], env) == r &&
                          forall j :: 0 <= j < i ==> DefaultCandidate(metadata[j], env).None?
  {
    FindMap(metadata, m => DefaultCandidate(m, env))
  }

  /** One array after inheriting `d`: only a missing length is filled in. */
  function WithDefaultLength(b: BinaryDataArray, d: Option<nat>): (r: BinaryDataArray)
    ensures r == b.(arrayLength := r.arrayLength)
    ensures b.arrayLength.Some? || d.None? ==> r == b
    ensures b.arrayLength.None? && d.Some? ==> r.arrayLength == d
  {
    if d.Some? && b.arrayLength.None? then b.(arrayLength := d) else b
  }

  function InheritAll(arrays: seq<BinaryDataArray>, d: Option<nat>): (r: seq<BinaryDataArray>)
    ensures |r| == |arrays|
    ensures forall k :: 0 <= k < |r| ==> r[k] == WithDefaultLength(arrays[k], d)
  {
    seq(|arrays|, k requires 0 <= k < |arrays| => WithDefaultLength(arrays[k], d))
  }

  /**
   * `inherit_array_length_from_parent`: every array without a length takes the first
   * default array length found among the rows; nothing changes when there is none.
   */
  method InheritArrayLengthFromParent(metadata: seq<Metadatum>, bdas: array<BinaryDataArray>, env: Env)
    modifies bdas
    ensures forall k :: 0 <= k < bdas.Length ==> bdas[k] == WithDefaultLength(old(bdas[k]), ParentDefault(metadata, env))
  {
    var parentDefault := ParentDefault(metadata, env);
    if parentDefault.None? {
      return;
    }
    FillMissingLengths(bdas, parentDefault.value);
  }

  /** The loop of `inherit_array_length_from_parent`: `len` goes to every array without a length. */
  method FillMissingLengths(bdas: array<BinaryDataArray>, len: nat)
    modifies bdas
    ensures forall k :: 0 <= k < bdas.Length ==> bdas[k] == WithDefaultLength(old(bdas[k]), Some(len))
  {
    for i := 0 to bdas.Length
      invariant forall k :: 0 <= k < i ==> bdas[k] == WithDefaultLength(old(bdas[k]), Some(len))
      invariant forall k :: i <= k < bdas.Length ==> bdas[k] == old(bdas[k])
    {
      if bdas[i].arrayLength.None? {
        bdas[i] := bdas[i].(arrayLength := Some(len));
      }
    }
  }

  /** The rows that feed the arrays of list `listId`. */
  predicate Feeds(m: Metadatum, listId: u32)
  {
    m.tag == TAG_BINARY_DATA_ARRAY && m.parentIndex == listId
  }

  /** The rows of array `owner` in list `listId`, in row order. */
  function RowsOf(rows: seq<Metadatum>, listId: u32, owner: u32): seq<Metadatum>
  {
    if rows == [] then []
    else
      var m := rows[|rows| - 1];
      RowsOf(rows[..|rows| - 1], listId, owner) + (if Feeds(m, listId) && m.ownerId == owner then [m] else [])
  }

  function Keys<V>(g: seq<(u32, V)>): (r: seq<u32>)
    ensures |r| == |g| && forall k :: 0 <= k < |g| ==> r[k] == g[k].0
  {
    seq(|g|, k requires 0 <= k < |g| => g[k].0)
  }

  function Values<V>(g: seq<(u32, V)>): (r: seq<V>)
    ensures |r| == |g| && forall k :: 0 <= k < |g| ==> r[k] == g[k].1
  {
    seq(|g|, k requires 0 <= k < |g| => g[k].1)
  }

  /**
   * The `tmp` vector of `parse_binary_data_array_list` after `rows`: one (owner, array)
   * pair per owner, in order of the owner's first row, each row applied to its owner's array.
   */
  function Groups(rows: seq<Metadatum>, listId: u32, env: Env): seq<(u32, BinaryDataArray)>
  {
    GroupBy(rows, listId, NEW_BINARY_DATA_ARRAY, Step(env))
  }

  /** Grouping the feeding rows by owner, in order of first appearance, folding `step` from `seed` within each group. */
  function GroupBy<V>(rows: seq<Metadatum>, listId: u32, seed: V, step: (V, Metadatum) -> V): seq<(u32, V)>
  {
    if rows == [] then []
    else
      var g := GroupBy(rows[..|rows| - 1], listId, seed, step);
      var m := rows[|rows| - 1];
      if !Feeds(m, listId) then g
      else if m.ownerId in Keys(g) then
        var k := FirstAt(Keys(g), m.ownerId);
        g[k := (m.ownerId, step(g[k].1, m))]
      else g + [(m.ownerId, step(seed, m))]
  }

  lemma FoldSnoc<V>(v: V, rows: seq<Metadatum>, m: Metadatum, step: (V, Metadatum) -> V)
    ensures Fold(v, rows + [m], step) == step(Fold(v, rows, step), m)
  {
    assert (rows + [m])[..|rows|] == rows;
  }

  /** The groups are the feeding owners, once each, in order of first appearance. */
  lemma {:induction false} GroupByKeys<V>(rows: seq<Metadatum>, listId: u32, seed: V, step: (V, Metadatum) -> V)
    ensures Keys(GroupBy(rows, listId, seed, step)) == Distinct(Owners(rows, ByParentTag(listId, TAG_BINARY_DATA_ARRAY)))
  {
    if rows != [] {
      var init, m := rows[..|rows| - 1], rows[|rows| - 1];
      assert rows == init + [m];
      GroupByKeys(init, listId, seed, step);
      var g := GroupBy(init, listId, seed, step);
      var sel := ByParentTag(listId, TAG_BINARY_DATA_ARRAY);
      var o := Owners(init, sel);
      OwnersSnoc(init, m, sel);
      if !Feeds(m, listId) {
        assert Owners(rows, sel) == o;
      } else if m.ownerId in Keys(g) {
        var k := FirstAt(Keys(g), m.ownerId);
        assert Keys(GroupBy(rows, listId, seed, step)) == Keys(g) by {
          KeysUpdate(g, k, m.ownerId, step(g[k].1, m));
        }
        assert Distinct(Owners(rows, sel)) == Distinct(o) by {
          assert Owners(rows, sel) == o + [m.ownerId];
          DistinctSnoc(o, m.ownerId);
        }
      } else {
        assert Keys(GroupBy(rows, listId, seed, step)) == Keys(g) + [m.ownerId] by {
          NewKeyAt(g, m.ownerId, step(seed, m));
        }
        assert Distinct(Owners(rows, sel)) == Distinct(o) + [m.ownerId] by {
          assert Owners(rows, sel) == o + [m.ownerId];
          DistinctSnoc(o, m.ownerId);
        }
      }
    }
  }

  /** A row that does not feed `owner` leaves that owner's rows alone. */
  lemma RowsOfSnoc(rows: seq<Metadatum>, m: Metadatum, listId: u32, owner: u32)
    ensures RowsOf(rows + [m], listId, owner) ==
            if Feeds(m, listId) && m.ownerId == owner then RowsOf(rows, listId, owner) + [m] else RowsOf(rows, listId, owner)
  {
    assert (rows + [m])[..|rows|] == rows;
    assert RowsOf(rows, listId, owner) + [] == RowsOf(rows, listId, owner);
  }

  /** An owner without a group has no feeding rows. */
  lemma {:induction false} GroupByAbsent<V>(rows: seq<Metadatum>, listId: u32, seed: V, step: (V, Metadatum) -> V)
    ensures forall id :: id !in Keys(GroupBy(rows, listId, seed, step)) ==> RowsOf(rows, listId, id) == []
  {
    if rows != [] {
      var init, m := rows[..|rows| - 1], rows[|rows| - 1];
      assert rows == init + [m];
      GroupByAbsent(init, listId, seed, step);
      var g := GroupBy(init, listId, seed, step);
      var g' := GroupBy(rows, listId, seed, step);
      forall id | id !in Keys(g') ensures RowsOf(rows, listId, id) == [] {
        RowsOfSnoc(init, m, listId, id);
        if Feeds(m, listId) {
          if m.ownerId in Keys(g) {
            var k0 := FirstAt(Keys(g), m.ownerId);
            KeysUpdate(g, k0, m.ownerId, step(g[k0].1, m));
          } else {
            NewKeyAt(g, m.ownerId, step(seed, m));
          }
        }
      }
    }
  }

  /** Each group holds its owner's rows folded in row order. */
  lemma {:induction false} GroupByContents<V>(rows: seq<Metadatum>, listId: u32, seed: V, step: (V, Metadatum) -> V)
    ensures forall k :: 0 <= k < |GroupBy(rows, listId, seed, step)| ==>
              GroupBy(rows, listId, seed, step)[k].1 == Fold(seed, RowsOf(rows, listId, GroupBy(rows, listId, seed, step)[k].0), step)
  {
    if rows != [] {
      var init, m := rows[..|rows| - 1], rows[|rows| - 1];
      assert rows == init + [m];
      GroupByContents(init, listId, seed, step);
      var g := GroupBy(init, listId, seed, step);
      var g' := GroupBy(rows, listId, seed, step);
      var before := (x: u32) => RowsOf(init, listId, x);
      var after := (x: u32) => RowsOf(rows, listId, x);
      if !Feeds(m, listId) {
        assert g' == g;
        assert forall k :: 0 <= k < |g| ==> after(g[k].0) == before(g[k].0) by {
          RowsOfStep(init, m, listId);
        }
      } else if m.ownerId in Keys(g) {
        var k0 := FirstAt(Keys(g), m.ownerId);
        assert g[k0].0 == Keys(g)[k0] == m.ownerId;
        assert g' == g[k0 := (g[k0].0, step(g[k0].1, m))];
        assert forall k :: 0 <= k < |g'| ==> g'[k].1 == Fold(seed, after(g'[k].0), step) by {
          RowsOfStep(init, m, listId);
          GroupByKeys(init, listId, seed, step);
          FoldedAfterUpdate(g, k0, m, seed, step, before, after);
        }
      } else {
        assert g' == g + [(m.ownerId, step(seed, m))];
        assert forall k :: 0 <= k < |g'| ==> g'[k].1 == Fold(seed, after(g'[k].0), step) by {
          RowsOfStep(init, m, listId);
          GroupByAbsent(init, listId, seed, step);
          FoldedAfterAppend(g, m.ownerId, m, seed, step, before, after);
        }
      }
    }
  }

  /** `RowsOfSnoc` for every owner at once. */
  lemma RowsOfStep(rows: seq<Metadatum>, m: Metadatum, listId: u32)
    ensures forall x :: RowsOf(rows + [m], listId, x) ==
                        if Feeds(m, listId) && m.ownerId == x then RowsOf(rows, listId, x) + [m] else RowsOf(rows, listId, x)
  {
    forall x ensures RowsOf(rows + [m], listId, x) ==
                     if Feeds(m, listId) && m.ownerId == x then RowsOf(rows, listId, x) + [m] else RowsOf(rows, listId, x) {
      RowsOfSnoc(rows, m, listId, x);
    }
  }

  /** Folding one more row into group `k0` keeps every group equal to its owner's rows folded. */
  lemma FoldedAfterUpdate<V>(g: seq<(u32, V)>, k0: nat, m: Metadatum, seed: V, step: (V, Metadatum) -> V,
                             before: u32 -> seq<Metadatum>, after: u32 -> seq<Metadatum>)
    requires k0 < |g| && NoDups(Keys(g))
    requires forall k :: 0 <= k < |g| ==> g[k].1 == Fold(seed, before(g[k].0), step)
    requires forall x :: after(x) == if x == g[k0].0 then before(x) + [m] else before(x)
    ensures var g' := g[k0 := (g[k0].0, step(g[k0].1, m))];
            forall k :: 0 <= k < |g'| ==> g'[k].1 == Fold(seed, after(g'[k].0), step)
  {
    FoldSnoc(seed, before(g[k0].0), m, step);
    forall k | 0 <= k < |g| && k != k0 ensures g[k].0 != g[k0].0 {
      assert Keys(g)[k] != Keys(g)[k0];
    }
  }

  /** A new group for a new owner's first row keeps every group equal to its owner's rows folded. */
  lemma FoldedAfterAppend<V>(g: seq<(u32, V)>, id: u32, m: Metadatum, seed: V, step: (V, Metadatum) -> V,
                             before: u32 -> seq<Metadatum>, after: u32 -> seq<Metadatum>)
    requires id !in Keys(g) && before(id) == []
    requires forall k :: 0 <= k < |g| ==> g[k].1 == Fold(seed, before(g[k].0), step)
    requires forall x :: after(x) == if x == id then before(x) + [m] else before(x)
    ensures var g' := g + [(id, step(seed, m))];
            forall k :: 0 <= k < |g'| ==> g'[k].1 == Fold(seed, after(g'[k].0), step)
  {
    FoldSnoc(seed, [], m, step);
    assert after(id) == [m];
    forall k | 0 <= k < |g| ensures g[k].0 != id {
      assert Keys(g)[k] == g[k].0;
    }
  }

  predicate StrictlySorted<V>(s: seq<(u32, V)>)
  {
    forall i, j :: 0 <= i < j < |s| ==> s[i].0 < s[j].0
  }

  /** `x` placed in front of the first element with a larger key. */
  function Insert<V(==)>(x: (u32, V), s: seq<(u32, V)>): (r: seq<(u32, V)>)
    ensures multiset(r) == multiset(s) + multiset{x}
  {
    if s == [] then [x]
    else if x.0 < s[0].0 then [x] + s
    else
      assert s == [s[0]] + s[1..];
      [s[0]] + Insert(x, s[1..])
  }

  /** Inserting a new key into a strictly sorted sequence keeps it strictly sorted. */
  lemma {:induction false} InsertSorted<V>(x: (u32, V), s: seq<(u32, V)>)
    requires StrictlySorted(s)
    requires forall i :: 0 <= i < |s| ==> s[i].0 != x.0
    ensures StrictlySorted(Insert(x, s))
  {
    if s != [] && x.0 > s[0].0 {
      var rest := s[1..];
      assert forall i :: 0 <= i < |rest| ==> rest[i] == s[i + 1];
      InsertSorted(x, rest);
      InsertAbove(x, rest, s[0].0);
      var t := Insert(x, rest);
      var u := Insert(x, s);
      assert u == [s[0]] + t;
      forall i, j | 0 <= i < j < |u| ensures u[i].0 < u[j].0 {
        assert u[j] == t[j - 1];
        if i > 0 {
          assert u[i] == t[i - 1];
        }
      }
    } else if s != [] {
      assert forall j :: 0 < j < |s| ==> s[0].0 < s[j].0;
    }
  }

  /** A bound below `x` and every key of `s` stays below every key after the insertion. */
  lemma {:induction false} InsertAbove<V>(x: (u32, V), s: seq<(u32, V)>, b: int)
    requires b < x.0 && forall i :: 0 <= i < |s| ==> b < s[i].0
    ensures forall i :: 0 <= i < |Insert(x, s)| ==> b < Insert(x, s)[i].0
  {
    if s != [] && x.0 >= s[0].0 {
      InsertAbove(x, s[1..], b);
    }
  }

  /** `sort_unstable_by_key(|(id, _)| *id)`, as an insertion sort. */
  function SortByKey<V(==)>(s: seq<(u32, V)>): (r: seq<(u32, V)>)
    ensures multiset(r) == multiset(s)
  {
    if s == [] then []
    else
      assert s == s[..|s| - 1] + [s[|s| - 1]];
      Insert(s[|s| - 1], SortByKey(s[..|s| - 1]))
  }

  /** With distinct keys the sorted groups are strictly increasing by key. */
  lemma {:induction false} SortByKeySorted<V>(s: seq<(u32, V)>)
    requires NoDups(Keys(s))
    ensures StrictlySorted(SortByKey(s))
  {
    if s != [] {
      var init, x := s[..|s| - 1], s[|s| - 1];
      assert forall k :: 0 <= k < |init| ==> Keys(init)[k] == Keys(s)[k];
      SortByKeySorted(init);
      forall y | y in SortByKey(init) ensures y.0 != x.0 {
        assert y in multiset(SortByKey(init));
        assert y in init;
        var k :| 0 <= k < |init| && init[k] == y;
        assert Keys(s)[k] != Keys(s)[|s| - 1];
      }
      InsertSorted(x, SortByKey(init));
    }
  }

  /** Both members of a permutation hold the same keys. */
  lemma SameKeys<V>(a: seq<(u32, V)>, b: seq<(u32, V)>)
    requires multiset(a) == multiset(b)
    ensures forall x :: x in Keys(a) <==> x in Keys(b)
  {
    forall x | x in Keys(a) ensures x in Keys(b) {
      var k :| 0 <= k < |a| && Keys(a)[k] == x;
      assert a[k] in multiset(b);
      var j :| 0 <= j < |b| && b[j] == a[k];
      assert Keys(b)[j] == x;
    }
    forall x | x in Keys(b) ensures x in Keys(a) {
      var k :| 0 <= k < |b| && Keys(b)[k] == x;
      assert b[k] in multiset(a);
      var j :| 0 <= j < |a| && a[j] == b[k];
      assert Keys(a)[j] == x;
    }
  }

  /** The count rows of list `listId` that hold a u32. */
  function CountCandidate(m: Metadatum, listId: u32, env: Env): Option<u32>
  {
    if m.tag == TAG_BINARY_DATA_ARRAY_LIST && m.ownerId == listId && B000Tail(m.accession) == Some(ACC_ATTR_COUNT)
    then AsU32(m.value, env) else None
  }

  /** The first count attribute of the list row that holds a u32. */
  function ListCount(rows: seq<Metadatum>, listId: u32, env: Env): (r: Option<u32>)
    ensures r.None? <==> forall i :: 0 <= i < |rows| ==> CountCandidate(rows[i], listId, env).None?
    ensures r.Some? ==> exists i :: 0 <= i < |rows| && CountCandidate(rows[i], listId, env) == r &&
                          forall j :: 0 <= j < i ==> CountCandidate(rows[j], listId, env).None?
  {
    FindMap(rows, m => CountCandidate(m, listId, env))
  }

  /** The first index at or after `i` of a row with tag `tag`. */
  function FindTag(rows: seq<Metadatum>, tag: TagId, i: nat): (r: Option<nat>)
    requires i <= |rows|
    ensures r.None? <==> forall k :: i <= k < |rows| ==> rows[k].tag != tag
    ensures r.Some? ==> i <= r.value < |rows| && rows[r.value].tag == tag
  {
    FirstIndexFrom(rows, (m: Metadatum) => m.tag == tag, i)
  }

  /** The list's id: the owner of the first list row, else the parent of the first array row. */
  function ListId(rows: seq<Metadatum>): (r: Option<u32>)
    ensures r.None? <==> forall k :: 0 <= k < |rows| ==>
                           rows[k].tag != TAG_BINARY_DATA_ARRAY_LIST && rows[k].tag != TAG_BINARY_DATA_ARRAY
  {
    match FindTag(rows, TAG_BINARY_DATA_ARRAY_LIST, 0)
    case Some(k) => Some(rows[k].ownerId)
    case None =>
      match FindTag(rows, TAG_BINARY_DATA_ARRAY, 0)
      case Some(k) => Some(rows[k].parentIndex)
      case None => None
  }

  /** What `parse_binary_data_array_list` returns for `rows`. */
  function BinaryDataArrayListOf(rows: seq<Metadatum>, env: Env): Option<BinaryDataArrayList>
  {
    match ListId(rows)
    case None => None
    case Some(listId) =>
      var arrays := InheritAll(Values(SortByKey(Groups(rows, listId, env))), ParentDefault(rows, env));
      var count := match ListCount(rows, listId, env) case Some(c) => c case None => |arrays|;
      Some(BinaryDataArrayList(Some(count), arrays))
  }

  /**
   * `parse_binary_data_array_list`: none without list or array rows. Otherwise the
   * arrays of the list, one per feeding owner id, sorted by owner id; each is its
   * owner's rows folded into one array, with a missing length taken from the first
   * default array length; the count is the list's first count attribute, else the
   * number of arrays.
   */
  lemma BinaryDataArrayListShape(rows: seq<Metadatum>, env: Env)
    requires ListId(rows).Some?
    ensures var listId := ListId(rows).value;
      var l := BinaryDataArrayListOf(rows, env).value;
      var s := SortByKey(Groups(rows, listId, env));
      && |l.arrays| == |s|
      && StrictlySorted(s)
      && (forall x :: x in Keys(s) <==> exists m :: m in rows && Feeds(m, listId) && m.ownerId == x)
      && (forall k :: 0 <= k < |s| ==>
            l.arrays[k] == WithDefaultLength(ParseBinaryDataArray(RowsOf(rows, listId, s[k].0), env), ParentDefault(rows, env)))
      && (ListCount(rows, listId, env).Some? ==> l.count == Some(ListCount(rows, listId, env).value as nat))
      && (ListCount(rows, listId, env).None? ==> l.count == Some(|s|))
  {
    SortedGroups(rows, ListId(rows).value, env);
  }

  /** The sorted groups: strictly increasing owner ids, exactly the feeding owners, each with its rows parsed. */
  lemma SortedGroups(rows: seq<Metadatum>, listId: u32, env: Env)
    ensures var s := SortByKey(Groups(rows, listId, env));
      && StrictlySorted(s)
      && (forall x :: x in Keys(s) <==> exists m :: m in rows && Feeds(m, listId) && m.ownerId == x)
      && (forall k :: 0 <= k < |s| ==> s[k].1 == ParseBinaryDataArray(RowsOf(rows, listId, s[k].0), env))
  {
    SortedGroupKeys(rows, listId, NEW_BINARY_DATA_ARRAY, Step(env));
    SortedGroupContents(rows, listId, NEW_BINARY_DATA_ARRAY, Step(env));
  }

  lemma SortedGroupKeys<V>(rows: seq<Metadatum>, listId: u32, seed: V, step: (V, Metadatum) -> V)
    ensures var s := SortByKey(GroupBy(rows, listId, seed, step));
      && StrictlySorted(s)
      && (forall x :: x in Keys(s) <==> exists m :: m in rows && Feeds(m, listId) && m.ownerId == x)
  {
    var g := GroupBy(rows, listId, seed, step);
    GroupByKeys(rows, listId, seed, step);
    SortByKeySorted(g);
    SameKeys(SortByKey(g), g);
    OwnersMembers(rows, ByParentTag(listId, TAG_BINARY_DATA_ARRAY));
  }

  lemma SortedGroupContents<V>(rows: seq<Metadatum>, listId: u32, seed: V, step: (V, Metadatum) -> V)
    ensures var s := SortByKey(GroupBy(rows, listId, seed, step));
      forall k :: 0 <= k < |s| ==> s[k].1 == Fold(seed, RowsOf(rows, listId, s[k].0), step)
  {
    var g := GroupBy(rows, listId, seed, step);
    var s := SortByKey(g);
    GroupByContents(rows, listId, seed, step);
    forall k | 0 <= k < |s|
      ensures s[k].1 == Fold(seed, RowsOf(rows, listId, s[k].0), step)
    {
      assert s[k] in multiset(g);
      var j :| 0 <= j < |g| && g[j] == s[k];
    }
  }

  /**
   * The loop of `parse_binary_data_array_list`: the count row is taken while no count
   * is known, and each feeding row goes to its owner's array, found through an
   * owner-to-position map or appended seed; then the arrays are sorted by owner id and
   * inherit the default length.
   */
  method ParseBinaryDataArrayList(metadata: seq<Metadatum>, env: Env) returns (r: Option<BinaryDataArrayList>)
    ensures r == BinaryDataArrayListOf(metadata, env)
    ensures r.None? <==> forall k :: 0 <= k < |metadata| ==>
              metadata[k].tag != TAG_BINARY_DATA_ARRAY_LIST && metadata[k].tag != TAG_BINARY_DATA_ARRAY
  {
    var listIdOpt := ListId(metadata);
    if listIdOpt.None? {
      return None;
    }
    var listId := listIdOpt.value;
    var count, tmp := CollectArrays(metadata, listId, env);
    if tmp == [] {
      return Some(BinaryDataArrayList(if count.Some? then Some(count.value as nat) else Some(0), []));
    }
    var values := Values(SortByKey(tmp));
    var bdas := new BinaryDataArray[|values|](k requires 0 <= k < |values| => values[k]);
    assert bdas[..] == values;
    InheritArrayLengthFromParent(metadata, bdas, env);
    var arrays := bdas[..];
    assert arrays == InheritAll(values, ParentDefault(metadata, env));
    r := Some(BinaryDataArrayList(if count.Some? then Some(count.value as nat) else Some(|arrays|), arrays));
  }

  /**
   * The row loop: the count row is taken while no count is known, and each feeding
   * row goes to its owner's array, found through an owner-to-position map or appended
   * as a new array.
   */
  method CollectArrays(metadata: seq<Metadatum>, listId: u32, env: Env)
    returns (count: Option<u32>, tmp: seq<(u32, BinaryDataArray)>)
    ensures count == ListCount(metadata, listId, env)
    ensures tmp == Groups(metadata, listId, env)
  {
    count := None;
    tmp := [];
    var index: map<u32, nat> := map[];
    for i := 0 to |metadata|
      invariant count == ListCount(metadata[..i], listId, env)
      invariant tmp == Groups(metadata[..i], listId, env)
      invariant forall id :: id in index <==> id in Keys(tmp)
      invariant forall id :: id in index ==> index[id] == FirstAt(Keys(tmp), id)
    {
      var m := metadata[i];
      RowStep(metadata, i, listId, env);
      if count.None? && m.tag == TAG_BINARY_DATA_ARRAY_LIST && m.ownerId == listId &&
         B000Tail(m.accession) == Some(ACC_ATTR_COUNT) {
        count := AsU32(m.value, env);
        continue;
      }
      if m.tag != TAG_BINARY_DATA_ARRAY || m.parentIndex != listId {
        continue;
      }
      tmp, index := FeedRow(tmp, index, m, listId, env, metadata[..i]);
    }
    assert metadata[..|metadata|] == metadata;
  }

  /** What row `i` does to the count and the groups found so far. */
  lemma RowStep(rows: seq<Metadatum>, i: nat, listId: u32, env: Env)
    requires i < |rows|
    ensures rows[..i + 1] == rows[..i] + [rows[i]]
    ensures ListCount(rows[..i + 1], listId, env) ==
            if ListCount(rows[..i], listId, env).Some? then ListCount(rows[..i], listId, env)
            else CountCandidate(rows[i], listId, env)
    ensures !Feeds(rows[i], listId) ==> Groups(rows[..i + 1], listId, env) == Groups(rows[..i], listId, env)
  {
    TakeSnoc(rows, i);
    FindMapStep(rows, i, m => CountCandidate(m, listId, env));
    GroupsSnoc(rows[..i], rows[i], listId, env);
  }

  lemma GroupsSnoc(rows: seq<Metadatum>, m: Metadatum, listId: u32, env: Env)
    ensures var g := Groups(rows, listId, env);
      Groups(rows + [m], listId, env) ==
        if !Feeds(m, listId) then g
        else if m.ownerId in Keys(g) then
          var k := FirstAt(Keys(g), m.ownerId);
          g[k := (m.ownerId, Apply(g[k].1, m, env))]
        else g + [(m.ownerId, Apply(NEW_BINARY_DATA_ARRAY, m, env))]
  {
    assert (rows + [m])[..|rows|] == rows;
  }

  /** One feeding row goes to its owner's array: found through `index`, or appended as a new array. */
  method FeedRow(tmp: seq<(u32, BinaryDataArray)>, index: map<u32, nat>, m: Metadatum, listId: u32, env: Env,
                 ghost before: seq<Metadatum>)
    returns (tmp': seq<(u32, BinaryDataArray)>, index': map<u32, nat>)
    requires Feeds(m, listId)
    requires tmp == Groups(before, listId, env)
    requires forall id :: id in index <==> id in Keys(tmp)
    requires forall id :: id in index ==> index[id] == FirstAt(Keys(tmp), id)
    ensures tmp' == Groups(before + [m], listId, env)
    ensures forall id :: id in index' <==> id in Keys(tmp')
    ensures forall id :: id in index' ==> index'[id] == FirstAt(Keys(tmp'), id)
  {
    var id := m.ownerId;
    GroupsSnoc(before, m, listId, env);
    if id in index {
      var at := index[id];
      KeysUpdate(tmp, at, id, Apply(tmp[at].1, m, env));
      tmp' := tmp[at := (id, Apply(tmp[at].1, m, env))];
      index' := index;
    } else {
      NewKeyAt(tmp, id, Apply(NEW_BINARY_DATA_ARRAY, m, env));
      tmp' := tmp + [(id, Apply(NEW_BINARY_DATA_ARRAY, m, env))];
      index' := index[id := |tmp|];
    }
  }

  /** Appending a pair with a new key: old keys keep their first position, the new one is last. */
  lemma NewKeyAt<V>(g: seq<(u32, V)>, id: u32, v: V)
    requires id !in Keys(g)
    ensures Keys(g + [(id, v)]) == Keys(g) + [id]
    ensures FirstAt(Keys(g + [(id, v)]), id) == |g|
    ensures forall x :: x in Keys(g) ==> FirstAt(Keys(g + [(id, v)]), x) == FirstAt(Keys(g), x)
  {
    var ks := Keys(g + [(id, v)]);
    assert ks == Keys(g) + [id];
    var k := FirstAt(ks, id);
    if k < |g| {
      assert false;
    }
    forall x | x in Keys(g) ensures FirstAt(ks, x) == FirstAt(Keys(g), x) {
      FirstAtSnoc(Keys(g), id, x);
    }
  }

  /** Replacing the value at the position of its own key leaves the keys alone. */
  lemma KeysUpdate<V>(g: seq<(u32, V)>, at: nat, id: u32, v: V)
    requires at < |g| && g[at].0 == id
    ensures Keys(g[at := (id, v)]) == Keys(g)
  {
    assert forall k :: 0 <= k < |g| ==> Keys(g[at := (id, v)])[k] == Keys(g)[k];
  }
}
