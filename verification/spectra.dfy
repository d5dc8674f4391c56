/**
 * Rebuilding the spectrum list from the flat metadata rows
 * (crates/parser/src/b64/utilities/parse_spectrum_list.rs): which items become
 * spectra and in which order, the rows each spectrum is built from, and the
 * attribute fallbacks of `parse_spectrum`.
 *
 * The schema lookup, `parse_cv_and_user_params` and the scan, product and
 * precursor list parsers are not part of this model: the allowed accessions
 * come in as a set and the sub-parsers as functions (`SubParsers`).
 */
module Spectra {
  import opened Wrappers
  import opened Seqs
  import opened Text
  import opened Mzml
  import opened Rows
  import opened XyArrays
  import opened BinaryArrayList

  /** What the scan-list sub-parser returns; its construction is not modelled. */
  datatype ScanList = ScanList(count: Option<nat>, scans: seq<seq<CvParam>>)

  /** What the product-list sub-parser returns; its construction is not modelled. */
  datatype ProductList = ProductList(count: Option<nat>, products: seq<seq<CvParam>>)

  /**
   * The sub-parsers `parse_spectrum` delegates to. Each sees the rows of one
   * spectrum; the params parser also gets the accessions it may keep.
   */
  datatype SubParsers = SubParsers(
    cvAndUserParams: (set<string>, seq<Metadatum>) -> (seq<CvParam>, seq<UserParam>),
    scanList: seq<Metadatum> -> Option<ScanList>,
    productList: seq<Metadatum> -> Option<ProductList>,
    precursorList: seq<Metadatum> -> Option<PrecursorList>)

  datatype Spectrum = Spectrum(
    id: string,
    index: Option<u32>,
    scanNumber: Option<u32>,
    defaultArrayLength: Option<nat>,
    nativeId: Option<string>,
    dataProcessingRef: Option<string>,
    sourceFileRef: Option<string>,
    spotId: Option<string>,
    msLevel: Option<u32>,
    referenceableParamGroupRefs: seq<string>,
    cvParams: seq<CvParam>,
    userParams: seq<UserParam>,
    scanList: Option<ScanList>,
    precursorList: Option<PrecursorList>,
    productList: Option<ProductList>,
    binaryDataArrayList: Option<BinaryDataArrayList>)

  datatype SpectrumList = SpectrumList(
    count: Option<nat>,
    defaultDataProcessingRef: Option<string>,
    spectra: seq<Spectrum>)

  predicate IsSpectrumListRow(m: Metadatum) { m.tag == TAG_SPECTRUM_LIST }
  predicate IsSpectrumRow(m: Metadatum) { m.tag == TAG_SPECTRUM }

  // ---------------------------------------------------------------- one spectrum

  /** A row that carries one of the spectrum's own params rather than a `B000:` attribute. */
  predicate IsParamRow(m: Metadatum, spectrumId: u32)
  {
    m.tag == TAG_SPECTRUM && m.ownerId == spectrumId &&
    !(m.accession.Some? && StartsWith(m.accession.value, CV_REF_ATTR + ":"))
  }

  /** The rows handed to the params parser, in row order. */
  function ParamRows(metadata: seq<Metadatum>, spectrumId: u32): (r: seq<Metadatum>)
    ensures |r| <= |metadata|
    ensures forall m :: m in r <==> m in metadata && IsParamRow(m, spectrumId)
  {
    if metadata == [] then []
    else
      var init, last := metadata[..|metadata| - 1], metadata[|metadata| - 1];
      assert metadata == init + [last];
      ParamRows(init, spectrumId) + (if IsParamRow(last, spectrumId) then [last] else [])
  }

  /** An empty allowed set lets every param through, which the params parser spells `{""}`. */
  function AllowedOrAll(allowed: set<string>): (r: set<string>)
    ensures r != {}
    ensures allowed != {} ==> r == allowed
  {
    if allowed == {} then {""} else allowed
  }

  /** The owner id of the first spectrum row, or 0 when there is none. */
  function SpectrumIdOf(spectrumRows: seq<Metadatum>): u32
  {
    if spectrumRows == [] then 0 else spectrumRows[0].ownerId
  }

  /** The length fallback: the attribute, else the x length, else the y length, else 0. */
  function ArrayLengthOf(attr: Option<u32>, bdal: Option<BinaryDataArrayList>): (r: nat)
    ensures attr.Some? ==> r == attr.value
  {
    if attr.Some? then attr.value
    else if bdal.None? then 0
    else match FirstLen(bdal.value.arrays, false)
      case Some(x) => x
      case None => FirstLen(bdal.value.arrays, true).GetOr(0)
  }

  /**
   * `parse_spectrum`: a spectrum from the rows of one item. The attributes are read
   * from its `spectrum` rows; the params from the rows of the first spectrum owner
   * that are not `B000:` attributes.
   */
  function ParseSpectrum(metadata: seq<Metadatum>, fallbackIndex: u32, allowed: set<string>,
                         defaultDpref: Option<string>, subs: SubParsers, env: Env): (r: Spectrum)
    ensures r.index.Some?
    ensures r.defaultArrayLength == Some(ArrayLengthOf(GetAttrU32(Filter(metadata, IsSpectrumRow), ACC_ATTR_DEFAULT_ARRAY_LENGTH, env),
                                                      BinaryDataArrayListOf(metadata, env)))
    ensures var attr := GetAttrU32(Filter(metadata, IsSpectrumRow), ACC_ATTR_INDEX, env);
            r.index == (if attr.Some? then attr else Some(fallbackIndex))
    ensures var own := GetAttrText(Filter(metadata, IsSpectrumRow), ACC_ATTR_DATA_PROCESSING_REF, env);
            (own.Some? ==> r.dataProcessingRef == own) && (own.None? ==> r.dataProcessingRef == defaultDpref)
    ensures r.id == GetAttrText(Filter(metadata, IsSpectrumRow), ACC_ATTR_ID, env).GetOr("")
    ensures r.referenceableParamGroupRefs == []
    ensures r.binaryDataArrayList == BinaryDataArrayListOf(metadata, env)
    ensures r.binaryDataArrayList.None? <==>
            forall k :: 0 <= k < |metadata| ==>
              metadata[k].tag != TAG_BINARY_DATA_ARRAY_LIST && metadata[k].tag != TAG_BINARY_DATA_ARRAY
  {
    var spectrumRows := Filter(metadata, IsSpectrumRow);
    var spectrumId := SpectrumIdOf(spectrumRows);
    var ownDpref := GetAttrText(spectrumRows, ACC_ATTR_DATA_PROCESSING_REF, env);
    var params := subs.cvAndUserParams(AllowedOrAll(allowed), ParamRows(metadata, spectrumId));
    var bdal := BinaryDataArrayListOf(metadata, env);
    var lengthAttr := GetAttrU32(spectrumRows, ACC_ATTR_DEFAULT_ARRAY_LENGTH, env);
    Spectrum(
      GetAttrText(spectrumRows, ACC_ATTR_ID, env).GetOr(""),
      GetAttrU32(spectrumRows, ACC_ATTR_INDEX, env).Or(Some(fallbackIndex)),
      GetAttrU32(spectrumRows, ACC_ATTR_SCAN_NUMBER, env),
      Some(ArrayLengthOf(lengthAttr, bdal)),
      GetAttrText(spectrumRows, ACC_ATTR_NATIVE_ID, env),
      ownDpref.Or(defaultDpref),
      GetAttrText(spectrumRows, ACC_ATTR_SOURCE_FILE_REF, env),
      GetAttrText(spectrumRows, ACC_ATTR_SPOT_ID, env),
      GetAttrU32(spectrumRows, ACC_ATTR_MS_LEVEL, env),
      [],
      params.0,
      params.1,
      subs.scanList(metadata),
      subs.precursorList(metadata),
      subs.productList(metadata),
      bdal)
  }

  /**
   * Without a length attribute the default array length is the decoded length of the
   * first non-empty x array, else of the first non-empty y array, else 0.
   */
  lemma ArrayLengthFallback(bdal: Option<BinaryDataArrayList>)
    ensures bdal.None? ==> ArrayLengthOf(None, bdal) == 0
    ensures bdal.Some? ==>
              var arrays := bdal.value.arrays;
              && ((exists i :: 0 <= i < |arrays| && Counts(arrays[i], false)) ==>
                    exists i :: 0 <= i < |arrays| && Counts(arrays[i], false) &&
                      ArrayLengthOf(None, bdal) == DecodedLen(arrays[i]) &&
                      forall j :: 0 <= j < i ==> !Counts(arrays[j], false))
              && ((forall i :: 0 <= i < |arrays| ==> !Counts(arrays[i], false)) &&
                  (exists i :: 0 <= i < |arrays| && Counts(arrays[i], true)) ==>
                    exists i :: 0 <= i < |arrays| && Counts(arrays[i], true) &&
                      ArrayLengthOf(None, bdal) == DecodedLen(arrays[i]) &&
                      forall j :: 0 <= j < i ==> !Counts(arrays[j], true))
              && ((forall i :: 0 <= i < |arrays| ==> !Counts(arrays[i], false)) &&
                  (forall i :: 0 <= i < |arrays| ==> !Counts(arrays[i], true)) ==>
                    ArrayLengthOf(None, bdal) == 0)
  {
  }

  /** The params parser sees every own-param row of the spectrum and nothing else. */
  lemma ParamRowsOfSpectrum(metadata: seq<Metadatum>, m: Metadatum)
    requires m in metadata
    ensures var id := SpectrumIdOf(Filter(metadata, IsSpectrumRow));
            m in ParamRows(metadata, id) <==>
              m.tag == TAG_SPECTRUM && m.ownerId == id &&
              (m.accession.None? || !StartsWith(m.accession.value, "B000:"))
  {
  }

  // ---------------------------------------------------------------- the list

  /** The item index of each row. */
  function ItemsOf(rows: seq<Metadatum>): (r: seq<u32>)
    ensures |r| == |rows| && forall k :: 0 <= k < |rows| ==> r[k] == rows[k].itemIndex
  {
    seq(|rows|, k requires 0 <= k < |rows| => rows[k].itemIndex)
  }

  lemma ItemsOfSnoc(rows: seq<Metadatum>, m: Metadatum)
    ensures ItemsOf(rows + [m]) == ItemsOf(rows) + [m.itemIndex]
  {
  }

  /**
   * The owner-to-item map: each owner id of the rows is mapped to the item index
   * of its last row (a later insert replaces an earlier one).
   */
  function OwnerToItem(rows: seq<Metadatum>): (r: map<u32, u32>)
    ensures forall o :: o in r <==> exists m :: m in rows && m.ownerId == o
    ensures forall o :: o in r ==> exists m :: m in rows && m.ownerId == o && m.itemIndex == r[o]
  {
    if rows == [] then map[]
    else
      var init, last := rows[..|rows| - 1], rows[|rows| - 1];
      assert rows == init + [last];
      OwnerToItem(init)[last.ownerId := last.itemIndex]
  }

  /** The last row of an owner decides its item. */
  lemma {:induction false} OwnerToItemLast(rows: seq<Metadatum>, k: nat)
    requires k < |rows|
    requires forall j :: k < j < |rows| ==> rows[j].ownerId != rows[k].ownerId
    ensures rows[k].ownerId in OwnerToItem(rows) && OwnerToItem(rows)[rows[k].ownerId] == rows[k].itemIndex
  {
    var init := rows[..|rows| - 1];
    if k < |rows| - 1 {
      OwnerToItemLast(init, k);
    }
  }

  /** The items of the direct child ids that have a spectrum row, in child order. */
  function MappedItems(direct: seq<u32>, ownerToItem: map<u32, u32>): (r: seq<u32>)
    ensures forall x :: x in r <==> exists k :: 0 <= k < |direct| && direct[k] in ownerToItem && ownerToItem[direct[k]] == x
  {
    if direct == [] then []
    else
      var init, last := direct[..|direct| - 1], direct[|direct| - 1];
      assert direct == init + [last];
      MappedItems(init, ownerToItem) + (if last in ownerToItem then [ownerToItem[last]] else [])
  }

  lemma MappedItemsSnoc(direct: seq<u32>, id: u32, ownerToItem: map<u32, u32>)
    ensures MappedItems(direct + [id], ownerToItem) ==
            MappedItems(direct, ownerToItem) + (if id in ownerToItem then [ownerToItem[id]] else [])
  {
    assert (direct + [id])[..|direct|] == direct;
  }

  /**
   * The order of the spectra: the items of the direct `spectrum` children of the first
   * spectrum-list row's owner, first occurrence kept; the items of the spectrum rows in
   * order of first appearance when there is no list row, no such child or no child with
   * a spectrum row. `indexRows` are the rows the child index was built from.
   */
  function Ordering(metadata: seq<Metadatum>, indexRows: seq<Metadatum>): seq<u32>
  {
    var inOrder := Distinct(ItemsOf(Filter(metadata, IsSpectrumRow)));
    match DirectOrder(metadata, indexRows)
    case Some(out) => if out == [] then inOrder else out
    case None => inOrder
  }

  /**
   * The items of the direct `spectrum` children of the first spectrum-list row's owner,
   * first occurrence kept; none without a list row or without such a child.
   */
  function DirectOrder(metadata: seq<Metadatum>, indexRows: seq<Metadatum>): (r: Option<seq<u32>>)
    ensures r.Some? ==> NoDups(r.value)
    ensures r.Some? ==> forall x :: x in r.value ==> exists m :: m in Filter(metadata, IsSpectrumRow) && m.itemIndex == x
  {
    var listRows := Filter(metadata, IsSpectrumListRow);
    if listRows == [] then None
    else
      var direct := Owners(indexRows, ByParentTag(listRows[0].ownerId, TAG_SPECTRUM));
      if direct == [] then None
      else
        MappedShape(direct, Filter(metadata, IsSpectrumRow));
        Some(Distinct(MappedItems(direct, OwnerToItem(Filter(metadata, IsSpectrumRow)))))
  }

  /** The rows of one item, in row order. */
  function ItemRows(metadata: seq<Metadatum>, item: u32): (r: seq<Metadatum>)
    ensures forall m :: m in r <==> m in metadata && m.itemIndex == item
  {
    if metadata == [] then []
    else
      var init, last := metadata[..|metadata| - 1], metadata[|metadata| - 1];
      assert metadata == init + [last];
      ItemRows(init, item) + (if last.itemIndex == item then [last] else [])
  }

  lemma ItemRowsSnoc(metadata: seq<Metadatum>, m: Metadatum, item: u32)
    ensures ItemRows(metadata + [m], item) == ItemRows(metadata, item) + (if m.itemIndex == item then [m] else [])
  {
    assert (metadata + [m])[..|metadata|] == metadata;
  }

  /** `ItemRowsSnoc` along a prefix of `metadata`, for every item at once. */
  lemma ItemRowsStep(metadata: seq<Metadatum>, i: nat)
    requires i < |metadata|
    ensures forall x :: ItemRows(metadata[..i + 1], x) ==
                        if metadata[i].itemIndex == x then ItemRows(metadata[..i], x) + [metadata[i]] else ItemRows(metadata[..i], x)
  {
    TakeSnoc(metadata, i);
    forall x ensures ItemRows(metadata[..i + 1], x) ==
                     if metadata[i].itemIndex == x then ItemRows(metadata[..i], x) + [metadata[i]] else ItemRows(metadata[..i], x) {
      ItemRowsSnoc(metadata[..i], metadata[i], x);
    }
  }

  /**
   * Row `i` recorded under its item in a map from the wanted items to their rows so
   * far: the map still holds exactly the wanted items that have rows, each with its rows.
   */
  lemma GroupIntoMap(g: map<u32, seq<Metadatum>>, want: set<u32>, metadata: seq<Metadatum>, i: nat)
    requires i < |metadata|
    requires forall x :: x in g <==> x in want && ItemRows(metadata[..i], x) != []
    requires forall x :: x in g ==> g[x] == ItemRows(metadata[..i], x)
    ensures var key, v := metadata[i].itemIndex, metadata[i];
            var g' := if key in want then g[key := (if key in g then g[key] else []) + [v]] else g;
            && (forall x :: x in g' <==> x in want && ItemRows(metadata[..i + 1], x) != [])
            && (forall x :: x in g' ==> g'[x] == ItemRows(metadata[..i + 1], x))
  {
    ItemRowsStep(metadata, i);
  }

  /** `fallback_index as u32`: the position, truncated to 32 bits. */
  function FallbackIndex(k: nat): u32
  {
    k % U32_LIMIT
  }

  /** `parse_spectrum` with the list-wide arguments fixed: item rows and fallback index in, spectrum out. */
  function Parser(allowed: set<string>, defaultDpref: Option<string>, subs: SubParsers, env: Env):
    (seq<Metadatum>, u32) -> Spectrum
  {
    (rows: seq<Metadatum>, k: u32) => ParseSpectrum(rows, k, allowed, defaultDpref, subs, env)
  }

  /**
   * The spectra of the first `n` items of `order`: an item without rows is skipped,
   * and each spectrum's fallback index is the item's position in `order`.
   */
  function SpectraOf<S>(order: seq<u32>, n: nat, metadata: seq<Metadatum>, parse: (seq<Metadatum>, u32) -> S): (r: seq<S>)
    requires n <= |order|
    ensures |r| <= n
  {
    if n == 0 then []
    else
      var rows := ItemRows(metadata, order[n - 1]);
      SpectraOf(order, n - 1, metadata, parse) + (if rows == [] then [] else [parse(rows, FallbackIndex(n - 1))])
  }

  /** The list's default data-processing reference: four places are tried in turn. */
  function DefaultDpref(metadata: seq<Metadatum>, env: Env): (r: Option<string>)
    ensures r.None? <==>
            && GetAttrText(Filter(metadata, IsSpectrumListRow), ACC_ATTR_DEFAULT_DATA_PROCESSING_REF, env).None?
            && GetAttrText(Filter(metadata, IsSpectrumListRow), ACC_ATTR_DATA_PROCESSING_REF, env).None?
            && GetAttrText(metadata, ACC_ATTR_DEFAULT_DATA_PROCESSING_REF, env).None?
            && GetAttrText(metadata, ACC_ATTR_DATA_PROCESSING_REF, env).None?
    ensures GetAttrText(Filter(metadata, IsSpectrumListRow), ACC_ATTR_DEFAULT_DATA_PROCESSING_REF, env).Some? ==>
            r == GetAttrText(Filter(metadata, IsSpectrumListRow), ACC_ATTR_DEFAULT_DATA_PROCESSING_REF, env)
    ensures var listRows := Filter(metadata, IsSpectrumListRow);
            GetAttrText(listRows, ACC_ATTR_DEFAULT_DATA_PROCESSING_REF, env).None? ==>
            if GetAttrText(listRows, ACC_ATTR_DATA_PROCESSING_REF, env).Some? then
              r == GetAttrText(listRows, ACC_ATTR_DATA_PROCESSING_REF, env)
            else if GetAttrText(metadata, ACC_ATTR_DEFAULT_DATA_PROCESSING_REF, env).Some? then
              r == GetAttrText(metadata, ACC_ATTR_DEFAULT_DATA_PROCESSING_REF, env)
            else
              r == GetAttrText(metadata, ACC_ATTR_DATA_PROCESSING_REF, env)
  {
    var listRows := Filter(metadata, IsSpectrumListRow);
    GetAttrText(listRows, ACC_ATTR_DEFAULT_DATA_PROCESSING_REF, env)
      .Or(GetAttrText(listRows, ACC_ATTR_DATA_PROCESSING_REF, env))
      .Or(GetAttrText(metadata, ACC_ATTR_DEFAULT_DATA_PROCESSING_REF, env))
      .Or(GetAttrText(metadata, ACC_ATTR_DATA_PROCESSING_REF, env))
  }

  /** The count attribute of the list rows, else of any row. */
  function CountAttr(metadata: seq<Metadatum>, env: Env): (r: Option<u32>)
    ensures r.None? <==> GetAttrU32(Filter(metadata, IsSpectrumListRow), ACC_ATTR_COUNT, env).None? &&
                         GetAttrU32(metadata, ACC_ATTR_COUNT, env).None?
    ensures GetAttrU32(Filter(metadata, IsSpectrumListRow), ACC_ATTR_COUNT, env).Some? ==>
            r == GetAttrU32(Filter(metadata, IsSpectrumListRow), ACC_ATTR_COUNT, env)
    ensures GetAttrU32(Filter(metadata, IsSpectrumListRow), ACC_ATTR_COUNT, env).None? ==>
            r == GetAttrU32(metadata, ACC_ATTR_COUNT, env)
  {
    GetAttrU32(Filter(metadata, IsSpectrumListRow), ACC_ATTR_COUNT, env).Or(GetAttrU32(metadata, ACC_ATTR_COUNT, env))
  }

  /** `parse_spectrum_list`, as a function of the rows and the child index's rows. */
  function SpectrumListOf(metadata: seq<Metadatum>, indexRows: seq<Metadatum>, allowed: set<string>,
                          subs: SubParsers, env: Env): Option<SpectrumList>
  {
    if Filter(metadata, IsSpectrumRow) == [] then None
    else
      var order := Ordering(metadata, indexRows);
      var dpref := DefaultDpref(metadata, env);
      var spectra := SpectraOf(order, |order|, metadata, Parser(allowed, dpref, subs, env));
      if spectra == [] then None
      else
        var count := match CountAttr(metadata, env) case Some(c) => c case None => |spectra|;
        Some(SpectrumList(Some(count), dpref, spectra))
  }

  // ---------------------------------------------------------------- list properties

  /** Every item of a spectrum row, in order of first appearance. */
  lemma InOrderShape(spectrumRows: seq<Metadatum>)
    ensures forall x :: x in Distinct(ItemsOf(spectrumRows)) ==> exists m :: m in spectrumRows && m.itemIndex == x
    ensures Distinct(ItemsOf(spectrumRows)) == [] <==> spectrumRows == []
  {
    var items := ItemsOf(spectrumRows);
    forall x | x in Distinct(items)
      ensures exists m :: m in spectrumRows && m.itemIndex == x
    {
      var k :| 0 <= k < |items| && items[k] == x;
      assert spectrumRows[k] in spectrumRows;
    }
    if spectrumRows != [] {
      assert items[0] in items;
    }
  }

  /** The direct-child items are items of spectrum rows too. */
  lemma MappedShape(direct: seq<u32>, spectrumRows: seq<Metadatum>)
    ensures forall x :: x in Distinct(MappedItems(direct, OwnerToItem(spectrumRows))) ==>
              exists m :: m in spectrumRows && m.itemIndex == x
  {
    var owners := OwnerToItem(spectrumRows);
    forall x | x in Distinct(MappedItems(direct, owners))
      ensures exists m :: m in spectrumRows && m.itemIndex == x
    {
      var k :| 0 <= k < |direct| && direct[k] in owners && owners[direct[k]] == x;
    }
  }

  /** The order lists each item at most once. */
  lemma OrderingNoDups(metadata: seq<Metadatum>, indexRows: seq<Metadatum>)
    ensures NoDups(Ordering(metadata, indexRows))
  {
  }

  /** The order lists only items of spectrum rows. */
  lemma OrderingItems(metadata: seq<Metadatum>, indexRows: seq<Metadatum>)
    ensures forall x :: x in Ordering(metadata, indexRows) ==>
              exists m :: m in Filter(metadata, IsSpectrumRow) && m.itemIndex == x
  {
    InOrderShape(Filter(metadata, IsSpectrumRow));
  }

  /** The order is empty exactly when there is no spectrum row. */
  lemma OrderingNonEmpty(metadata: seq<Metadatum>, indexRows: seq<Metadatum>)
    ensures Ordering(metadata, indexRows) == [] <==> Filter(metadata, IsSpectrumRow) == []
  {
    InOrderShape(Filter(metadata, IsSpectrumRow));
    var d := DirectOrder(metadata, indexRows);
    if d.Some? && d.value != [] {
      assert d.value[0] in d.value;
    }
  }

  /** Every item in the order has rows, so no item is skipped. */
  lemma OrderedItemsHaveRows(metadata: seq<Metadatum>, indexRows: seq<Metadatum>)
    ensures forall x :: x in Ordering(metadata, indexRows) ==> ItemRows(metadata, x) != []
  {
    OrderingItems(metadata, indexRows);
    forall x | x in Ordering(metadata, indexRows)
      ensures ItemRows(metadata, x) != []
    {
      var m :| m in Filter(metadata, IsSpectrumRow) && m.itemIndex == x;
      assert m in ItemRows(metadata, x);
    }
  }

  /** When no item is skipped, there is one spectrum per item. */
  lemma {:induction false} SpectraOfCount<S>(order: seq<u32>, n: nat, metadata: seq<Metadatum>, parse: (seq<Metadatum>, u32) -> S)
    requires n <= |order|
    requires forall k :: 0 <= k < n ==> ItemRows(metadata, order[k]) != []
    ensures |SpectraOf(order, n, metadata, parse)| == n
  {
    if n > 0 {
      SpectraOfCount(order, n - 1, metadata, parse);
    }
  }

  /** When no item is skipped, the k-th spectrum is built from the rows of the k-th item. */
  lemma {:induction false} SpectraOfAll<S>(order: seq<u32>, n: nat, metadata: seq<Metadatum>, parse: (seq<Metadatum>, u32) -> S)
    requires n <= |order|
    requires forall k :: 0 <= k < n ==> ItemRows(metadata, order[k]) != []
    ensures var r := SpectraOf(order, n, metadata, parse);
            |r| == n && forall k :: 0 <= k < n ==> r[k] == parse(ItemRows(metadata, order[k]), FallbackIndex(k))
  {
    if n > 0 {
      SpectraOfAll(order, n - 1, metadata, parse);
    }
  }

  /** No row is a spectrum row exactly when the spectrum-row filter is empty. */
  lemma NoSpectrumRows(metadata: seq<Metadatum>)
    ensures Filter(metadata, IsSpectrumRow) == [] <==> forall k :: 0 <= k < |metadata| ==> !IsSpectrumRow(metadata[k])
  {
    var spectrumRows := Filter(metadata, IsSpectrumRow);
    if spectrumRows == [] {
      forall k | 0 <= k < |metadata|
        ensures !IsSpectrumRow(metadata[k])
      {
        assert metadata[k] in metadata;
      }
    } else {
      var m :| m in spectrumRows;
      assert exists k :: 0 <= k < |metadata| && metadata[k] == m;
    }
  }

  /** With a spectrum row, some spectrum is built, whatever the parser. */
  lemma SpectraPresent<S>(metadata: seq<Metadatum>, indexRows: seq<Metadatum>, parse: (seq<Metadatum>, u32) -> S)
    ensures var order := Ordering(metadata, indexRows);
            Filter(metadata, IsSpectrumRow) != [] ==> SpectraOf(order, |order|, metadata, parse) != []
  {
    var order := Ordering(metadata, indexRows);
    OrderingNonEmpty(metadata, indexRows);
    OrderedItemsHaveRows(metadata, indexRows);
    SpectraOfCount(order, |order|, metadata, parse);
  }

  /** The list exists exactly when some row is a spectrum row: no ordered item is ever skipped. */
  lemma SpectrumListNone(metadata: seq<Metadatum>, indexRows: seq<Metadatum>, allowed: set<string>,
                         subs: SubParsers, env: Env)
    ensures SpectrumListOf(metadata, indexRows, allowed, subs, env).None? <==> Filter(metadata, IsSpectrumRow) == []
  {
    SpectraPresent(metadata, indexRows, Parser(allowed, DefaultDpref(metadata, env), subs, env));
  }

  /**
   * A list holds one spectrum per ordered item, built from that item's rows with its
   * position as fallback index and the list's default data-processing reference; its
   * count is the count attribute, else the number of spectra.
   */
  lemma SpectrumListContents(metadata: seq<Metadatum>, indexRows: seq<Metadatum>, allowed: set<string>,
                             subs: SubParsers, env: Env)
    ensures var r := SpectrumListOf(metadata, indexRows, allowed, subs, env);
            var order := Ordering(metadata, indexRows);
            var dpref := DefaultDpref(metadata, env);
            r.Some? ==>
              && r.value.defaultDataProcessingRef == dpref
              && |r.value.spectra| == |order|
              && (forall k :: 0 <= k < |order| ==>
                    r.value.spectra[k] == ParseSpectrum(ItemRows(metadata, order[k]), FallbackIndex(k), allowed, dpref, subs, env))
              && (CountAttr(metadata, env).Some? ==> r.value.count == Some(CountAttr(metadata, env).value))
              && (CountAttr(metadata, env).None? ==> r.value.count == Some(|order|))
  {
    var r := SpectrumListOf(metadata, indexRows, allowed, subs, env);
    if r.Some? {
      var order := Ordering(metadata, indexRows);
      var dpref := DefaultDpref(metadata, env);
      var parse := Parser(allowed, dpref, subs, env);
      SpectrumListParts(metadata, indexRows, allowed, subs, env);
      OrderedItemsHaveRows(metadata, indexRows);
      SpectraOfAll(order, |order|, metadata, parse);
    }
  }

  /** A list that is produced holds the parsed items, the default reference and the count. */
  lemma SpectrumListParts(metadata: seq<Metadatum>, indexRows: seq<Metadatum>, allowed: set<string>,
                          subs: SubParsers, env: Env)
    ensures var r := SpectrumListOf(metadata, indexRows, allowed, subs, env);
            var order := Ordering(metadata, indexRows);
            var dpref := DefaultDpref(metadata, env);
            var spectra := SpectraOf(order, |order|, metadata, Parser(allowed, dpref, subs, env));
            r.Some? ==>
              && r.value.spectra == spectra
              && r.value.defaultDataProcessingRef == dpref
              && r.value.count == Some(if CountAttr(metadata, env).Some? then CountAttr(metadata, env).value else |spectra|)
  {
  }

  /**
   * Without a spectrum-list row the spectra follow the first appearance of their items
   * among the spectrum rows.
   */
  lemma OrderWithoutListRow(metadata: seq<Metadatum>, indexRows: seq<Metadatum>, i: nat, j: nat)
    requires Filter(metadata, IsSpectrumListRow) == []
    requires i < j < |Ordering(metadata, indexRows)|
    ensures var items := ItemsOf(Filter(metadata, IsSpectrumRow));
            var order := Ordering(metadata, indexRows);
            FirstAt(items, order[i]) < FirstAt(items, order[j])
  {
    DistinctOrder(ItemsOf(Filter(metadata, IsSpectrumRow)), i, j);
  }

  /**
   * When some direct child of the list owner has a spectrum row, the spectra follow
   * the child order of the index instead.
   */
  lemma OrderFollowsChildren(metadata: seq<Metadatum>, indexRows: seq<Metadatum>, i: nat, j: nat)
    requires Filter(metadata, IsSpectrumListRow) != []
    requires var listRows := Filter(metadata, IsSpectrumListRow);
             var direct := Owners(indexRows, ByParentTag(listRows[0].ownerId, TAG_SPECTRUM));
             exists k :: 0 <= k < |direct| && direct[k] in OwnerToItem(Filter(metadata, IsSpectrumRow))
    requires i < j < |Ordering(metadata, indexRows)|
    ensures var listRows := Filter(metadata, IsSpectrumListRow);
            var direct := Owners(indexRows, ByParentTag(listRows[0].ownerId, TAG_SPECTRUM));
            var mapped := MappedItems(direct, OwnerToItem(Filter(metadata, IsSpectrumRow)));
            var order := Ordering(metadata, indexRows);
            order == Distinct(mapped) && FirstAt(mapped, order[i]) < FirstAt(mapped, order[j])
  {
    var listRows := Filter(metadata, IsSpectrumListRow);
    var direct := Owners(indexRows, ByParentTag(listRows[0].ownerId, TAG_SPECTRUM));
    var owners := OwnerToItem(Filter(metadata, IsSpectrumRow));
    var mapped := MappedItems(direct, owners);
    var k :| 0 <= k < |direct| && direct[k] in owners;
    assert owners[direct[k]] in mapped;
    assert owners[direct[k]] in Distinct(mapped);
    DistinctOrder(mapped, i, j);
  }

  // ---------------------------------------------------------------- the method

  /** The first loop: the owner-to-item map and the items in order of first appearance. */
  method IndexSpectrumRows(spectrumRows: seq<Metadatum>) returns (ownerToItem: map<u32, u32>, inOrder: seq<u32>)
    ensures ownerToItem == OwnerToItem(spectrumRows)
    ensures inOrder == Distinct(ItemsOf(spectrumRows))
  {
    ownerToItem, inOrder := map[], [];
    var seen: set<u32> := {};
    for i := 0 to |spectrumRows|
      invariant ownerToItem == OwnerToItem(spectrumRows[..i])
      invariant inOrder == Distinct(ItemsOf(spectrumRows[..i]))
      invariant forall x :: x in seen <==> x in inOrder
    {
      var m := spectrumRows[i];
      ghost var items := ItemsOf(spectrumRows[..i]);
      assert OwnerToItem(spectrumRows[..i + 1]) == ownerToItem[m.ownerId := m.itemIndex] by {
        TakeSnoc(spectrumRows, i);
      }
      assert ItemsOf(spectrumRows[..i + 1]) == items + [m.itemIndex] by {
        TakeSnoc(spectrumRows, i);
        ItemsOfSnoc(spectrumRows[..i], m);
      }
      DistinctSnoc(items, m.itemIndex);
      assert m.itemIndex in seen <==> m.itemIndex in items;
      ownerToItem := ownerToItem[m.ownerId := m.itemIndex];
      if m.itemIndex !in seen {
        seen := seen + {m.itemIndex};
        inOrder := inOrder + [m.itemIndex];
      }
    }
    assert spectrumRows[..|spectrumRows|] == spectrumRows;
  }

  /** The second loop: the items of the direct children, first occurrence kept. */
  method DirectItems(direct: seq<u32>, ownerToItem: map<u32, u32>) returns (out: seq<u32>)
    ensures out == Distinct(MappedItems(direct, ownerToItem))
  {
    out := [];
    var seen: set<u32> := {};
    for i := 0 to |direct|
      invariant out == Distinct(MappedItems(direct[..i], ownerToItem))
      invariant forall x :: x in seen <==> x in out
    {
      var id := direct[i];
      var before := MappedItems(direct[..i], ownerToItem);
      assert direct[..i + 1] == direct[..i] + [id];
      MappedItemsSnoc(direct[..i], id, ownerToItem);
      if id in ownerToItem {
        var item := ownerToItem[id];
        assert MappedItems(direct[..i + 1], ownerToItem) == before + [item];
        DistinctSnoc(before, item);
        assert item in seen <==> item in before;
        if item !in seen {
          seen := seen + {item};
          out := out + [item];
        }
      } else {
        assert MappedItems(direct[..i + 1], ownerToItem) == before + [];
        assert before + [] == before;
      }
    }
    assert direct[..|direct|] == direct;
  }

  /** The third loop: the rows of each wanted item, in row order. */
  method GroupByItem(metadata: seq<Metadatum>, want: set<u32>) returns (byItem: map<u32, seq<Metadatum>>)
    ensures forall x :: x in byItem <==> x in want && ItemRows(metadata, x) != []
    ensures forall x :: x in byItem ==> byItem[x] == ItemRows(metadata, x)
  {
    byItem := map[];
    for i := 0 to |metadata|
      invariant forall x :: x in byItem <==> x in want && ItemRows(metadata[..i], x) != []
      invariant forall x :: x in byItem ==> byItem[x] == ItemRows(metadata[..i], x)
    {
      var m := metadata[i];
      ghost var was := byItem;
      if m.itemIndex in want {
        var prior := if m.itemIndex in byItem then byItem[m.itemIndex] else [];
        byItem := byItem[m.itemIndex := prior + [m]];
      }
      GroupIntoMap(was, want, metadata, i);
    }
    assert metadata[..|metadata|] == metadata;
  }

  /** The choice of order: the direct children of the list owner, or the row order. */
  method SpectrumOrder(metadata: seq<Metadatum>, childIndex: ChildIndex, listRows: seq<Metadatum>,
                       spectrumRows: seq<Metadatum>) returns (order: seq<u32>)
    requires childIndex.Valid()
    requires listRows == Filter(metadata, IsSpectrumListRow) && spectrumRows == Filter(metadata, IsSpectrumRow)
    ensures order == Ordering(metadata, childIndex.rows)
  {
    var ownerToItem, inOrder := IndexSpectrumRows(spectrumRows);
    if listRows == [] {
      order := inOrder;
    } else {
      var direct := childIndex.Ids(listRows[0].ownerId, TAG_SPECTRUM);
      if direct == [] {
        order := inOrder;
      } else {
        var out := DirectItems(direct, ownerToItem);
        order := if out == [] then inOrder else out;
      }
    }
  }

  /** The last two loops: the rows of each ordered item, then one spectrum per item that has rows. */
  method ParseItems<S>(order: seq<u32>, metadata: seq<Metadatum>, parse: (seq<Metadatum>, u32) -> S)
    returns (spectra: seq<S>)
    ensures spectra == SpectraOf(order, |order|, metadata, parse)
  {
    var want := set x | x in order;
    var byItem := GroupByItem(metadata, want);
    spectra := [];
    for k := 0 to |order|
      invariant spectra == SpectraOf(order, k, metadata, parse)
    {
      var item := order[k];
      if item !in byItem {
        continue;
      }
      spectra := spectra + [parse(byItem[item], FallbackIndex(k))];
    }
  }

  /**
   * `parse_spectrum_list`: the spectra of the items in `Ordering`, each parsed from its
   * own rows, with the list's count and default data-processing reference.
   */
  method ParseSpectrumList(metadata: seq<Metadatum>, childIndex: ChildIndex, allowed: set<string>,
                           subs: SubParsers, env: Env) returns (r: Option<SpectrumList>)
    requires childIndex.Valid()
    ensures r == SpectrumListOf(metadata, childIndex.rows, allowed, subs, env)
    ensures r.None? <==> forall k :: 0 <= k < |metadata| ==> metadata[k].tag != TAG_SPECTRUM
  {
    var listRows := Filter(metadata, IsSpectrumListRow);
    var dpref := GetAttrText(listRows, ACC_ATTR_DEFAULT_DATA_PROCESSING_REF, env)
      .Or(GetAttrText(listRows, ACC_ATTR_DATA_PROCESSING_REF, env))
      .Or(GetAttrText(metadata, ACC_ATTR_DEFAULT_DATA_PROCESSING_REF, env))
      .Or(GetAttrText(metadata, ACC_ATTR_DATA_PROCESSING_REF, env));
    var countAttr := GetAttrU32(listRows, ACC_ATTR_COUNT, env).Or(GetAttrU32(metadata, ACC_ATTR_COUNT, env));
    var spectrumRows := Filter(metadata, IsSpectrumRow);
    SpectrumListNone(metadata, childIndex.rows, allowed, subs, env);
    NoSpectrumRows(metadata);
    if spectrumRows == [] {
      return None;
    }
    var order := SpectrumOrder(metadata, childIndex, listRows, spectrumRows);
    var spectra := ParseItems(order, metadata, Parser(allowed, dpref, subs, env));
    if spectra == [] {
      return None;
    }
    var count := match countAttr case Some(c) => c case None => |spectra|;
    r := Some(SpectrumList(Some(count), dpref, spectra));
  }
}
