/**
 * The mzML values the reader produces (crates/parser/src/mzml/structs.rs is not part
 * of this model; the fields below are the ones the modelled code reads or writes),
 * the flat metadata rows it rebuilds them from (`Metadatum` in decode2.rs), and the
 * parts of the environment the model takes as parameters.
 */
module Mzml {
  import opened Wrappers

  /**
   * A schema tag, as `tag as u8`. The numbering lives in schema.rs, which is not part
   * of this model; the named tags below only need to be distinct.
   */
  type TagId = byte

  const TAG_SPECTRUM_LIST: TagId := 1
  const TAG_SPECTRUM: TagId := 2
  const TAG_CV_PARAM: TagId := 3
  const TAG_BINARY_DATA_ARRAY_LIST: TagId := 4
  const TAG_BINARY_DATA_ARRAY: TagId := 5

  /**
   * Attributes of an mzML element are stored as rows whose accession is
   * "B000:<code>". The codes come from attr_meta.rs, which is not part of this model;
   * the named codes below only need to be distinct.
   */
  const CV_REF_ATTR: string := "B000"

  const ACC_ATTR_ID: u32 := 1
  const ACC_ATTR_INDEX: u32 := 2
  const ACC_ATTR_COUNT: u32 := 3
  const ACC_ATTR_ARRAY_LENGTH: u32 := 4
  const ACC_ATTR_ENCODED_LENGTH: u32 := 5
  const ACC_ATTR_DATA_PROCESSING_REF: u32 := 6
  const ACC_ATTR_DEFAULT_ARRAY_LENGTH: u32 := 7
  const ACC_ATTR_DEFAULT_DATA_PROCESSING_REF: u32 := 8
  const ACC_ATTR_SCAN_NUMBER: u32 := 9
  const ACC_ATTR_MS_LEVEL: u32 := 10
  const ACC_ATTR_NATIVE_ID: u32 := 11
  const ACC_ATTR_SOURCE_FILE_REF: u32 := 12
  const ACC_ATTR_SPOT_ID: u32 := 13

  /** A metadata value; a number is kept as the bit pattern of its f64. */
  datatype MetadatumValue = Number(bits: u64) | Text(text: string) | Empty

  /** One flat metadata row: which item and element it belongs to, and one attribute or param. */
  datatype Metadatum = Metadatum(
    itemIndex: u32,
    ownerId: u32,
    parentIndex: u32,
    tag: TagId,
    accession: Option<string>,
    unitAccession: Option<string>,
    value: MetadatumValue)

  /**
   * What the model does not compute itself: `f64::to_string`, the "finite whole number
   * in u32 range" test and cast of `as_u32`, `str::from_utf8`, and the controlled
   * vocabulary table (`cv_table::get(..).as_str()`) as a finite map.
   */
  datatype Env = Env(
    f64Display: u64 -> string,
    f64AsU32: u64 -> Option<u32>,
    utf8: seq<byte> -> Option<string>,
    cvNames: map<string, string>)

  /** The name the vocabulary table gives `key`, if any. */
  function CvName(env: Env, key: string): Option<string>
  {
    if key in env.cvNames then Some(env.cvNames[key]) else None
  }

  datatype CvParam = CvParam(
    cvRef: Option<string>,
    accession: Option<string>,
    name: string,
    value: Option<string>,
    unitCvRef: Option<string>,
    unitAccession: Option<string>,
    unitName: Option<string>)

  datatype UserParam = UserParam(
    name: string,
    unitAccession: Option<string>,
    unitCvRef: Option<string>,
    unitName: Option<string>,
    value: Option<string>)

  datatype NumericType = Int32 | Float32 | Int64 | Float64

  /** Decoded samples are kept as their raw 4- or 8-byte little-endian chunks. */
  datatype BinaryDataArray = BinaryDataArray(
    arrayLength: Option<nat>,
    encodedLength: Option<nat>,
    dataProcessingRef: Option<string>,
    cvParams: seq<CvParam>,
    userParams: seq<UserParam>,
    numericType: Option<NumericType>,
    isF32: Option<bool>,
    isF64: Option<bool>,
    decodedF32: seq<seq<byte>>,
    decodedF64: seq<seq<byte>>)

  const NEW_BINARY_DATA_ARRAY: BinaryDataArray :=
    BinaryDataArray(None, None, None, [], [], None, None, None, [], [])

  datatype BinaryDataArrayList = BinaryDataArrayList(count: Option<nat>, arrays: seq<BinaryDataArray>)

  datatype IsolationWindow = IsolationWindow(cvParams: seq<CvParam>)
  datatype SelectedIon = SelectedIon(cvParams: seq<CvParam>)
  datatype SelectedIonList = SelectedIonList(count: Option<nat>, selectedIons: seq<SelectedIon>)
  datatype Activation = Activation(cvParams: seq<CvParam>)
  datatype Precursor = Precursor(
    isolationWindow: Option<IsolationWindow>,
    selectedIonList: Option<SelectedIonList>,
    activation: Option<Activation>)
  datatype PrecursorList = PrecursorList(count: Option<nat>, precursors: seq<Precursor>)
}
