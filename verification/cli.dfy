/**
 * The pure helpers of the command-line tool (crates/cli/src/main.rs): the `--items`
 * selector and how it picks from a list, the output-file naming, the resolution of
 * user paths, and the pruning of empty JSON values before output.
 *
 * Paths are Unix paths held as strings: '/' is the only separator and a path is
 * absolute when it starts with '/'.
 */
module Cli {
  import opened Wrappers
  import opened Seqs
  import opened Text

  // ---------------------------------------------------------------- item selection

  /** `ItemsSpec`: one index, or a half-open range of indices. */
  datatype ItemsSpec = One(index: u64) | Range(start: u64, endExclusive: u64)

  const ERR_BAD_START: string := "bad items start"
  const ERR_BAD_END: string := "bad items end"
  const ERR_END_BEFORE_START: string := "items end must be >= start"
  const ERR_BAD_INDEX: string := "bad items index"
  const ERR_OUT_OF_BOUNDS: string := "items out of bounds"

  /** `str::parse::<usize>` on a 64-bit target. */
  function ParseUsize(s: string): (r: Option<u64>)
  {
    ParseUnsigned(s, U64_LIMIT)
  }

  /**
   * `parse_items_spec`: after trimming, text with a '-' is a range split at the first
   * '-', each side trimmed and parsed, the end no smaller than the start; any other
   * text is a single index.
   */
  function ParseItemsSpec(s: string): (r: Result<ItemsSpec>)
    ensures r.Ok? && r.value.Range? ==> r.value.start <= r.value.endExclusive && '-' in Trim(s)
    ensures r.Ok? && r.value.One? ==> '-' !in Trim(s)
    ensures r.Err? ==> r.msg in {ERR_BAD_START, ERR_BAD_END, ERR_END_BEFORE_START, ERR_BAD_INDEX}
  {
    var t := Trim(s);
    match SplitOnce(t, '-')
    case Some(halves) => ParseRange(ParseUsize(Trim(halves.0)), ParseUsize(Trim(halves.1)))
    case None =>
      match ParseUsize(t)
      case None => Err(ERR_BAD_INDEX)
      case Some(i) => Ok(One(i))
  }

  /** The range branch: both ends must parse, and the end may not come before the start. */
  function ParseRange(start: Option<u64>, end: Option<u64>): (r: Result<ItemsSpec>)
    ensures r.Ok? ==> r.value.Range? && r.value.start <= r.value.endExclusive
    ensures r.Err? ==> r.msg in {ERR_BAD_START, ERR_BAD_END, ERR_END_BEFORE_START}
  {
    if start.None? then Err(ERR_BAD_START)
    else if end.None? then Err(ERR_BAD_END)
    else if end.value < start.value then Err(ERR_END_BEFORE_START)
    else Ok(Range(start.value, end.value))
  }

  /** A string that neither starts nor ends with white space is its own trim. */
  lemma TrimUnchanged(s: string)
    requires |s| > 0 && !IsSpace(s[0]) && !IsSpace(s[|s| - 1])
    ensures Trim(s) == s
  {
  }

  /** A number in decimal reads back as itself. */
  lemma ParseUsizeDecimal(n: u64)
    ensures ParseUsize(Decimal(n)) == Some(n)
  {
    assert ZeroPad(Decimal(n), 0) == Decimal(n);
    ParsePadded(n, 0, U64_LIMIT);
  }

  /** A number in decimal is its own trim. */
  lemma TrimDecimal(n: nat)
    ensures Trim(Decimal(n)) == Decimal(n)
  {
    var d := Decimal(n);
    assert !IsSpace(d[0]) && !IsSpace(d[|d| - 1]);
    TrimUnchanged(d);
  }

  /** `"a-b"` reads as the range from `a` to `b`, and is refused when `b < a`. */
  lemma ParseItemsSpecRange(a: u64, b: u64)
    ensures ParseItemsSpec(Decimal(a) + "-" + Decimal(b)) ==
            if b < a then Err(ERR_END_BEFORE_START) else Ok(Range(a, b))
  {
    var da, db := Decimal(a), Decimal(b);
    var s := da + "-" + db;
    assert ParseItemsSpec(s) == ParseRange(ParseUsize(Trim(da)), ParseUsize(Trim(db))) by {
      RangeText(da, db);
      RangeBranch(s, da, db);
    }
    assert ParseUsize(Trim(da)) == Some(a) by {
      TrimDecimal(a);
      ParseUsizeDecimal(a);
    }
    assert ParseUsize(Trim(db)) == Some(b) by {
      TrimDecimal(b);
      ParseUsizeDecimal(b);
    }
  }

  /** Two digit strings joined by '-' are their own trim and split back at the '-'. */
  lemma RangeText(p: string, q: string)
    requires |p| > 0 && |q| > 0 && AllDigits(p) && AllDigits(q)
    ensures Trim(p + "-" + q) == p + "-" + q
    ensures SplitOnce(p + "-" + q, '-') == Some((p, q))
  {
    var s := p + "-" + q;
    assert s[0] == p[0] && s[|s| - 1] == q[|q| - 1];
    TrimUnchanged(s);
    DigitsHaveNo(p, '-');
    assert s == p + ['-'] + q;
    SplitOnceOf(p, q, '-');
  }

  lemma RangeBranch(s: string, p: string, q: string)
    requires Trim(s) == s && SplitOnce(s, '-') == Some((p, q))
    ensures ParseItemsSpec(s) == ParseRange(ParseUsize(Trim(p)), ParseUsize(Trim(q)))
  {
  }

  /** A plain number reads as that single index. */
  lemma ParseItemsSpecOne(i: u64)
    ensures ParseItemsSpec(Decimal(i)) == Ok(One(i))
  {
    var d := Decimal(i);
    TrimDecimal(i);
    DigitsHaveNo(d, '-');
    ParseUsizeDecimal(i);
  }

  function Min(a: nat, b: nat): nat { if a < b then a else b }

  /**
   * `slice_indices`: the half-open window `[s, e)` a selector picks from a list of
   * `len` items, and whether it asked for a single item. An index past the end gives
   * the empty window at `len`; a range is clamped to the list.
   */
  function SliceIndices(len: nat, spec: ItemsSpec): (r: (nat, nat, bool))
    ensures r.2 <==> spec.One?
    ensures spec.One? ==> r.0 <= r.1 <= len && r.1 - r.0 <= 1
    ensures spec.One? ==> (r.0 < r.1 <==> spec.index < len) && (r.0 < r.1 ==> r.0 == spec.index)
    ensures spec.Range? && spec.start <= spec.endExclusive ==> r.0 <= r.1 <= len
    ensures spec.Range? ==> r.0 == Min(spec.start, len) && r.1 == Min(spec.endExclusive, len)
  {
    match spec
    case One(i) => if i >= len then (len, len, true) else (i, i + 1, true)
    case Range(start, end) => (Min(start, len), Min(end, len), false)
  }

  /** Every selector the parser accepts picks a window inside the list. */
  lemma ParsedWindowInside(s: string, len: nat)
    requires ParseItemsSpec(s).Ok?
    ensures var w := SliceIndices(len, ParseItemsSpec(s).value); w.0 <= w.1 <= len
  {
  }

  /** What `show` prints: one item, or the items of a range. */
  datatype Selection<T> = Single(item: T) | Many(items: seq<T>)

  /**
   * The selection step of `show`: an empty window is the error "items out of bounds";
   * a single index gives that item, a range the items of the window.
   */
  function SelectItems<T>(items: seq<T>, spec: ItemsSpec): (r: Result<Selection<T>>)
    requires spec.Range? ==> spec.start <= spec.endExclusive
    ensures var w := SliceIndices(|items|, spec); r.Err? <==> w.0 == w.1
    ensures r.Err? ==> r.msg == ERR_OUT_OF_BOUNDS
  {
    var (s, e, single) := SliceIndices(|items|, spec);
    if s == e then Err(ERR_OUT_OF_BOUNDS)
    else if single then Ok(Single(items[s]))
    else Ok(Many(items[s..e]))
  }

  /** One index is out of bounds exactly when it is past the end; otherwise that item is shown. */
  lemma SelectOne<T>(items: seq<T>, i: u64)
    ensures SelectItems(items, One(i)).Ok? <==> i < |items|
    ensures i < |items| ==> SelectItems(items, One(i)) == Ok(Single(items[i]))
  {
  }

  /**
   * A range is out of bounds exactly when it is empty or starts past the end;
   * otherwise the items from `start` up to `end` or the end of the list are shown.
   */
  lemma SelectRange<T>(items: seq<T>, start: u64, end: u64)
    requires start <= end
    ensures SelectItems(items, Range(start, end)).Ok? <==> start < end && start < |items|
    ensures start < end && start < |items| ==>
              SelectItems(items, Range(start, end)) == Ok(Many(items[start..Min(end, |items|)])) &&
              |items[start..Min(end, |items|)]| > 0
  {
  }

  // ---------------------------------------------------------------- file names

  /** `Path::file_name`: the last component, unless it is empty, `.` or `..`. */
  function FileName(path: string): (r: Option<string>)
    ensures r.Some? ==> '/' !in r.value && r.value != "" && r.value != "." && r.value != ".."
  {
    var name := AfterLast(path, '/');
    if name == "" || name == "." || name == ".." then None else Some(name)
  }

  /**
   * The split of a file name at its last dot, as `file_stem` and `extension` do it:
   * no extension without a dot, or when the only dot starts the name.
   */
  function SplitExtension(name: string): (r: (string, Option<string>))
    ensures r.1.None? ==> r.0 == name
    ensures r.1.Some? ==> name == r.0 + "." + r.1.value && r.0 != "" && '.' !in r.1.value
  {
    if name == ".." then (name, None)
    else match LastIndexOf(name, '.')
      case None => (name, None)
      case Some(k) =>
        if k == 0 then (name, None)
        else
          assert name == name[..k] + "." + name[k + 1..];
          (name[..k], Some(name[k + 1..]))
  }

  function Extension(path: string): Option<string>
  {
    match FileName(path)
    case None => None
    case Some(name) => SplitExtension(name).1
  }

  function FileStem(path: string): Option<string>
  {
    match FileName(path)
    case None => None
    case Some(name) => Some(SplitExtension(name).0)
  }

  /** `file_ext_lower`: the extension in ASCII lower case, or "" when there is none. */
  function FileExtLower(path: string): (r: string)
    ensures '.' !in r && '/' !in r
    ensures forall i :: 0 <= i < |r| ==> !('A' <= r[i] <= 'Z')
    ensures Extension(path).None? ==> r == ""
    ensures Extension(path).Some? ==> r == ToAsciiLower(Extension(path).value)
  {
    var ext := Extension(path).GetOr("");
    var r := ToAsciiLower(ext);
    assert forall i :: 0 <= i < |r| ==> r[i] != '.' && r[i] != '/' by {
      forall i | 0 <= i < |r|
        ensures r[i] != '.' && r[i] != '/'
      {
        assert ext[i] in ext;
        if Extension(path).Some? {
          var name := FileName(path).value;
          assert name == SplitExtension(name).0 + "." + ext;
          assert ext[i] in name;
        }
      }
    }
    r
  }

  /**
   * `out_name_for_mzml_file`: the file stem with the output extension, only for a file
   * whose extension is `mzml` in any letter case.
   */
  function OutNameForMzmlFile(path: string, outExt: string): (r: Option<string>)
    ensures r.Some? <==> FileExtLower(path) == "mzml"
    ensures r.Some? ==> exists stem, ext :: FileName(path) == Some(stem + "." + ext) &&
                          ToAsciiLower(ext) == "mzml" && r.value == stem + "." + outExt
  {
    if FileExtLower(path) != "mzml" then None
    else
      var name := FileName(path).value;
      var stem := FileStem(path).value;
      assert name == stem + "." + Extension(path).value;
      Some(stem + "." + outExt)
  }

  /**
   * `out_name_for_bin_file_as_mzml`: the file stem with `.mzML`, only for a file whose
   * extension is `b64` or `b32` in any letter case.
   */
  function OutNameForBinFileAsMzml(path: string): (r: Option<string>)
    ensures r.Some? <==> FileExtLower(path) == "b64" || FileExtLower(path) == "b32"
    ensures r.Some? ==> exists stem, ext :: FileName(path) == Some(stem + "." + ext) &&
                          ToAsciiLower(ext) in {"b64", "b32"} && r.value == stem + ".mzML"
  {
    var ext := FileExtLower(path);
    if ext != "b64" && ext != "b32" then None
    else
      var name := FileName(path).value;
      var stem := FileStem(path).value;
      assert name == stem + "." + Extension(path).value;
      Some(stem + ".mzML")
  }

  /** Splitting a name made of a non-empty stem, a dot and a dot-free extension gives them back. */
  lemma SplitExtensionOf(stem: string, ext: string)
    requires stem != "" && ext != "" && '.' !in ext
    ensures SplitExtension(stem + "." + ext) == (stem, Some(ext))
  {
    var name := stem + "." + ext;
    assert name[|stem|] == '.';
    assert name[|stem| + 1..] == ext;
    assert name[..|stem|] == stem;
  }

  /** The name of a file read from `dir`: stem, a dot and an extension. */
  lemma FileNameOf(dir: string, stem: string, ext: string)
    requires stem != "" && '/' !in stem && '.' !in ext && '/' !in ext && ext != ""
    ensures FileName(dir + "/" + stem + "." + ext) == Some(stem + "." + ext)
    ensures Extension(dir + "/" + stem + "." + ext) == Some(ext)
  {
    var name := stem + "." + ext;
    assert dir + "/" + stem + "." + ext == dir + ['/'] + name;
    assert '/' !in name by {
      forall i | 0 <= i < |name|
        ensures name[i] != '/'
      {
        if i < |stem| {
          assert name[i] == stem[i] && stem[i] in stem;
        } else if i > |stem| {
          assert name[i] == ext[i - |stem| - 1] && ext[i - |stem| - 1] in ext;
        }
      }
    }
    AfterLastOf(dir, name, '/');
    assert |name| >= 3;
    SplitExtensionOf(stem, ext);
  }

  /** `dir/stem.mzML` (any letter case of the extension) becomes `stem.<out_ext>`. */
  lemma OutNameForMzmlFileOf(dir: string, stem: string, ext: string, outExt: string)
    requires stem != "" && '/' !in stem && '.' !in ext && '/' !in ext && ToAsciiLower(ext) == "mzml"
    ensures OutNameForMzmlFile(dir + "/" + stem + "." + ext, outExt) == Some(stem + "." + outExt)
  {
    FileNameOf(dir, stem, ext);
    SplitExtensionOf(stem, ext);
  }

  /** `dir/stem.b64` or `dir/stem.B32` becomes `stem.mzML`. */
  lemma OutNameForBinFileOf(dir: string, stem: string, ext: string)
    requires stem != "" && '/' !in stem && '.' !in ext && '/' !in ext && ToAsciiLower(ext) in {"b64", "b32"}
    ensures OutNameForBinFileAsMzml(dir + "/" + stem + "." + ext) == Some(stem + ".mzML")
  {
    FileNameOf(dir, stem, ext);
    SplitExtensionOf(stem, ext);
  }

  /**
   * A name whose only dot starts it (`.mzML`, say) has no extension, so the file is not
   * converted, whatever follows the dot.
   */
  lemma HiddenFileNotConverted(dir: string, name: string, outExt: string)
    requires |name| >= 2 && name[0] == '.' && '.' !in name[1..] && '/' !in name
    ensures OutNameForMzmlFile(dir + "/" + name, outExt).None?
  {
    var path := dir + "/" + name;
    assert FileName(path) == Some(name) by {
      assert path == dir + ['/'] + name;
      AfterLastOf(dir, name, '/');
      assert name != "." && name != ".." by { assert name[1] in name[1..]; }
    }
    LeadingDotOnly(name);
    NoExtensionNotConverted(path, outExt);
  }

  /** A name whose only dot is its first character has no extension. */
  lemma LeadingDotOnly(name: string)
    requires |name| >= 2 && name[0] == '.' && '.' !in name[1..]
    ensures SplitExtension(name).1.None?
  {
    assert name != ".." by { assert name[1] in name[1..]; }
  }

  /** A path without an extension is not converted. */
  lemma NoExtensionNotConverted(path: string, outExt: string)
    requires Extension(path).None?
    ensures OutNameForMzmlFile(path, outExt).None?
  {
  }

  // ---------------------------------------------------------------- user paths

  predicate IsAbsolute(p: string) { |p| > 0 && p[0] == '/' }

  /** `PathBuf::join` of a relative path: a separator goes in unless `base` is empty or already ends with one. */
  function Join(base: string, p: string): (r: string)
    ensures |r| >= |p| && r[|r| - |p|..] == p
  {
    if base == [] || base[|base| - 1] == '/' then base + p else base + "/" + p
  }

  /** `resolve_user_path`: an absolute path as it is, a relative one joined onto `cwd`. */
  function ResolveUserPath(cwd: string, p: string): (r: string)
    ensures IsAbsolute(p) ==> r == p
    ensures !IsAbsolute(p) ==> r == Join(cwd, p)
    ensures IsAbsolute(cwd) ==> IsAbsolute(r)
  {
    if IsAbsolute(p) then p else Join(cwd, p)
  }

  /** Against an absolute working directory, resolving twice is resolving once. */
  lemma ResolveIdempotent(cwd: string, p: string)
    requires IsAbsolute(cwd)
    ensures ResolveUserPath(cwd, ResolveUserPath(cwd, p)) == ResolveUserPath(cwd, p)
  {
  }

  // ---------------------------------------------------------------- JSON pruning

  /**
   * A JSON value (`serde_json::Value`). Numbers are never inspected and keep their
   * text; an object is its members in order, with distinct keys.
   */
  datatype Json =
    | Null
    | Bool(b: bool)
    | Number(repr: string)
    | String(s: string)
    | Array(elems: seq<Json>)
    | Object(members: seq<Member>)

  datatype Member = Member(key: string, value: Json)

  /** What `prune_json` answers for an already pruned value: false for null, "", [] and {}. */
  predicate Kept(v: Json)
  {
    match v
    case Null => false
    case Bool(_) => true
    case Number(_) => true
    case String(s) => s != ""
    case Array(xs) => xs != []
    case Object(ms) => ms != []
  }

  predicate MemberKept(m: Member) { Kept(m.value) }

  /** The value `prune_json` leaves behind: every kept element and member pruned, the others dropped. */
  function Pruned(v: Json): Json
    decreases v
  {
    match v
    case Array(xs) => Array(Filter(seq(|xs|, i requires 0 <= i < |xs| => Pruned(xs[i])), Kept))
    case Object(ms) =>
      Object(Filter(seq(|ms|, i requires 0 <= i < |ms| => Member(ms[i].key, Pruned(ms[i].value))), MemberKept))
    case _ => v
  }

  /** No nested value is null, "", [] or {}: every element and member, at every depth, is kept. */
  predicate Clean(v: Json)
    decreases v
  {
    match v
    case Array(xs) => forall i :: 0 <= i < |xs| ==> Kept(xs[i]) && Clean(xs[i])
    case Object(ms) => forall i :: 0 <= i < |ms| ==> Kept(ms[i].value) && Clean(ms[i].value)
    case _ => true
  }

  /** The pruned value has no empty value left anywhere inside it. */
  lemma {:induction false} PrunedClean(v: Json)
    ensures Clean(Pruned(v))
    decreases v
  {
    match v
    case Array(xs) =>
      var all := seq(|xs|, i requires 0 <= i < |xs| => Pruned(xs[i]));
      var ys := Filter(all, Kept);
      forall j | 0 <= j < |ys|
        ensures Kept(ys[j]) && Clean(ys[j])
      {
        assert ys[j] in ys;
        var i :| 0 <= i < |all| && all[i] == ys[j];
        PrunedClean(xs[i]);
      }
    case Object(ms) =>
      var all := seq(|ms|, i requires 0 <= i < |ms| => Member(ms[i].key, Pruned(ms[i].value)));
      var ys := Filter(all, MemberKept);
      forall j | 0 <= j < |ys|
        ensures Kept(ys[j].value) && Clean(ys[j].value)
      {
        assert ys[j] in ys;
        var i :| 0 <= i < |all| && all[i] == ys[j];
        PrunedClean(ms[i].value);
      }
    case _ =>
  }

  /** A clean value is left as it is. */
  lemma {:induction false} PruneClean(v: Json)
    requires Clean(v)
    ensures Pruned(v) == v
    decreases v
  {
    match v
    case Array(xs) =>
      var all := seq(|xs|, i requires 0 <= i < |xs| => Pruned(xs[i]));
      forall i | 0 <= i < |xs|
        ensures all[i] == xs[i]
      {
        PruneClean(xs[i]);
      }
      assert all == xs;
      FilterKeepsAll(xs, Kept);
    case Object(ms) =>
      var all := seq(|ms|, i requires 0 <= i < |ms| => Member(ms[i].key, Pruned(ms[i].value)));
      forall i | 0 <= i < |ms|
        ensures all[i] == ms[i]
      {
        PruneClean(ms[i].value);
      }
      assert all == ms;
      FilterKeepsAll(ms, MemberKept);
    case _ =>
  }

  /** A second pruning changes nothing, and gives the same answer. */
  lemma PruneIdempotent(v: Json)
    ensures Pruned(Pruned(v)) == Pruned(v)
    ensures Kept(Pruned(Pruned(v))) == Kept(Pruned(v))
  {
    PrunedClean(v);
    PruneClean(Pruned(v));
  }

  /** Booleans and numbers are always kept; null never is. */
  lemma PruneScalars(v: Json)
    ensures (v.Bool? || v.Number?) ==> Pruned(v) == v && Kept(Pruned(v))
    ensures v.Null? ==> !Kept(Pruned(v))
    ensures v.String? ==> (Kept(Pruned(v)) <==> v.s != "")
  {
  }

  /**
   * `prune_json`: prunes the value and answers whether it is still worth keeping. An
   * array keeps its elements whose own pruning answers true (`retain_mut`); an object
   * drops each member whose value's pruning answers false.
   */
  method PruneJson(v: Json) returns (keep: bool, out: Json)
    ensures out == Pruned(v)
    ensures keep == Kept(out)
    decreases v, 1
  {
    match v {
      case Null =>
        return false, v;
      case String(s) =>
        return s != "", v;
      case Bool(_) =>
        return true, v;
      case Number(_) =>
        return true, v;
      case Array(xs) =>
        var kept := PruneElements(xs, v);
        return kept != [], Array(kept);
      case Object(ms) =>
        var kept := PruneMembers(ms, v);
        return kept != [], Object(kept);
    }
  }

  /** `Vec::retain_mut` with `prune_json`: each element pruned, those answering false dropped. */
  method PruneElements(xs: seq<Json>, ghost parent: Json) returns (kept: seq<Json>)
    requires parent == Array(xs)
    ensures Array(kept) == Pruned(parent)
    decreases parent, 0
  {
    ghost var all := seq(|xs|, i requires 0 <= i < |xs| => Pruned(xs[i]));
    kept := [];
    for i := 0 to |xs|
      invariant kept == Filter(all[..i], Kept)
    {
      var k, x := PruneJson(xs[i]);
      FilterStep(all, i, Kept, kept);
      assert all[i] == x;
      if k {
        kept := kept + [x];
      }
    }
    assert all[..|xs|] == all;
  }

  /** The key loop over an object: each value pruned, the members answering false removed. */
  method PruneMembers(ms: seq<Member>, ghost parent: Json) returns (kept: seq<Member>)
    requires parent == Object(ms)
    ensures Object(kept) == Pruned(parent)
    decreases parent, 0
  {
    ghost var all := seq(|ms|, i requires 0 <= i < |ms| => Member(ms[i].key, Pruned(ms[i].value)));
    kept := [];
    for i := 0 to |ms|
      invariant kept == Filter(all[..i], MemberKept)
    {
      assert ms[i] in ms;
      var k, x := PruneJson(ms[i].value);
      FilterStep(all, i, MemberKept, kept);
      assert all[i] == Member(ms[i].key, x);
      if k {
        kept := kept + [Member(ms[i].key, x)];
      }
    }
    assert all[..|ms|] == all;
  }
}
