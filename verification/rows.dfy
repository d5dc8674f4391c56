/**
 * Helpers of crates/parser/src/b64/utilities/common.rs that rebuild the element tree
 * from flat metadata rows: owner ids in order of first appearance, the subtree below
 * an element, the (parent, tag) child index, and attribute lookup.
 */
module Rows {
  import opened Wrappers
  import opened Arith
  import opened Text
  import opened Seqs
  import opened Accession
  import opened Mzml

  /** Which rows a lookup is about. */
  datatype RowSel = ByTag(tag: TagId) | ByParent(parent: u32) | ByParentTag(parent: u32, childTag: TagId)

  predicate Selects(sel: RowSel, m: Metadatum)
  {
    match sel
    case ByTag(t) => m.tag == t
    case ByParent(p) => m.parentIndex == p
    case ByParentTag(p, t) => m.parentIndex == p && m.tag == t
  }

  /** The owner ids of the selected rows, in row order (repeats kept). */
  function Owners(rows: seq<Metadatum>, sel: RowSel): (r: seq<u32>)
    ensures |r| <= |rows|
  {
    if rows == [] then []
    else Owners(rows[..|rows| - 1], sel) + (if Selects(sel, rows[|rows| - 1]) then [rows[|rows| - 1].ownerId] else [])
  }

  /** The owners listed are exactly those of the selected rows. */
  lemma {:induction false} OwnersMembers(rows: seq<Metadatum>, sel: RowSel)
    ensures forall x :: x in Owners(rows, sel) <==> exists m :: m in rows && Selects(sel, m) && m.ownerId == x
  {
    if rows != [] {
      var init, m := rows[..|rows| - 1], rows[|rows| - 1];
      OwnersMembers(init, sel);
      assert rows == init + [m];
      assert forall y :: y in rows <==> y in init || y == m;
    }
  }

  lemma OwnersSnoc(rows: seq<Metadatum>, m: Metadatum, sel: RowSel)
    ensures Owners(rows + [m], sel) == Owners(rows, sel) + (if Selects(sel, m) then [m.ownerId] else [])
  {
    assert (rows + [m])[..|rows|] == rows;
  }

  lemma OwnersStep(rows: seq<Metadatum>, i: nat, sel: RowSel)
    requires i < |rows|
    ensures Owners(rows[..i + 1], sel) == Owners(rows[..i], sel) + (if Selects(sel, rows[i]) then [rows[i].ownerId] else [])
  {
    TakeSnoc(rows, i);
    OwnersSnoc(rows[..i], rows[i], sel);
  }

  /**
   * `ordered_unique_owner_ids`: each owner id of a row with tag `tag` once, in
   * order of first appearance (a seen-set beside the output vector).
   */
  method OrderedUniqueOwnerIds(metadata: seq<Metadatum>, tag: TagId) returns (out: seq<u32>)
    ensures out == Distinct(Owners(metadata, ByTag(tag)))
    ensures NoDups(out)
    ensures forall x :: x in out <==> exists m :: m in metadata && m.tag == tag && m.ownerId == x
  {
    out := [];
    var seen: set<u32> := {};
    for i := 0 to |metadata|
      invariant out == Distinct(Owners(metadata[..i], ByTag(tag)))
      invariant forall x :: x in seen <==> x in out
    {
      var m := metadata[i];
      ghost var o := Owners(metadata[..i], ByTag(tag));
      OwnersStep(metadata, i, ByTag(tag));
      if m.tag == tag {
        assert Owners(metadata[..i + 1], ByTag(tag)) == o + [m.ownerId];
        DistinctSnoc(o, m.ownerId);
        assert m.ownerId in seen <==> m.ownerId in o;
      } else {
        assert Owners(metadata[..i + 1], ByTag(tag)) == o;
      }
      if m.tag == tag && m.ownerId !in seen {
        seen := seen + {m.ownerId};
        out := out + [m.ownerId];
      }
    }
    assert metadata[..|metadata|] == metadata;
    OwnersMembers(metadata, ByTag(tag));
  }

  /** Every id of `s` has all its children in `s`. */
  ghost predicate Closed(s: set<u32>, children: map<u32, seq<u32>>)
  {
    forall id, c :: id in s && id in children && c in children[id] ==> c in s
  }

  /** A finite closed set holding the root: the root and every id that appears as a child. */
  lemma ClosedUniverse(root: u32, children: map<u32, seq<u32>>) returns (u: set<u32>)
    ensures root in u && Closed(u, children)
  {
    u := {root} + set p, c | p in children && c in children[p] :: c;
  }

  function Kids(id: u32, children: map<u32, seq<u32>>): seq<u32>
  {
    if id in children then children[id] else []
  }

  /** Walk state: every child of a visited id is visited or still on the stack. */
  ghost predicate Pending(out: set<u32>, stack: seq<u32>, children: map<u32, seq<u32>>)
  {
    forall id, c :: id in out && id in children && c in children[id] ==> c in out || c in stack
  }

  /** Walk state: visited and stacked ids all lie in `s`. */
  ghost predicate Inside(out: set<u32>, stack: seq<u32>, s: set<u32>)
  {
    out <= s && forall c :: c in stack ==> c in s
  }

  lemma PopStep(out: set<u32>, stack: seq<u32>, children: map<u32, seq<u32>>, s: set<u32>)
    requires stack != []
    requires Pending(out, stack, children)
    ensures var id, rest := stack[|stack| - 1], stack[..|stack| - 1];
      && (id in out ==> Pending(out, rest, children))
      && Pending(out + {id}, rest + Kids(id, children), children)
      && (Inside(out, stack, s) ==> Inside(out, rest, s))
      && (Inside(out, stack, s) && Closed(s, children) ==> Inside(out + {id}, rest + Kids(id, children), s))
  {
    var id, rest := stack[|stack| - 1], stack[..|stack| - 1];
    assert stack == rest + [id];
    assert forall c :: c in stack ==> c in rest || c == id;
  }

  lemma CardStep(u: set<u32>, out: set<u32>, id: u32)
    requires id in u && id !in out
    ensures |u - (out + {id})| < |u - out|
  {
    assert u - out == (u - (out + {id})) + {id};
  }

  /**
   * `collect_subtree_owner_ids`: a stack worklist from `root` over `children`. The
   * result holds the root, is closed under taking children, and lies inside every
   * closed set holding the root, so it is exactly the ids reachable from the root.
   * It terminates on cyclic maps too: each id is expanded once.
   */
  method CollectSubtreeOwnerIds(root: u32, children: map<u32, seq<u32>>) returns (out: set<u32>)
    ensures root in out
    ensures Closed(out, children)
    ensures forall s :: root in s && Closed(s, children) ==> out <= s
  {
    out := {};
    var stack := [root];
    ghost var u := ClosedUniverse(root, children);
    while stack != []
      invariant out <= u
      invariant root in out || root in stack
      invariant Pending(out, stack, children)
      invariant forall s :: root in s && Closed(s, children) ==> Inside(out, stack, s)
      decreases |u - out|, |stack|
    {
      var id := stack[|stack| - 1];
      ghost var before := stack;
      forall s | root in s && Closed(s, children) {
        PopStep(out, before, children, s);
      }
      stack := stack[..|stack| - 1];
      if id in out {
        continue;
      }
      CardStep(u, out, id);
      out := out + {id};
      stack := stack + Kids(id, children);
    }
  }

  /**
   * `key_parent_tag`: `(parent << 8) | tag`. The tag fits in the low byte, so the
   * bitwise or is an addition.
   */
  function KeyParentTag(parentId: u32, tag: TagId): (k: nat)
    ensures k < U64_LIMIT
  {
    parentId * 256 + tag
  }

  /** Distinct (parent, tag) pairs get distinct keys, for every u32 parent. */
  lemma KeyParentTagInjective(p1: u32, t1: TagId, p2: u32, t2: TagId)
    ensures KeyParentTag(p1, t1) == KeyParentTag(p2, t2) <==> p1 == p2 && t1 == t2
  {
    DivModOf(KeyParentTag(p1, t1), 256, p1, t1);
    DivModOf(KeyParentTag(p2, t2), 256, p2, t2);
  }

  function Lookup(m: map<nat, seq<u32>>, k: nat): seq<u32>
  {
    if k in m then m[k] else []
  }

  /** The key `ChildIndex::new` files a row under: (parent, tag) or parent alone. */
  function RowKey(m: Metadatum, withTag: bool): nat
  {
    if withTag then KeyParentTag(m.parentIndex, m.tag) else m.parentIndex
  }

  /** The map the `ChildIndex::new` loop builds: each row's owner id appended under its key. */
  function GroupMap(rows: seq<Metadatum>, withTag: bool): map<nat, seq<u32>>
  {
    if rows == [] then map[]
    else
      var g := GroupMap(rows[..|rows| - 1], withTag);
      var m := rows[|rows| - 1];
      var k := RowKey(m, withTag);
      g[k := Lookup(g, k) + [m.ownerId]]
  }

  /** Looking a (parent, tag) or a parent up in the built maps gives the selected owners. */
  lemma {:induction false} GroupMapLookup(rows: seq<Metadatum>, p: u32, t: TagId)
    ensures Lookup(GroupMap(rows, true), KeyParentTag(p, t)) == Owners(rows, ByParentTag(p, t))
    ensures Lookup(GroupMap(rows, false), p) == Owners(rows, ByParent(p))
  {
    if rows != [] {
      var init, m := rows[..|rows| - 1], rows[|rows| - 1];
      GroupMapLookup(init, p, t);
      assert rows == init + [m];
      OwnersSnoc(init, m, ByParentTag(p, t));
      OwnersSnoc(init, m, ByParent(p));
      KeyParentTagInjective(p, t, m.parentIndex, m.tag);
    }
  }

  /**
   * `ChildIndex`: owner ids filed by (parent, tag) and by parent, in row order.
   * Built once from the rows and only read afterwards.
   */
  class ChildIndex {
    const idsByParentTag: map<nat, seq<u32>>
    const childrenByParent: map<nat, seq<u32>>
    ghost const rows: seq<Metadatum>

    ghost predicate Valid()
    {
      idsByParentTag == GroupMap(rows, true) && childrenByParent == GroupMap(rows, false)
    }

    /** `ChildIndex::new`: one pass over the rows fills both maps. */
    constructor (metadata: seq<Metadatum>)
      ensures rows == metadata && Valid()
    {
      var ids: map<nat, seq<u32>> := map[];
      var kids: map<nat, seq<u32>> := map[];
      for i := 0 to |metadata|
        invariant ids == GroupMap(metadata[..i], true) && kids == GroupMap(metadata[..i], false)
      {
        var m := metadata[i];
        assert metadata[..i + 1][..i] == metadata[..i];
        var k := KeyParentTag(m.parentIndex, m.tag);
        ids := ids[k := Lookup(ids, k) + [m.ownerId]];
        kids := kids[m.parentIndex := Lookup(kids, m.parentIndex) + [m.ownerId]];
      }
      assert metadata[..|metadata|] == metadata;
      idsByParentTag, childrenByParent, rows := ids, kids, metadata;
    }

    /** `ids`: owner ids of the rows with parent `p` and tag `t`, in row order; empty if none. */
    function Ids(p: u32, t: TagId): (r: seq<u32>)
      requires Valid()
      ensures r == Owners(rows, ByParentTag(p, t))
      ensures forall x :: x in r <==> exists m :: m in rows && m.parentIndex == p && m.tag == t && m.ownerId == x
    {
      GroupMapLookup(rows, p, t);
      OwnersMembers(rows, ByParentTag(p, t));
      Lookup(idsByParentTag, KeyParentTag(p, t))
    }

    /** `first_id`: the head of `ids`. */
    function FirstId(p: u32, t: TagId): (r: Option<u32>)
      requires Valid()
      ensures r.None? <==> forall m :: m in rows ==> !(m.parentIndex == p && m.tag == t)
      ensures r.None? <==> Ids(p, t) == []
      ensures r.Some? ==> r.value == Ids(p, t)[0]
    {
      var ids := Ids(p, t);
      if ids == [] then
        assert forall m :: m in rows && m.parentIndex == p && m.tag == t ==> m.ownerId in ids;
        None
      else
        assert ids[0] in ids;
        Some(ids[0])
    }

    /** `children`: owner ids of all rows with parent `p`, in row order. */
    function Children(p: u32): (r: seq<u32>)
      requires Valid()
      ensures r == Owners(rows, ByParent(p))
    {
      GroupMapLookup(rows, p, 0);
      Lookup(childrenByParent, p)
    }
  }

  /** `value_to_opt_string`: no text for an empty value. */
  function ValueToOptString(v: MetadatumValue, env: Env): (r: Option<string>)
    ensures r.None? <==> v.Empty?
    ensures v.Text? ==> r == Some(v.text)
  {
    match v
    case Empty => None
    case Text(s) => Some(s)
    case Number(x) => Some(env.f64Display(x))
  }

  /** A row holding attribute `tail`: accession "B000:..." whose digits after the last ':' read `tail`. */
  predicate IsAttrRow(m: Metadatum, tail: u32)
  {
    m.accession.Some? && AttrCode(m.accession.value) == Some(tail)
  }

  /** The attribute an accession names: a "B000" prefix and the digits after the last ':'. */
  function AttrCode(acc: string): Option<u32>
  {
    match SplitPrefix(acc)
    case None => None
    case Some((p, _)) => if p == CV_REF_ATTR then Some(ParseAccessionTailStr(acc)) else None
  }

  /** The first row at or after `i` holding attribute `tail`. */
  function FirstAttrRow(rows: seq<Metadatum>, tail: u32, i: nat): (r: Option<nat>)
    requires i <= |rows|
    ensures r.None? <==> forall k :: i <= k < |rows| ==> !IsAttrRow(rows[k], tail)
    ensures r.Some? ==> i <= r.value < |rows| && IsAttrRow(rows[r.value], tail)
    ensures r.Some? ==> forall k :: i <= k < r.value ==> !IsAttrRow(rows[k], tail)
  {
    FirstIndexFrom(rows, m => IsAttrRow(m, tail), i)
  }

  /**
   * `get_attr_text` as written: a row without an accession, or whose accession has
   * no ':', ends the whole search with `None` (the `?` operators return from the
   * function) instead of moving on to the next row.
   */
  function GetAttrTextAsWritten(rows: seq<Metadatum>, tail: u32, env: Env, i: nat): Option<string>
    requires i <= |rows|
    decreases |rows| - i
  {
    if i == |rows| then None
    else
      var m := rows[i];
      if m.accession.None? || SplitPrefix(m.accession.value).None? then None
      else if !IsAttrRow(m, tail) then GetAttrTextAsWritten(rows, tail, env, i + 1)
      else ValueToOptString(m.value, env)
  }

  /**
   * `get_attr_text` with unusable rows skipped: the value of the first row holding
   * attribute `tail`, and none when no row holds it or its value is empty.
   */
  function GetAttrText(rows: seq<Metadatum>, tail: u32, env: Env): (r: Option<string>)
    ensures (forall k :: 0 <= k < |rows| ==> !IsAttrRow(rows[k], tail)) ==> r.None?
    ensures r.Some? ==> exists k :: 0 <= k < |rows| && IsAttrRow(rows[k], tail) && r == ValueToOptString(rows[k].value, env) &&
                                    forall j :: 0 <= j < k ==> !IsAttrRow(rows[j], tail)
    ensures forall k: nat :: IsFirstAttrRow(rows, tail, k) ==> r == ValueToOptString(rows[k].value, env)
  {
    match FirstAttrRow(rows, tail, 0)
    case None => None
    case Some(k) =>
      FirstAttrRowUnique(rows, tail, k);
      ValueToOptString(rows[k].value, env)
  }

  /** Row `k` holds attribute `tail` and no earlier row does. */
  predicate IsFirstAttrRow(rows: seq<Metadatum>, tail: u32, k: nat)
  {
    k < |rows| && IsAttrRow(rows[k], tail) && forall j :: 0 <= j < k ==> !IsAttrRow(rows[j], tail)
  }

  /** At most one row is the first holding an attribute. */
  lemma FirstAttrRowUnique(rows: seq<Metadatum>, tail: u32, k: nat)
    requires IsFirstAttrRow(rows, tail, k)
    ensures forall k': nat :: IsFirstAttrRow(rows, tail, k') ==> k' == k
  {
    forall k': nat | IsFirstAttrRow(rows, tail, k')
      ensures k' == k
    {
      assert IsAttrRow(rows[k'], tail) && IsAttrRow(rows[k], tail);
    }
  }

  lemma {:induction false} AsWrittenAgreesFrom(rows: seq<Metadatum>, tail: u32, env: Env, i: nat)
    requires i <= |rows|
    requires forall k :: i <= k < |rows| ==> rows[k].accession.Some? && ':' in rows[k].accession.value
    ensures GetAttrTextAsWritten(rows, tail, env, i) ==
            match FirstAttrRow(rows, tail, i) case None => None case Some(k) => ValueToOptString(rows[k].value, env)
    decreases |rows| - i
  {
    if i < |rows| && !IsAttrRow(rows[i], tail) {
      AsWrittenAgreesFrom(rows, tail, env, i + 1);
    }
  }

  /** When every row has an accession with a ':', the code as written gives the intended result. */
  lemma GetAttrTextAgrees(rows: seq<Metadatum>, tail: u32, env: Env)
    requires forall k :: 0 <= k < |rows| ==> rows[k].accession.Some? && ':' in rows[k].accession.value
    ensures GetAttrTextAsWritten(rows, tail, env, 0) == GetAttrText(rows, tail, env)
  {
    AsWrittenAgreesFrom(rows, tail, env, 0);
  }

  /** The accession "B000:<n>" names attribute `n`. */
  lemma AttrCodeOfAttr(n: u32)
    ensures AttrCode(CV_REF_ATTR + ":" + Decimal(n)) == Some(n)
  {
    var d := Decimal(n);
    assert CV_REF_ATTR + ":" + d == CV_REF_ATTR + [':'] + d;
    DigitsHaveNo(d, ':');
    SplitOnceOf(CV_REF_ATTR, d, ':');
    AfterLastOf(CV_REF_ATTR, d, ':');
    DigitsOfDigits(d);
    DecimalValue(n);
    ParseAccessionTailStrIsDigitsValue(CV_REF_ATTR + ":" + d);
  }

  /** The rows of the example below. */
  function HiddenAttrRows(): seq<Metadatum>
  {
    [Metadatum(0, 0, 0, TAG_SPECTRUM, None, None, Empty),
     Metadatum(0, 0, 0, TAG_SPECTRUM, Some("B000:5"), None, Text("x"))]
  }

  /** A row without an accession in front of the attribute hides it from the code as written. */
  lemma GetAttrTextAsWrittenMisses(env: Env)
    ensures GetAttrTextAsWritten(HiddenAttrRows(), 5, env, 0).None?
    ensures GetAttrText(HiddenAttrRows(), 5, env) == Some("x")
  {
    HiddenAttrFound();
  }

  lemma HiddenAttrFound()
    ensures FirstAttrRow(HiddenAttrRows(), 5, 0) == Some(1)
  {
    AttrCodeFive();
  }

  lemma AttrCodeFive()
    ensures AttrCode("B000:5") == Some(5)
  {
    AttrCodeOfAttr(5);
    assert Decimal(5) == "5";
    assert CV_REF_ATTR + ":" + "5" == "B000:5";
  }

  /** `get_attr_u32`: the attribute's text parsed as a u32. */
  function GetAttrU32(rows: seq<Metadatum>, tail: u32, env: Env): (r: Option<u32>)
    ensures r.Some? <==> GetAttrText(rows, tail, env).Some? && ParseU32(GetAttrText(rows, tail, env).value).Some?
    ensures r.Some? ==> r.value == ParseU32(GetAttrText(rows, tail, env).value).value
  {
    match GetAttrText(rows, tail, env)
    case None => None
    case Some(s) => match ParseU32(s) case None => None case Some(v) => Some(v)
  }
}
