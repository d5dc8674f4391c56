/**
 * Sequence helpers the reader's collection code relies on: keeping the elements that
 * pass a test (`Iterator::filter`, `Vec::retain`) and keeping the first occurrence of
 * each element (a `HashSet` of seen values next to an output vector).
 */
module Seqs {
  import opened Wrappers

  /** The elements of `s` that pass `f`, in order. */
  function Filter<T(!new)>(s: seq<T>, f: T -> bool): (r: seq<T>)
    ensures |r| <= |s|
    ensures forall x :: x in r <==> x in s && f(x)
  {
    if s == [] then []
    else Filter(s[..|s| - 1], f) + (if f(s[|s| - 1]) then [s[|s| - 1]] else [])
  }

  lemma FilterSnoc<T(!new)>(s: seq<T>, x: T, f: T -> bool)
    ensures Filter(s + [x], f) == Filter(s, f) + (if f(x) then [x] else [])
  {
    assert (s + [x])[..|s|] == s;
  }

  lemma {:induction false} FilterConcat<T(!new)>(a: seq<T>, b: seq<T>, f: T -> bool)
    ensures Filter(a + b, f) == Filter(a, f) + Filter(b, f)
    decreases |b|
  {
    if b != [] {
      var b' := b[..|b| - 1];
      var x := b[|b| - 1];
      assert b == b' + [x];
      assert a + b == (a + b') + [x];
      FilterSnoc(a + b', x, f);
      FilterSnoc(b', x, f);
      FilterConcat(a, b', f);
    } else {
      assert a + b == a;
    }
  }

  /** Keeping everything keeps the sequence. */
  lemma {:induction false} FilterKeepsAll<T(!new)>(s: seq<T>, f: T -> bool)
    requires forall i :: 0 <= i < |s| ==> f(s[i])
    ensures Filter(s, f) == s
  {
    if s != [] {
      FilterKeepsAll(s[..|s| - 1], f);
      assert s[..|s| - 1] + [s[|s| - 1]] == s;
    }
  }

  /** Nothing passes: nothing is kept. */
  lemma {:induction false} FilterDropsAll<T(!new)>(s: seq<T>, f: T -> bool)
    requires forall i :: 0 <= i < |s| ==> !f(s[i])
    ensures Filter(s, f) == []
  {
    if s != [] {
      FilterDropsAll(s[..|s| - 1], f);
    }
  }

  /** Four filters such that every element passes exactly one of them. */
  predicate OneOfFour<T>(x: T, f1: T -> bool, f2: T -> bool, f3: T -> bool, f4: T -> bool)
  {
    (if f1(x) then 1 else 0) + (if f2(x) then 1 else 0) + (if f3(x) then 1 else 0) + (if f4(x) then 1 else 0) == 1
  }

  lemma MultisetAddTo<T>(a: multiset<T>, b: multiset<T>, c: multiset<T>, d: multiset<T>, s: multiset<T>,
                         x: multiset<T>, k: nat)
    requires a + b + c + d == s && k < 4
    ensures k == 0 ==> (a + x) + b + c + d == s + x
    ensures k == 1 ==> a + (b + x) + c + d == s + x
    ensures k == 2 ==> a + b + (c + x) + d == s + x
    ensures k == 3 ==> a + b + c + (d + x) == s + x
  {
  }

  lemma FilterSnocCases<T(!new)>(s: seq<T>, x: T, f: T -> bool, a: seq<T>)
    requires a == Filter(s, f)
    ensures f(x) ==> Filter(s + [x], f) == a + [x] && multiset(a + [x]) == multiset(a) + multiset{x}
    ensures !f(x) ==> Filter(s + [x], f) == a
  {
    FilterSnoc(s, x, f);
  }

  /** Four filters that every element passes exactly one of split the sequence between them. */
  lemma {:induction false} FilterPartition4<T(!new)>(s: seq<T>, f1: T -> bool, f2: T -> bool, f3: T -> bool, f4: T -> bool)
    requires forall i :: 0 <= i < |s| ==> OneOfFour(s[i], f1, f2, f3, f4)
    ensures multiset(Filter(s, f1)) + multiset(Filter(s, f2)) + multiset(Filter(s, f3)) + multiset(Filter(s, f4)) ==
            multiset(s)
    ensures |Filter(s, f1)| + |Filter(s, f2)| + |Filter(s, f3)| + |Filter(s, f4)| == |s|
  {
    if s != [] {
      var s', x := s[..|s| - 1], s[|s| - 1];
      assert OneOfFour(s[|s| - 1], f1, f2, f3, f4);
      var k := if f1(x) then 0 else if f2(x) then 1 else if f3(x) then 2 else 3;
      assert k == 0 <==> f1(x);
      assert k == 1 <==> f2(x);
      assert k == 2 <==> f3(x);
      assert k == 3 <==> f4(x);
      FilterPartition4(s', f1, f2, f3, f4);
      assert s == s' + [x];
      var a, b, c, d := Filter(s', f1), Filter(s', f2), Filter(s', f3), Filter(s', f4);
      assert multiset(s) == multiset(s') + multiset{x};
      FilterSnocCases(s', x, f1, a);
      FilterSnocCases(s', x, f2, b);
      FilterSnocCases(s', x, f3, c);
      FilterSnocCases(s', x, f4, d);
      MultisetAddTo(multiset(a), multiset(b), multiset(c), multiset(d), multiset(s'), multiset{x}, k);
    }
  }

  predicate NoDups<T(==,!new)>(s: seq<T>)
  {
    forall i, j :: 0 <= i < j < |s| ==> s[i] != s[j]
  }

  /** The first occurrence of each element of `s`, in order of first occurrence. */
  function Distinct<T(==,!new)>(s: seq<T>): (r: seq<T>)
    ensures NoDups(r) && |r| <= |s|
    ensures forall x :: x in r <==> x in s
  {
    if s == [] then []
    else
      var d := Distinct(s[..|s| - 1]);
      var x := s[|s| - 1];
      assert forall y :: y in s <==> y in s[..|s| - 1] || y == x by {
        assert s == s[..|s| - 1] + [x];
      }
      if x in d then d else d + [x]
  }

  lemma DistinctSnoc<T(!new)>(s: seq<T>, x: T)
    ensures Distinct(s + [x]) == if x in s then Distinct(s) else Distinct(s) + [x]
  {
    assert (s + [x])[..|s|] == s;
  }

  /** The position of the first occurrence of `x` in `s`. */
  function FirstAt<T(==,!new)>(s: seq<T>, x: T): (k: nat)
    requires x in s
    ensures k < |s| && s[k] == x && x !in s[..k]
  {
    if s[0] == x then 0
    else
      assert s == [s[0]] + s[1..];
      1 + FirstAt(s[1..], x)
  }

  lemma FirstAtSnoc<T(!new)>(s: seq<T>, y: T, x: T)
    requires x in s
    ensures FirstAt(s + [y], x) == FirstAt(s, x)
  {
    var k := FirstAt(s, x);
    var t := s + [y];
    assert t[k] == x && t[..k] == s[..k];
    var k' := FirstAt(t, x);
    if k' != k {
      assert false;
    }
  }

  /** The kept elements appear in the order of their first occurrences in `s`. */
  lemma {:induction false} DistinctOrder<T(!new)>(s: seq<T>, i: nat, j: nat)
    requires i < j < |Distinct(s)|
    ensures FirstAt(s, Distinct(s)[i]) < FirstAt(s, Distinct(s)[j])
  {
    var s' := s[..|s| - 1];
    var x := s[|s| - 1];
    assert s == s' + [x];
    var d := Distinct(s');
    DistinctSnoc(s', x);
    var a, b := Distinct(s)[i], Distinct(s)[j];
    assert a in s' by { assert a == d[i]; }
    FirstAtSnoc(s', x, a);
    if j < |d| {
      DistinctOrder(s', i, j);
      FirstAtSnoc(s', x, b);
    } else {
      assert b == x && x !in s';
      assert FirstAt(s, x) == |s'| by {
        var k := FirstAt(s, x);
        if k < |s'| {
          assert false;
        }
      }
    }
  }
  /** `Iterator::any`: some element passes `f`. */
  function Any<T>(s: seq<T>, f: T -> bool): (b: bool)
    ensures b <==> exists i :: 0 <= i < |s| && f(s[i])
  {
    if s == [] then false
    else if f(s[|s| - 1]) then true
    else
      var b := Any(s[..|s| - 1], f);
      assert forall i :: 0 <= i < |s| - 1 ==> s[..|s| - 1][i] == s[i];
      b
  }

  /** A prefix one longer is the prefix and the next element. */
  lemma TakeSnoc<T>(s: seq<T>, i: nat)
    requires i < |s|
    ensures s[..i + 1] == s[..i] + [s[i]]
  {
  }

  /** One step of a filtering loop over `s`: the next element is kept exactly when it passes. */
  lemma FilterStep<T(!new)>(s: seq<T>, i: nat, f: T -> bool, kept: seq<T>)
    requires i < |s| && kept == Filter(s[..i], f)
    ensures Filter(s[..i + 1], f) == if f(s[i]) then kept + [s[i]] else kept
  {
    TakeSnoc(s, i);
    FilterSnoc(s[..i], s[i], f);
  }

  /** `Iterator::find_map`: the first `Some` that `f` gives along `s`. */
  function FindMap<T, U(==)>(s: seq<T>, f: T -> Option<U>): (r: Option<U>)
    ensures r.None? <==> forall i :: 0 <= i < |s| ==> f(s[i]).None?
    ensures r.Some? ==> exists i :: 0 <= i < |s| && f(s[i]) == r && forall j :: 0 <= j < i ==> f(s[j]).None?
  {
    if s == [] then None
    else
      var init := s[..|s| - 1];
      var r := FindMap(init, f);
      assert forall i :: 0 <= i < |init| ==> init[i] == s[i];
      if r.Some? then r else f(s[|s| - 1])
  }

  /** One step of a search loop over `s`: a known result stays, else the next element is tried. */
  lemma FindMapStep<T, U>(s: seq<T>, i: nat, f: T -> Option<U>)
    requires i < |s|
    ensures FindMap(s[..i + 1], f) == if FindMap(s[..i], f).Some? then FindMap(s[..i], f) else f(s[i])
  {
    assert s[..i + 1][..i] == s[..i];
  }

  /** The first index at or after `i` whose element passes `f` (`Iterator::position`). */
  function FirstIndexFrom<T>(s: seq<T>, f: T -> bool, i: nat): (r: Option<nat>)
    requires i <= |s|
    ensures r.None? <==> forall k :: i <= k < |s| ==> !f(s[k])
    ensures r.Some? ==> i <= r.value < |s| && f(s[r.value]) && forall k :: i <= k < r.value ==> !f(s[k])
    decreases |s| - i
  {
    if i == |s| then None
    else if f(s[i]) then Some(i)
    else FirstIndexFrom(s, f, i + 1)
  }

  /** A sequence that agrees with `x` and then with `y`, index by index, is `x + y`. */
  lemma ConcatByIndex<T>(l: seq<T>, x: seq<T>, y: seq<T>)
    requires |l| == |x| + |y|
    requires forall k :: 0 <= k < |x| ==> l[k] == x[k]
    requires forall k :: 0 <= k < |y| ==> l[|x| + k] == y[k]
    ensures l == x + y
  {
    forall k | 0 <= k < |l| ensures l[k] == (x + y)[k] {
      if k >= |x| {
        assert l[|x| + (k - |x|)] == y[k - |x|];
      }
    }
  }
}
