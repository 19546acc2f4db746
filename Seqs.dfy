/** Sequence operations of JavaScript's arrays, strings and `Set`, as the market-data code uses them. */
module Seqs {
  import opened Wrappers

  /** `Array.prototype.filter`: the elements satisfying `p`, in their original order. */
  function Filter<T(!new)>(s: seq<T>, p: T -> bool): (r: seq<T>)
    ensures |r| <= |s|
    ensures forall x :: x in r <==> x in s && p(x)
  {
    if |s| == 0 then [] else (if p(s[0]) then [s[0]] else []) + Filter(s[1..], p)
  }

  /** Filtering distributes over concatenation: the kept elements stay in their order. */
  lemma {:induction false} FilterAppend<T(!new)>(a: seq<T>, b: seq<T>, p: T -> bool)
    ensures Filter(a + b, p) == Filter(a, p) + Filter(b, p)
  {
    if |a| == 0 {
      assert a + b == b;
    } else {
      assert (a + b)[0] == a[0];
      assert (a + b)[1..] == a[1..] + b;
      FilterAppend(a[1..], b, p);
    }
  }

  /** Position `i` holds the first element of `s` that satisfies `p`. */
  ghost predicate FirstMatchAt<T>(s: seq<T>, p: T -> bool, i: int) {
    0 <= i < |s| && p(s[i]) && forall j :: 0 <= j < i ==> !p(s[j])
  }

  /** The head of a filtered sequence is the first match; the filtered sequence is empty iff nothing matches. */
  lemma {:induction false} FilterHead<T(!new)>(s: seq<T>, p: T -> bool)
    ensures Filter(s, p) == [] <==> forall i :: 0 <= i < |s| ==> !p(s[i])
    ensures Filter(s, p) != [] ==> exists i :: FirstMatchAt(s, p, i) && Filter(s, p)[0] == s[i]
  {
    if |s| > 0 {
      FilterHead(s[1..], p);
      if !p(s[0]) && Filter(s, p) != [] {
        var i :| FirstMatchAt(s[1..], p, i) && Filter(s[1..], p)[0] == s[1..][i];
        assert FirstMatchAt(s, p, i + 1);
      }
      if p(s[0]) {
        assert FirstMatchAt(s, p, 0);
      }
    }
  }

  /** `Array.prototype.find`: the first element satisfying `p`, if any. */
  function Find<T>(s: seq<T>, p: T -> bool): (r: Option<T>)
    ensures r.None? <==> forall i :: 0 <= i < |s| ==> !p(s[i])
    ensures r.Some? ==> exists i :: FirstMatchAt(s, p, i) && s[i] == r.value
  {
    if |s| == 0 then None
    else if p(s[0]) then (assert FirstMatchAt(s, p, 0); Some(s[0]))
    else
      var r := Find(s[1..], p);
      assert forall i :: 1 <= i < |s| ==> s[i] == s[1..][i - 1];
      assert r.Some? ==> exists i :: FirstMatchAt(s[1..], p, i) && s[1..][i] == r.value;
      assert forall i :: FirstMatchAt(s[1..], p, i) ==> FirstMatchAt(s, p, i + 1);
      r
  }

  /** `Array.prototype.map`. */
  function Map<T, U>(s: seq<T>, f: T -> U): (r: seq<U>)
    ensures |r| == |s| && forall i :: 0 <= i < |s| ==> r[i] == f(s[i])
  {
    seq(|s|, i requires 0 <= i < |s| => f(s[i]))
  }

  ghost predicate NoDuplicates<T>(s: seq<T>) {
    forall i, j :: 0 <= i < j < |s| ==> s[i] != s[j]
  }

  /** `Array.from(new Set(s))`: each distinct element once, in order of first occurrence. */
  function Distinct<T(==,!new)>(s: seq<T>): (r: seq<T>)
    ensures forall x :: x in r <==> x in s
    ensures NoDuplicates(r)
  {
    if |s| == 0 then []
    else
      var d := Distinct(s[..|s| - 1]);
      assert forall x :: x in s <==> x in s[..|s| - 1] || x == s[|s| - 1] by {
        assert s == s[..|s| - 1] + [s[|s| - 1]];
      }
      if s[|s| - 1] in d then d else d + [s[|s| - 1]]
  }

  /** `Distinct` keeps the order of first occurrence: an element listed before another occurs in `s`
      before the other's first occurrence. */
  lemma {:induction false} DistinctOrder<T(!new)>(s: seq<T>, i: nat, j: nat)
    requires i < j < |Distinct(s)|
    ensures exists a :: 0 <= a < |s| && s[a] == Distinct(s)[i] && Distinct(s)[j] !in s[..a + 1]
  {
    var init, x := s[..|s| - 1], s[|s| - 1];
    var d := Distinct(init);
    assert forall a :: 0 <= a < |init| ==> init[..a + 1] == s[..a + 1] && init[a] == s[a];
    if j < |d| {
      DistinctOrder(init, i, j);
      var a :| 0 <= a < |init| && init[a] == d[i] && d[j] !in init[..a + 1];
      assert s[a] == Distinct(s)[i] && Distinct(s)[j] !in s[..a + 1];
    } else {
      assert Distinct(s) == d + [x] && x !in d;
      assert d[i] in init;
      var a :| 0 <= a < |init| && init[a] == d[i];
      assert x !in init;
      assert x !in init[..a + 1];
      assert s[a] == Distinct(s)[i] && Distinct(s)[j] !in s[..a + 1];
    }
  }

  /** The lists `f` gives for the elements of `s`, concatenated in order (a loop of `acc = acc.concat(f(x))`). */
  function ConcatMap<T, U>(s: seq<T>, f: T -> seq<U>): seq<U> {
    if |s| == 0 then [] else ConcatMap(s[..|s| - 1], f) + f(s[|s| - 1])
  }

  /** One more element appends its list. */
  lemma ConcatMapSnoc<T, U>(s: seq<T>, x: T, f: T -> seq<U>)
    ensures ConcatMap(s + [x], f) == ConcatMap(s, f) + f(x)
  {
    assert (s + [x])[..|s|] == s;
  }

  /** `ConcatMap` distributes over concatenation. */
  lemma {:induction false} ConcatMapAppend<T, U>(a: seq<T>, b: seq<T>, f: T -> seq<U>)
    ensures ConcatMap(a + b, f) == ConcatMap(a, f) + ConcatMap(b, f)
    decreases |b|
  {
    if |b| == 0 {
      assert a + b == a;
    } else {
      var init, x := b[..|b| - 1], b[|b| - 1];
      assert b == init + [x];
      assert a + b == (a + init) + [x];
      ConcatMapAppend(a, init, f);
      ConcatMapSnoc(a + init, x, f);
      ConcatMapSnoc(init, x, f);
      assert (ConcatMap(a, f) + ConcatMap(init, f)) + f(x) == ConcatMap(a, f) + (ConcatMap(init, f) + f(x));
    }
  }

  /** An element of the concatenation comes from the list of some element of `s`, and every such
      list element is there. */
  lemma {:induction false} ConcatMapMembers<T, U>(s: seq<T>, f: T -> seq<U>)
    ensures forall u :: u in ConcatMap(s, f) <==> exists i :: 0 <= i < |s| && u in f(s[i])
  {
    if |s| > 0 {
      var init := s[..|s| - 1];
      ConcatMapMembers(init, f);
      assert forall i :: 0 <= i < |init| ==> init[i] == s[i];
    }
  }

  /** `String.prototype.includes`: `needle` occurs somewhere in `hay` (the empty string occurs everywhere). */
  function Includes(hay: string, needle: string): bool
    decreases |hay|
  {
    needle <= hay || (|hay| > 0 && Includes(hay[1..], needle))
  }

  /** `Includes` is substring search: `needle` is a prefix of some suffix of `hay`. */
  lemma {:induction false} IncludesAt(hay: string, needle: string)
    ensures Includes(hay, needle) <==> exists i :: 0 <= i <= |hay| && needle <= hay[i..]
  {
    if needle <= hay {
      assert needle <= hay[0..];
    } else if |hay| > 0 {
      IncludesAt(hay[1..], needle);
      assert forall i :: 1 <= i <= |hay| ==> hay[i..] == hay[1..][i - 1..];
      if exists i :: 0 <= i <= |hay| && needle <= hay[i..] {
        var i :| 0 <= i <= |hay| && needle <= hay[i..];
        assert i != 0 by { assert hay[0..] == hay; }
        assert needle <= hay[1..][i - 1..];
      }
    } else {
      assert forall i :: 0 <= i <= |hay| ==> hay[i..] == hay;
    }
  }
}
