/** `Array.prototype.find` and its variants, with what "first match" means. */
module Seqs {
  import opened Js

  /** Index of the first element satisfying `p`, as `findIndex` computes it. */
  function FirstIndex<T>(s: seq<T>, p: T -> bool): (r: Option<nat>)
    ensures r.Some? ==> r.value < |s| && p(s[r.value])
    ensures r.Some? ==> forall j :: 0 <= j < r.value ==> !p(s[j])
    ensures r.None? <==> forall j :: 0 <= j < |s| ==> !p(s[j])
  {
    if |s| == 0 then None
    else if p(s[0]) then Some(0)
    else
      match FirstIndex(s[1..], p)
      case None => None
      case Some(k) => Some(k + 1)
  }

  /** `s.find(p)`: the first element satisfying `p`, or undefined. */
  function Find<T>(s: seq<T>, p: T -> bool): (r: Option<T>)
    ensures r.Some? ==> r.value in s && p(r.value)
    ensures r.None? <==> forall x :: x in s ==> !p(x)
  {
    match FirstIndex(s, p)
    case None => None
    case Some(i) => Some(s[i])
  }

  /** `find` returns the element at the first index that satisfies `p`. */
  lemma FindIsFirst<T>(s: seq<T>, p: T -> bool, i: nat)
    requires i < |s| && p(s[i])
    requires forall j :: 0 <= j < i ==> !p(s[j])
    ensures Find(s, p) == Some(s[i])
  {
  }

  /** `find` over an array built with `flatMap(x => x.field)`, where an absent
      field contributes an `undefined` element: the callback's `e.name` throws
      a TypeError on the first undefined element met before a match. */
  function FindStrict<T>(s: seq<Option<T>>, p: T -> bool): (r: Result<Option<T>>)
    ensures r.Failure? ==> r.error == TypeError && None in s
    ensures r.Success? && r.value.Some? ==> Some(r.value.value) in s && p(r.value.value)
    ensures r == Success(None) <==> forall x :: x in s ==> x.Some? && !p(x.value)
  {
    match FirstIndex(s, StopsSearch(p))
    case None => Success(None)
    case Some(i) =>
      assert StopsSearch(p)(s[i]) && s[i] in s;
      if s[i].None? then Failure(TypeError) else Success(Some(s[i].value))
  }

  /** The slots at which a strict search stops: an undefined one, or a match. */
  function StopsSearch<T>(p: T -> bool): Option<T> -> bool {
    (x: Option<T>) => x.None? || p(x.value)
  }

  /** What `FindStrict` meets first decides it: a match, or an undefined slot. */
  lemma FindStrictAt<T>(s: seq<Option<T>>, p: T -> bool, i: nat)
    requires i < |s| && (s[i].None? || p(s[i].value))
    requires forall j :: 0 <= j < i ==> s[j].Some? && !p(s[j].value)
    ensures s[i].None? ==> FindStrict(s, p) == Failure(TypeError)
    ensures s[i].Some? ==> FindStrict(s, p) == Success(Some(s[i].value))
  {
    var q := StopsSearch(p);
    var k := FirstIndex(s, q);
    assert q(s[i]);
    assert forall j :: 0 <= j < i ==> !q(s[j]);
  }

  /** The same search in a sequence without undefined slots is a plain `find`. */
  lemma FindStrictOfPresent<T>(s: seq<T>, p: T -> bool)
    ensures FindStrict(Present(s), p) == Success(Find(s, p))
  {
    var q := StopsSearch(p);
    var ps := Present(s);
    match FirstIndex(s, p)
    case None =>
      assert forall j :: 0 <= j < |ps| ==> !q(ps[j]);
    case Some(i) =>
      assert q(ps[i]);
      assert forall j :: 0 <= j < i ==> !q(ps[j]);
      FindStrictAt(ps, p, i);
  }

  /** A search over a concatenation finds in the first part when it can,
      and otherwise searches the second. */
  lemma FindAppend<T>(a: seq<T>, b: seq<T>, p: T -> bool)
    ensures Find(a + b, p) == if Find(a, p).Some? then Find(a, p) else Find(b, p)
  {
    match FirstIndex(a, p)
    case Some(i) =>
      assert (a + b)[i] == a[i];
      FindIsFirst(a + b, p, i);
    case None =>
      match FirstIndex(b, p)
      case Some(k) =>
        assert (a + b)[|a| + k] == b[k];
        FindIsFirst(a + b, p, |a| + k);
      case None =>
        assert forall x :: x in a + b ==> x in a || x in b;
  }

  /** A strict search over a concatenation: the first part decides unless
      it passes over every slot, then the second part does. */
  lemma FindStrictAppend<T>(a: seq<Option<T>>, b: seq<Option<T>>, p: T -> bool)
    ensures FindStrict(a + b, p) == if FindStrict(a, p) == Success(None) then FindStrict(b, p) else FindStrict(a, p)
  {
    var q := StopsSearch(p);
    match FirstIndex(a, q)
    case Some(i) =>
      assert q(a[i]) && (a + b)[i] == a[i];
      assert forall j :: 0 <= j < i ==> (a + b)[j] == a[j] && !q(a[j]);
      FindStrictAt(a, p, i);
      FindStrictAt(a + b, p, i);
    case None =>
      assert FindStrict(a, p) == Success(None);
      match FirstIndex(b, q)
      case Some(k) =>
        assert q(b[k]) && (a + b)[|a| + k] == b[k];
        assert forall j :: 0 <= j < |a| + k ==> !q((a + b)[j]) by {
          forall j | 0 <= j < |a| + k
            ensures !q((a + b)[j])
          {
            if j < |a| {
              assert (a + b)[j] == a[j];
            } else {
              assert (a + b)[j] == b[j - |a|];
            }
          }
        }
        FindStrictAt(b, p, k);
        FindStrictAt(a + b, p, |a| + k);
      case None =>
        assert forall x :: x in a + b ==> x in a || x in b;
  }

  /** The first element satisfying `p` sits at index `i`. */
  predicate FirstAt<T>(s: seq<T>, p: T -> bool, i: int) {
    0 <= i < |s| && p(s[i]) && forall j :: 0 <= j < i ==> !p(s[j])
  }

  /** What `find` returns is the element at the first index satisfying `p`. */
  lemma FindFirstAt<T>(s: seq<T>, p: T -> bool)
    ensures Find(s, p).Some? ==> exists i :: FirstAt(s, p, i) && s[i] == Find(s, p).value
  {
    match FirstIndex(s, p)
    case None =>
    case Some(i) =>
      assert FirstAt(s, p, i);
  }

  /** Every element wrapped as present. */
  function Present<T>(s: seq<T>): (r: seq<Option<T>>)
    ensures |r| == |s|
    ensures forall i :: 0 <= i < |s| ==> r[i] == Some(s[i])
  {
    seq(|s|, i requires 0 <= i < |s| => Some(s[i]))
  }

  /** The elements satisfying `p`, in order: `s.filter(p)`. */
  function Filter<T>(s: seq<T>, p: T -> bool): (r: seq<T>)
    ensures |r| <= |s|
    ensures forall x :: x in r ==> x in s && p(x)
    ensures forall x :: x in s && p(x) ==> x in r
    ensures (forall x :: x in s ==> !p(x)) ==> r == []
  {
    if |s| == 0 then []
    else if p(s[0]) then [s[0]] + Filter(s[1..], p)
    else Filter(s[1..], p)
  }

  /** Filtering a sequence extended by one element extends the filtered
      sequence by that element exactly when it passes. */
  lemma {:induction false} FilterSnoc<T>(s: seq<T>, x: T, p: T -> bool)
    ensures Filter(s + [x], p) == Filter(s, p) + (if p(x) then [x] else [])
  {
    if |s| == 0 {
      assert s + [x] == [x];
      assert [x][1..] == [];
    } else {
      assert (s + [x])[0] == s[0];
      assert (s + [x])[1..] == s[1..] + [x];
      FilterSnoc(s[1..], x, p);
    }
  }
}
