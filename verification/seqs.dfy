/** Sequence operations the client performs with `Array.prototype.filter`
    and friends, with the facts the pages rely on. */
module Seqs {
  import opened Wrappers

  /** `s.filter(p)`: the elements satisfying `p`, in their original order. */
  function Filter<T>(s: seq<T>, p: T -> bool): (r: seq<T>)
    ensures |r| <= |s|
    ensures forall i :: 0 <= i < |r| ==> p(r[i])
    decreases |s|
  {
    if s == [] then []
    else (if p(s[0]) then [s[0]] else []) + Filter(s[1..], p)
  }

  lemma {:induction false} FilterMembership<T>(s: seq<T>, p: T -> bool, x: T)
    ensures x in Filter(s, p) <==> x in s && p(x)
    decreases |s|
  {
    if s != [] {
      FilterMembership(s[1..], p, x);
      assert s == [s[0]] + s[1..];
    }
  }

  lemma {:induction false} FilterAll<T>(s: seq<T>, p: T -> bool)
    requires forall i :: 0 <= i < |s| ==> p(s[i])
    ensures Filter(s, p) == s
    decreases |s|
  {
    if s != [] {
      FilterAll(s[1..], p);
    }
  }

  predicate StrictlyIncreasing(s: seq<int>) {
    forall i, j :: 0 <= i < j < |s| ==> s[i] < s[j]
  }

  /** Filtering keeps the order: an ascending list stays ascending. */
  lemma {:induction false} FilterIncreasing(s: seq<int>, p: int -> bool)
    requires StrictlyIncreasing(s)
    ensures StrictlyIncreasing(Filter(s, p))
    decreases |s|
  {
    if s != [] {
      var tail := Filter(s[1..], p);
      FilterIncreasing(s[1..], p);
      forall k | 0 <= k < |tail|
        ensures s[0] < tail[k]
      {
        FilterMembership(s[1..], p, tail[k]);
      }
    }
  }

  /** The values of the entries that are present, in order: the client's
      `.filter(r => r.status === "success").map(r => r.result)`. */
  function Values<T>(s: seq<Option<T>>): (r: seq<T>)
    ensures |r| <= |s|
    decreases |s|
  {
    if s == [] then []
    else (if s[0].Some? then [s[0].value] else []) + Values(s[1..])
  }

  lemma {:induction false} ValuesMembership<T>(s: seq<Option<T>>, x: T)
    ensures x in Values(s) <==> Some(x) in s
    decreases |s|
  {
    if s != [] {
      ValuesMembership(s[1..], x);
      assert s == [s[0]] + s[1..];
    }
  }

  /** `Values` distributes over concatenation, so together with the two
      one-entry cases it fixes the result: the present values, in order,
      each exactly once. */
  lemma {:induction false} ValuesAppend<T>(a: seq<Option<T>>, b: seq<Option<T>>)
    ensures Values(a + b) == Values(a) + Values(b)
    decreases |a|
  {
    if a == [] {
      assert a + b == b;
    } else {
      assert (a + b)[0] == a[0] && (a + b)[1..] == a[1..] + b;
      ValuesAppend(a[1..], b);
      var head: seq<T> := if a[0].Some? then [a[0].value] else [];
      assert Values(a + b) == head + (Values(a[1..]) + Values(b));
      assert Values(a) == head + Values(a[1..]);
    }
  }

  lemma ValuesOfOne<T>(x: T)
    ensures Values([Some(x)]) == [x]
    ensures Values<T>([None]) == []
  {
    assert [Some(x)][1..] == [];
    var none: seq<Option<T>> := [None];
    assert none[1..] == [];
  }

  lemma {:induction false} ValuesOfAllPresent<T>(s: seq<Option<T>>)
    requires forall i :: 0 <= i < |s| ==> s[i].Some?
    ensures |Values(s)| == |s|
    ensures forall i :: 0 <= i < |s| ==> Values(s)[i] == s[i].value
    decreases |s|
  {
    if s != [] {
      ValuesOfAllPresent(s[1..]);
    }
  }

  /** `s.slice(0, n)`. */
  function Take<T>(s: seq<T>, n: nat): (r: seq<T>)
    ensures |r| == Min(n, |s|)
    ensures forall i :: 0 <= i < |r| ==> r[i] == s[i]
  {
    if n <= |s| then s[..n] else s
  }
}
