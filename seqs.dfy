/** Order-preserving selection from a sequence (JavaScript's `Array.prototype.filter`). */
module Seqs {
  import opened Wrappers

  /** The elements of `s` that satisfy `p`, in their original order. */
  function Filter<T>(s: seq<T>, p: T -> bool): seq<T> {
    if s == [] then [] else (if p(s[0]) then [s[0]] else []) + Filter(s[1..], p)
  }

  /** `a` is `b` with some elements left out and the rest kept in order. */
  predicate IsSubsequence<T(==)>(a: seq<T>, b: seq<T>)
    decreases |b|
  {
    a == [] ||
    (b != [] && ((a[0] == b[0] && IsSubsequence(a[1..], b[1..])) || IsSubsequence(a, b[1..])))
  }

  /** The first element is kept exactly when it passes. */
  lemma FilterCons<T>(x: T, s: seq<T>, p: T -> bool)
    ensures Filter([x] + s, p) == (if p(x) then [x] else []) + Filter(s, p)
  {
    assert ([x] + s)[1..] == s;
  }

  /** Counted as a multiset, a sequence is its first element and the rest. */
  lemma MultisetFirst<T>(s: seq<T>)
    requires s != []
    ensures multiset(s) == multiset{s[0]} + multiset(s[1..])
  {
    assert s == [s[0]] + s[1..];
  }

  /** The first element is selected exactly when it passes; the rest is filtered on its own. */
  lemma FilterFirst<T>(s: seq<T>, p: T -> bool)
    requires s != []
    ensures p(s[0]) ==> multiset(Filter(s, p)) == multiset{s[0]} + multiset(Filter(s[1..], p))
    ensures !p(s[0]) ==> Filter(s, p) == Filter(s[1..], p)
  {
  }

  /** Filtering two elements checks each of them, in order. */
  lemma FilterPair<T>(a: T, b: T, p: T -> bool)
    ensures Filter([a, b], p) == (if p(a) then [a] else []) + (if p(b) then [b] else [])
  {
    calc {
      Filter([a, b], p);
    == { assert [a, b] == [a] + [b]; FilterCons(a, [b], p); }
      (if p(a) then [a] else []) + Filter([b], p);
    == { assert [b] == [b] + []; FilterCons(b, [], p); }
      (if p(a) then [a] else []) + ((if p(b) then [b] else []) + Filter([], p));
    }
  }

  /** Appending one element to the input appends it to the output exactly when it passes. */
  lemma {:induction false} FilterAppend<T>(s: seq<T>, x: T, p: T -> bool)
    ensures Filter(s + [x], p) == Filter(s, p) + (if p(x) then [x] else [])
    decreases |s|
  {
    if s == [] {
      assert [] + [x] == [x];
    } else {
      var head := if p(s[0]) then [s[0]] else [];
      var last := if p(x) then [x] else [];
      calc {
        Filter(s + [x], p);
      == { assert (s + [x])[0] == s[0]; assert (s + [x])[1..] == s[1..] + [x]; }
        head + Filter(s[1..] + [x], p);
      == { FilterAppend(s[1..], x, p); }
        head + (Filter(s[1..], p) + last);
      ==
        (head + Filter(s[1..], p)) + last;
      }
    }
  }

  /** An element is selected exactly when it occurs in the input and passes. */
  lemma {:induction false} FilterMembership<T>(s: seq<T>, p: T -> bool, x: T)
    ensures x in Filter(s, p) <==> x in s && p(x)
    decreases |s|
  {
    if s != [] {
      FilterMembership(s[1..], p, x);
      assert s == [s[0]] + s[1..];
    }
  }

  /** The selection keeps the input's relative order. */
  lemma {:induction false} FilterIsSubsequence<T>(s: seq<T>, p: T -> bool)
    ensures IsSubsequence(Filter(s, p), s)
    decreases |s|
  {
    if s != [] {
      FilterIsSubsequence(s[1..], p);
      var r := Filter(s, p);
      if p(s[0]) {
        assert r == [s[0]] + Filter(s[1..], p);
        assert r[0] == s[0] && r[1..] == Filter(s[1..], p);
      } else {
        assert r == Filter(s[1..], p);
      }
    }
  }

  /** When every element passes, nothing is dropped. */
  lemma {:induction false} FilterKeepsAll<T>(s: seq<T>, p: T -> bool)
    requires forall i :: 0 <= i < |s| ==> p(s[i])
    ensures Filter(s, p) == s
    decreases |s|
  {
    if s != [] {
      assert p(s[0]);
      FilterKeepsAll(s[1..], p);
    }
  }

  /** The first element of `s` that satisfies `p`: a left-to-right scan that stops at the first hit. */
  function FirstWhere<T>(s: seq<T>, p: T -> bool): Option<T> {
    if s == [] then None
    else if p(s[0]) then Some(s[0])
    else FirstWhere(s[1..], p)
  }

  /**
   * The scan finds nothing exactly when no element satisfies `p`; otherwise
   * what it finds satisfies `p` and no element before it does.
   */
  lemma {:induction false} FirstWhereSpec<T>(s: seq<T>, p: T -> bool)
    ensures FirstWhere(s, p).None? <==> forall j :: 0 <= j < |s| ==> !p(s[j])
    ensures FirstWhere(s, p).Some? ==>
      exists j :: 0 <= j < |s| && s[j] == FirstWhere(s, p).value &&
        p(s[j]) && forall k :: 0 <= k < j ==> !p(s[k])
    decreases |s|
  {
    if s != [] && !p(s[0]) {
      var tail := s[1..];
      FirstWhereSpec(tail, p);
      var r := FirstWhere(tail, p);
      if r.Some? {
        var j :| 0 <= j < |tail| && tail[j] == r.value && p(tail[j]) &&
          forall k :: 0 <= k < j ==> !p(tail[k]);
        assert s[j + 1] == r.value;
        assert forall k :: 0 <= k < j + 1 ==> !p(s[k]) by {
          forall k | 0 <= k < j + 1 ensures !p(s[k]) {
            if k > 0 { assert s[k] == tail[k - 1]; }
          }
        }
      } else {
        forall j | 0 <= j < |s| ensures !p(s[j]) {
          if j > 0 { assert s[j] == tail[j - 1]; }
        }
      }
    }
  }
}
