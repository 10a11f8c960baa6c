/** Small sequence vocabulary shared by the access rules and the watcher pipeline:
    Ruby's `select`, `uniq` and "is an order-preserving part of". */
module Collections {

  datatype Option<+T> = None | Some(value: T)

  /** `Array#select`: the elements of `s` satisfying `f`, in their original order. */
  function Filter<T(==)>(s: seq<T>, f: T -> bool): (r: seq<T>)
    ensures |r| <= |s|
    ensures forall i :: 0 <= i < |r| ==> r[i] in s && f(r[i])
    ensures forall i :: 0 <= i < |s| && f(s[i]) ==> s[i] in r
  {
    if s == [] then []
    else (if f(s[0]) then [s[0]] else []) + Filter(s[1..], f)
  }

  /** `r` can be obtained from `s` by deleting elements (order is kept). */
  predicate IsSubsequence<T(==)>(r: seq<T>, s: seq<T>)
    decreases |s|
  {
    if r == [] then true
    else if s == [] then false
    else if r[0] == s[0] then IsSubsequence(r[1..], s[1..])
    else IsSubsequence(r, s[1..])
  }

  /** No element occurs twice. */
  predicate Distinct<T(==)>(s: seq<T>) {
    forall i, j :: 0 <= i < j < |s| ==> s[i] != s[j]
  }

  /** Elements of `r` keep the order of their first occurrences in `s`: an
      element that comes earlier in `r` occurs in `s` before any occurrence
      of a later one. */
  predicate FirstOccurrenceOrder<T(==)>(r: seq<T>, s: seq<T>) {
    forall i, j, k :: 0 <= i < j < |r| && 0 <= k < |s| && s[k] == r[j] ==> r[i] in s[..k]
  }

  /** `Array#uniq`: the first occurrence of every element, in order. */
  function Dedup<T(==)>(s: seq<T>): (r: seq<T>)
    ensures forall i :: 0 <= i < |r| ==> r[i] in s
    ensures forall i :: 0 <= i < |s| ==> s[i] in r
    ensures Distinct(r)
    ensures FirstOccurrenceOrder(r, s)
    ensures |r| <= |s|
    decreases |s|
  {
    if s == [] then []
    else
      var d := Dedup(s[..|s| - 1]);
      var x := s[|s| - 1];
      var r := if x in d then d else d + [x];
      DedupOrderStep(s, d, r);
      r
  }

  /** One step of `Dedup`: the order of first occurrences survives appending
      the last element of `s` (when it is new). */
  lemma DedupOrderStep<T>(s: seq<T>, d: seq<T>, r: seq<T>)
    requires s != []
    requires forall i :: 0 <= i < |d| ==> d[i] in s[..|s| - 1]
    requires forall i :: 0 <= i < |s| - 1 ==> s[i] in d
    requires FirstOccurrenceOrder(d, s[..|s| - 1])
    requires r == if s[|s| - 1] in d then d else d + [s[|s| - 1]]
    ensures FirstOccurrenceOrder(r, s)
  {
    var p, x := s[..|s| - 1], s[|s| - 1];
    forall i, j, k | 0 <= i < j < |r| && 0 <= k < |s| && s[k] == r[j] ensures r[i] in s[..k] {
      assert r[i] == d[i];
      if k < |p| {
        assert s[k] == p[k] && p[..k] == s[..k];
        if j < |d| {
          assert r[j] == d[j];
        }
      } else {
        assert s[..k] == p;
      }
    }
  }

  lemma {:induction false} FilterIsSubsequence<T>(s: seq<T>, f: T -> bool)
    ensures IsSubsequence(Filter(s, f), s)
  {
    if s != [] {
      FilterIsSubsequence(s[1..], f);
      var r := Filter(s, f);
      if !f(s[0]) {
        assert r == Filter(s[1..], f);
        assert r != [] ==> r[0] in r && f(r[0]) && r[0] != s[0];
      } else {
        assert r == [s[0]] + Filter(s[1..], f);
        assert r[1..] == Filter(s[1..], f);
      }
    }
  }

  /** Filtering by `f` and then by `g` is filtering once by their conjunction `h`. */
  lemma {:induction false} FilterTwice<T>(s: seq<T>, f: T -> bool, g: T -> bool, h: T -> bool)
    requires forall x :: h(x) == (f(x) && g(x))
    ensures Filter(Filter(s, f), g) == Filter(s, h)
  {
    if s != [] {
      FilterTwice(s[1..], f, g, h);
      var head := if f(s[0]) then [s[0]] else [];
      assert Filter(s, f) == head + Filter(s[1..], f);
      FilterAppend(head, Filter(s[1..], f), g);
    }
  }

  /** A test that holds everywhere keeps everything. */
  lemma {:induction false} FilterKeepsAll<T>(s: seq<T>, f: T -> bool)
    requires forall x :: f(x)
    ensures Filter(s, f) == s
  {
    if s != [] {
      FilterKeepsAll(s[1..], f);
    }
  }

  /** The Ruby `Array#-`: the elements of `s` that do not occur in `t`, in order. */
  function Difference<T(==)>(s: seq<T>, t: seq<T>): (r: seq<T>)
    ensures forall i :: 0 <= i < |r| ==> r[i] in s && r[i] !in t
    ensures forall i :: 0 <= i < |s| && s[i] !in t ==> s[i] in r
  {
    Filter(s, x => x !in t)
  }

  lemma DifferenceIsFilter<T>(s: seq<T>, t: seq<T>, f: T -> bool)
    requires forall x :: f(x) == (x !in t)
    ensures Difference(s, t) == Filter(s, f)
  {
    FilterAgree(s, x => x !in t, f);
  }

  lemma {:induction false} FilterAppend<T>(a: seq<T>, b: seq<T>, f: T -> bool)
    ensures Filter(a + b, f) == Filter(a, f) + Filter(b, f)
  {
    if a != [] {
      FilterAppend(a[1..], b, f);
      assert (a + b)[1..] == a[1..] + b;
    } else {
      assert a + b == b;
    }
  }

  /** Two tests that agree on every element of `s` select the same elements. */
  lemma {:induction false} FilterAgree<T>(s: seq<T>, f: T -> bool, g: T -> bool)
    requires forall x :: x in s ==> f(x) == g(x)
    ensures Filter(s, f) == Filter(s, g)
  {
    if s != [] {
      assert forall x :: x in s[1..] ==> x in s;
      FilterAgree(s[1..], f, g);
    }
  }

  /** `uniq` of a sequence without repetitions changes nothing. */
  lemma {:induction false} DedupDistinct<T>(s: seq<T>)
    requires Distinct(s)
    ensures Dedup(s) == s
  {
    if s != [] {
      var p := s[..|s| - 1];
      assert Distinct(p);
      DedupDistinct(p);
      assert s[|s| - 1] !in p;
      assert p + [s[|s| - 1]] == s;
    }
  }

  /** `uniq` of `a + b` starts with `uniq` of `a`; elements of `b` that already
      occur in `a` add nothing, the others follow in their order in `b`. */
  lemma {:induction false} DedupAppend<T>(a: seq<T>, b: seq<T>)
    requires forall x :: x in b ==> x !in a
    ensures Dedup(a + b) == Dedup(a) + Dedup(b)
    decreases |b|
  {
    if b == [] {
      assert a + b == a;
    } else {
      var b' := b[..|b| - 1];
      var x := b[|b| - 1];
      assert (a + b)[..|a + b| - 1] == a + b';
      assert (a + b)[|a + b| - 1] == x;
      assert forall y :: y in b' ==> y in b;
      DedupAppend(a, b');
      assert x !in Dedup(a);
      assert x in Dedup(a) + Dedup(b') <==> x in Dedup(b');
    }
  }
}
