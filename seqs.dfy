/** Sequence operations the portal uses through JavaScript's `Array`
    methods: `filter`, `findIndex` and the `reduce` that sums a column. */
module Seqs {
  import opened Types

  /** `s.filter(p)`: the elements of `s` that satisfy `p`, in order. */
  function Filter<T>(s: seq<T>, p: T -> bool): (r: seq<T>)
    ensures |r| <= |s|
  {
    if s == [] then [] else (if p(s[0]) then [s[0]] else []) + Filter(s[1..], p)
  }

  /** Every kept element is an element of `s` that passes, and every element
      of `s` that passes is kept. */
  lemma {:induction false} FilterMembers<T>(s: seq<T>, p: T -> bool)
    ensures forall i :: 0 <= i < |Filter(s, p)| ==> Filter(s, p)[i] in s && p(Filter(s, p)[i])
    ensures forall i :: 0 <= i < |s| && p(s[i]) ==> s[i] in Filter(s, p)
  {
    if s != [] {
      FilterMembers(s[1..], p);
      var r := Filter(s, p);
      var h := if p(s[0]) then [s[0]] else [];
      assert r == h + Filter(s[1..], p);
      forall i | 0 <= i < |s| && p(s[i]) ensures s[i] in r {
        if i > 0 {
          assert s[i] == s[1..][i - 1];
        }
      }
    }
  }

  /** One step of `Filter`, for a sequence written as head and tail. */
  lemma FilterCons<T>(x: T, s: seq<T>, p: T -> bool)
    ensures Filter([x] + s, p) == (if p(x) then [x] else []) + Filter(s, p)
  {
    assert ([x] + s)[0] == x && ([x] + s)[1..] == s;
  }

  /** One step of `Filter`, for a non-empty sequence. */
  lemma FilterHead<T>(s: seq<T>, p: T -> bool)
    requires s != []
    ensures Filter(s, p) == (if p(s[0]) then [s[0]] else []) + Filter(s[1..], p)
  {
  }

  /** Filtering keeps the relative order: it distributes over concatenation. */
  lemma {:induction false} FilterAppend<T>(a: seq<T>, b: seq<T>, p: T -> bool)
    ensures Filter(a + b, p) == Filter(a, p) + Filter(b, p)
  {
    if a == [] {
      assert a + b == b;
    } else {
      var h := if p(a[0]) then [a[0]] else [];
      assert (a + b)[0] == a[0] && (a + b)[1..] == a[1..] + b;
      assert Filter(a + b, p) == h + Filter(a[1..] + b, p);
      FilterAppend(a[1..], b, p);
      assert Filter(a, p) == h + Filter(a[1..], p);
    }
  }

  /** A filter that every element passes keeps the whole sequence. */
  lemma {:induction false} FilterAll<T>(s: seq<T>, p: T -> bool)
    requires forall i :: 0 <= i < |s| ==> p(s[i])
    ensures Filter(s, p) == s
  {
    if s != [] {
      FilterAll(s[1..], p);
    }
  }

  /** A filter that no element passes gives the empty sequence. */
  lemma {:induction false} FilterNone<T>(s: seq<T>, p: T -> bool)
    requires forall i :: 0 <= i < |s| ==> !p(s[i])
    ensures Filter(s, p) == []
  {
    if s != [] {
      FilterNone(s[1..], p);
    }
  }

  /** When exactly the elements at positions `lo` to `hi - 1` pass, the
      filter keeps that slice. */
  lemma {:induction false} FilterRange<T>(s: seq<T>, lo: nat, hi: nat, p: T -> bool)
    requires lo <= hi <= |s|
    requires forall i :: 0 <= i < lo ==> !p(s[i])
    requires forall i :: lo <= i < hi ==> p(s[i])
    requires forall i :: hi <= i < |s| ==> !p(s[i])
    ensures Filter(s, p) == s[lo..hi]
    decreases |s|
  {
    if hi == 0 {
      FilterNone(s, p);
    } else {
      var t := s[1..];
      assert forall i :: 0 <= i < |t| ==> t[i] == s[i + 1];
      if lo > 0 {
        FilterRange(t, lo - 1, hi - 1, p);
        assert t[lo - 1..hi - 1] == s[lo..hi];
      } else {
        FilterRange(t, 0, hi - 1, p);
        assert [s[0]] + t[..hi - 1] == s[..hi];
      }
    }
  }

  /** Two predicates that agree on every element filter alike. */
  lemma {:induction false} FilterCongruent<T>(s: seq<T>, p: T -> bool, q: T -> bool)
    requires forall i :: 0 <= i < |s| ==> p(s[i]) == q(s[i])
    ensures Filter(s, p) == Filter(s, q)
  {
    if s != [] {
      FilterCongruent(s[1..], p, q);
    }
  }

  /** `s.map(f)`. */
  function Map<A, B>(s: seq<A>, f: A -> B): (r: seq<B>)
    ensures |r| == |s|
    ensures forall i :: 0 <= i < |s| ==> r[i] == f(s[i])
  {
    seq(|s|, i requires 0 <= i < |s| => f(s[i]))
  }

  /** Mapping and filtering commute when the filter on the images is the
      filter `q` on the originals. */
  lemma {:induction false} FilterMap<A, B>(s: seq<A>, f: A -> B, p: B -> bool, q: A -> bool)
    requires forall i :: 0 <= i < |s| ==> p(f(s[i])) == q(s[i])
    ensures Filter(Map(s, f), p) == Map(Filter(s, q), f)
  {
    if s != [] {
      assert Map(s, f)[1..] == Map(s[1..], f);
      FilterMap(s[1..], f, p, q);
    }
  }

  /** `s.findIndex(p)`; `None` where JavaScript returns -1. */
  function FindIndex<T>(s: seq<T>, p: T -> bool): (r: Option<nat>)
    ensures r.None? <==> forall i :: 0 <= i < |s| ==> !p(s[i])
    ensures r.Some? ==> r.value < |s| && p(s[r.value]) && forall i :: 0 <= i < r.value ==> !p(s[i])
  {
    if s == [] then None
    else if p(s[0]) then Some(0)
    else match FindIndex(s[1..], p)
      case None => None
      case Some(k) => Some(k + 1)
  }

  /** Two sequences that agree elementwise on `p` have the same first match. */
  lemma {:induction false} FindIndexCongruent<T>(a: seq<T>, b: seq<T>, p: T -> bool)
    requires |a| == |b|
    requires forall i :: 0 <= i < |a| ==> p(a[i]) == p(b[i])
    ensures FindIndex(a, p) == FindIndex(b, p)
  {
    if a != [] {
      FindIndexCongruent(a[1..], b[1..], p);
    }
  }

  /** `s.reduce((sum, x) => sum + f(x), 0)`. */
  function Sum<T>(s: seq<T>, f: T -> real): real
  {
    if s == [] then 0.0 else Sum(s[..|s| - 1], f) + f(s[|s| - 1])
  }

  lemma {:induction false} SumAppend<T>(a: seq<T>, b: seq<T>, f: T -> real)
    ensures Sum(a + b, f) == Sum(a, f) + Sum(b, f)
  {
    if b != [] {
      assert (a + b)[..|a + b| - 1] == a + b[..|b| - 1];
      SumAppend(a, b[..|b| - 1], f);
    } else {
      assert a + b == a;
    }
  }

  /** A sum of terms that are each between 0 and `hi` lies between 0 and `|s| * hi`. */
  lemma {:induction false} SumBounds<T>(s: seq<T>, f: T -> real, hi: real)
    requires forall i :: 0 <= i < |s| ==> 0.0 <= f(s[i]) <= hi
    ensures 0.0 <= Sum(s, f) <= |s| as real * hi
  {
    if s != [] {
      SumBounds(s[..|s| - 1], f, hi);
    }
  }
}
