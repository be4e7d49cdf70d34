/** Sequence operations with the semantics of the JavaScript array methods the
    reducer uses: `indexOf`, out-of-range reads that give `undefined`,
    `splice(start, 1)` and `filter`. */
module Seqs {

  datatype Option<T> = None | Some(value: T)

  /** `s.indexOf(x)`: the first position of `x` in `s`, or -1. */
  function IndexOf<T(==)>(s: seq<T>, x: T): (r: int)
    ensures -1 <= r < |s|
    ensures r == -1 <==> x !in s
    ensures 0 <= r ==> s[r] == x && forall j :: 0 <= j < r ==> s[j] != x
  {
    if |s| == 0 then -1
    else if s[0] == x then 0
    else
      var k := IndexOf(s[1..], x);
      if k == -1 then -1 else k + 1
  }

  /** `s[k]` for any integer `k`: `undefined` (None) outside `0 .. |s| - 1`. */
  function At<T>(s: seq<T>, k: int): (r: Option<T>)
    ensures r.Some? <==> 0 <= k < |s|
    ensures r.Some? ==> r.value == s[k]
  {
    if 0 <= k < |s| then Some(s[k]) else None
  }

  /** `s.indexOf(v)` where `v` may be `undefined`; an array of strings never
      contains `undefined`, so that search gives -1. */
  function IndexOfOpt<T(==)>(s: seq<T>, v: Option<T>): (r: int)
    ensures -1 <= r < |s|
    ensures r == -1 <==> v.None? || v.value !in s
    ensures r >= 0 ==> s[r] == v.value && forall j :: 0 <= j < r ==> s[j] != v.value
  {
    match v
    case None => -1
    case Some(x) => IndexOf(s, x)
  }

  /** The position `splice(start, 1)` works on: a negative `start` counts from
      the end (clamped at 0), a large one is clamped at `|s|`. */
  function SpliceStart<T>(s: seq<T>, start: int): (r: nat)
    ensures r <= |s|
    ensures 0 <= start <= |s| ==> r == start
    ensures -|s| <= start < 0 ==> r == |s| + start
  {
    if start < 0 then (if |s| + start < 0 then 0 else |s| + start)
    else if start > |s| then |s|
    else start
  }

  /** The array left after `s.splice(start, 1)`. */
  function Splice1<T>(s: seq<T>, start: int): (r: seq<T>)
    ensures SpliceStart(s, start) < |s| ==>
      (|r| == |s| - 1 && forall i :: 0 <= i < |r| ==> r[i] == s[if i < SpliceStart(s, start) then i else i + 1])
    ensures SpliceStart(s, start) == |s| ==> r == s
  {
    var k := SpliceStart(s, start);
    if k < |s| then s[..k] + s[k + 1..] else s
  }

  /** `s.filter(f)`. */
  function Filter<T(!new)>(s: seq<T>, f: T -> bool): (r: seq<T>)
    ensures |r| <= |s|
    ensures forall x :: x in r <==> x in s && f(x)
  {
    if |s| == 0 then []
    else (if f(s[0]) then [s[0]] else []) + Filter(s[1..], f)
  }

  /** `a` is `b` with some elements dropped: its elements occur in `b` in the
      same order. */
  predicate Subseq<T(==)>(a: seq<T>, b: seq<T>)
  {
    if |a| == 0 then true
    else if |b| == 0 then false
    else if a[0] == b[0] then Subseq(a[1..], b[1..])
    else Subseq(a, b[1..])
  }

  predicate Distinct<T(==)>(s: seq<T>)
  {
    forall i, j :: 0 <= i < j < |s| ==> s[i] != s[j]
  }

  ghost function Elems<T>(s: seq<T>): set<T>
  {
    set x | x in s
  }

  /** The array `s.splice(s.indexOf(x), 1)` leaves when `x` occurs: the first
      occurrence of `x` is cut out and the rest keeps its order, so there is
      one occurrence fewer of `x` and every other element as often as
      before. */
  lemma RemoveFirst<T>(s: seq<T>, x: T)
    requires x in s
    ensures Splice1(s, IndexOf(s, x)) == s[..IndexOf(s, x)] + s[IndexOf(s, x) + 1..]
    ensures |Splice1(s, IndexOf(s, x))| == |s| - 1
    ensures multiset(Splice1(s, IndexOf(s, x))) == multiset(s) - multiset{x}
    ensures forall y :: y in Splice1(s, IndexOf(s, x)) ==> y in s
  {
    SpliceAt(s, IndexOf(s, x));
    DropAt(s, IndexOf(s, x));
  }

  /** `splice(k, 1)` at a position inside the list cuts out `s[k]`. */
  lemma SpliceAt<T>(s: seq<T>, k: nat)
    requires k < |s|
    ensures Splice1(s, k) == s[..k] + s[k + 1..]
  {
  }

  /** Removing the element at position `k`. */
  lemma DropAt<T>(s: seq<T>, k: nat)
    requires k < |s|
    ensures multiset(s[..k] + s[k + 1..]) == multiset(s) - multiset{s[k]}
    ensures forall y :: y in s[..k] + s[k + 1..] ==> y in s
  {
    var r := s[..k] + s[k + 1..];
    assert s == s[..k] + ([s[k]] + s[k + 1..]);
    assert multiset(s) == multiset(s[..k]) + (multiset{s[k]} + multiset(s[k + 1..]));
    forall y | y in r ensures y in s {
      assert y in multiset(r);
    }
  }

  /** In a list without repetitions, `s.splice(s.indexOf(x), 1)` removes
      exactly `x` and keeps the list without repetitions. */
  lemma RemoveFirstDistinct<T>(s: seq<T>, x: T)
    requires x in s && Distinct(s)
    ensures Distinct(Splice1(s, IndexOf(s, x)))
    ensures forall y :: y in Splice1(s, IndexOf(s, x)) <==> y in s && y != x
  {
    SpliceAt(s, IndexOf(s, x));
    DropAtDistinct(s, IndexOf(s, x));
  }

  /** Removing the element at position `k` of a list without repetitions
      removes exactly that element. */
  lemma DropAtDistinct<T>(s: seq<T>, k: nat)
    requires k < |s| && Distinct(s)
    ensures Distinct(s[..k] + s[k + 1..])
    ensures forall y :: y in s[..k] + s[k + 1..] <==> y in s && y != s[k]
  {
    var r := s[..k] + s[k + 1..];
    assert |r| == |s| - 1;
    assert forall i :: 0 <= i < |r| ==> r[i] == s[if i < k then i else i + 1];
    forall y ensures y in r <==> y in s && y != s[k] {
      if y in s && y != s[k] {
        var i :| 0 <= i < |s| && s[i] == y;
        assert r[if i < k then i else i - 1] == y;
      }
    }
  }

  /** `s.splice(-1, 1)` drops the last element, and does nothing to `[]`. */
  lemma SpliceLast<T>(s: seq<T>)
    ensures |s| == 0 ==> Splice1(s, -1) == s
    ensures |s| > 0 ==> Splice1(s, -1) == s[..|s| - 1]
  {
    if |s| > 0 {
      assert s[|s|..] == [];
    }
  }

  /** `filter` keeps every copy of an element that passes and none of one
      that fails. */
  lemma {:induction false} FilterCount<T(!new)>(s: seq<T>, f: T -> bool, x: T)
    ensures multiset(Filter(s, f))[x] == if f(x) then multiset(s)[x] else 0
  {
    if |s| > 0 {
      FilterCount(s[1..], f, x);
      assert s == [s[0]] + s[1..];
    }
  }

  /** `filter` keeps the order of the elements it keeps. */
  lemma {:induction false} FilterSubseq<T(!new)>(s: seq<T>, f: T -> bool)
    ensures Subseq(Filter(s, f), s)
  {
    if |s| > 0 {
      FilterSubseq(s[1..], f);
      var rest := Filter(s[1..], f);
      if f(s[0]) {
        assert ([s[0]] + rest)[1..] == rest;
      } else {
        assert Filter(s, f) == rest;
        SubseqDropHead(rest, s);
      }
    }
  }

  /** A subsequence of the tail is a subsequence of the whole. */
  lemma {:induction false} SubseqDropHead<T>(a: seq<T>, b: seq<T>)
    requires |b| > 0 && Subseq(a, b[1..])
    ensures Subseq(a, b)
  {
    if |a| > 0 && a[0] == b[0] {
      SubseqTail(a, b[1..]);
    }
  }

  /** Dropping the head of a subsequence keeps it a subsequence. */
  lemma {:induction false} SubseqTail<T>(a: seq<T>, b: seq<T>)
    requires |a| > 0 && Subseq(a, b)
    ensures Subseq(a[1..], b)
  {
    if a[0] == b[0] {
      if |a| > 1 {
        SubseqDropHead(a[1..], b);
      }
    } else {
      SubseqTail(a, b[1..]);
      if |a| > 1 {
        SubseqDropHead(a[1..], b);
      }
    }
  }

  lemma {:induction false} SubseqElems<T>(a: seq<T>, b: seq<T>)
    requires Subseq(a, b)
    ensures forall x :: x in a ==> x in b
  {
    if |a| > 0 {
      if a[0] == b[0] {
        SubseqElems(a[1..], b[1..]);
        forall x | x in a ensures x in b {
          if x != a[0] {
            assert x in a[1..];
          }
        }
      } else {
        SubseqElems(a, b[1..]);
      }
    }
  }

  /** A subsequence of a list without repetitions has no repetitions. */
  lemma {:induction false} SubseqDistinct<T>(a: seq<T>, b: seq<T>)
    requires Subseq(a, b) && Distinct(b)
    ensures Distinct(a)
  {
    if |a| > 0 {
      if a[0] == b[0] {
        SubseqDistinct(a[1..], b[1..]);
        SubseqElems(a[1..], b[1..]);
        assert b[0] !in b[1..];
        forall i, j | 0 <= i < j < |a| ensures a[i] != a[j] {
          if i > 0 {
            assert a[i] == a[1..][i - 1] && a[j] == a[1..][j - 1];
          } else {
            assert a[j] in a[1..];
          }
        }
      } else {
        SubseqDistinct(a, b[1..]);
      }
    }
  }

  lemma FilterDistinct<T(!new)>(s: seq<T>, f: T -> bool)
    requires Distinct(s)
    ensures Distinct(Filter(s, f))
  {
    FilterSubseq(s, f);
    SubseqDistinct(Filter(s, f), s);
  }

  /** Filtering out every element leaves nothing. */
  lemma {:induction false} FilterNone<T(!new)>(s: seq<T>, f: T -> bool)
    requires forall x :: x in s ==> !f(x)
    ensures Filter(s, f) == []
  {
    if |s| > 0 {
      FilterNone(s[1..], f);
    }
  }

  /** Filtering by predicates that agree on `s` gives the same list. */
  lemma {:induction false} FilterCongruent<T(!new)>(s: seq<T>, f: T -> bool, g: T -> bool)
    requires forall x :: x in s ==> f(x) == g(x)
    ensures Filter(s, f) == Filter(s, g)
  {
    if |s| > 0 {
      FilterCongruent(s[1..], f, g);
    }
  }

  /** Re-sorting an ordered selection by the order of a list without
      repetitions gives the selection back: `b.filter(x => a.includes(x)) == a`. */
  lemma {:induction false} FilterMembersOfSubseq<T(!new)>(a: seq<T>, b: seq<T>)
    requires Subseq(a, b) && Distinct(b)
    ensures Filter(b, x => x in a) == a
  {
    if |b| == 0 {
    } else if |a| > 0 && a[0] == b[0] {
      SubseqElems(a[1..], b[1..]);
      FilterCongruent(b[1..], x => x in a, x => x in a[1..]);
      FilterMembersOfSubseq(a[1..], b[1..]);
      assert a == [a[0]] + a[1..];
    } else {
      SubseqElems(a, b[1..]);
      FilterCongruent(b[1..], x => x in a, x => x in a);
      FilterMembersOfSubseq(a, b[1..]);
    }
  }

  lemma {:induction false} DistinctElemsCard<T>(s: seq<T>)
    requires Distinct(s)
    ensures |Elems(s)| == |s|
  {
    if |s| > 0 {
      DistinctElemsCard(s[1..]);
      assert Elems(s) == {s[0]} + Elems(s[1..]);
      assert s[0] !in Elems(s[1..]);
    } else {
      assert Elems(s) == {};
    }
  }

  lemma {:induction false} ElemsCard<T>(s: seq<T>)
    ensures |Elems(s)| <= |s|
  {
    if |s| > 0 {
      ElemsCard(s[1..]);
      assert Elems(s) == {s[0]} + Elems(s[1..]);
    } else {
      assert Elems(s) == {};
    }
  }

  /** The distinct items of `s` that `f` rejects, together with the items
      `Filter` keeps (repetitions included), are no more than `s` holds. */
  lemma {:induction false} RejectedAndKeptCard<T(!new)>(s: seq<T>, f: T -> bool, rejected: set<T>)
    requires forall x :: x in rejected <==> x in s && !f(x)
    ensures |rejected| + |Filter(s, f)| <= |s|
  {
    if |s| == 0 {
      assert rejected == {};
    } else {
      var rest := set x | x in s[1..] && !f(x);
      RejectedAndKeptCard(s[1..], f, rest);
      if f(s[0]) {
        assert rejected == rest;
      } else {
        assert rejected == rest + {s[0]};
      }
    }
  }

  /** A list without repetitions whose elements all occur in `b` is no longer
      than `b`. */
  lemma DistinctSubsetLength<T>(a: seq<T>, b: seq<T>)
    requires Distinct(a)
    requires forall x :: x in a ==> x in b
    ensures |a| <= |b|
  {
    DistinctElemsCard(a);
    ElemsCard(b);
    assert Elems(a) <= Elems(b);
    SubsetCard(Elems(a), Elems(b));
  }

  lemma SubsetCard<T>(a: set<T>, b: set<T>)
    requires a <= b
    ensures |a| <= |b|
  {
    assert b == a + (b - a);
  }
}
