/**
 * Order-preserving subsequences and `Array.prototype.filter`, which every
 * view, every count and the delete operation of the task app are built from.
 */
module Sequences {

  /** `r` is obtained from `s` by dropping elements, keeping the order of the rest. */
  ghost predicate Subseq<T(!new)>(r: seq<T>, s: seq<T>)
    decreases |s|
  {
    && |r| <= |s|
    && (|| r == []
        || (r[0] == s[0] && Subseq(r[1..], s[1..]))
        || Subseq(r, s[1..]))
  }

  lemma {:induction false} SubseqReflexive<T(!new)>(s: seq<T>)
    ensures Subseq(s, s)
  {
    if s != [] {
      SubseqReflexive(s[1..]);
    }
  }

  /** A subsequence holds each value at most as often as the sequence it came from. */
  lemma {:induction false} SubseqMultiset<T(!new)>(r: seq<T>, s: seq<T>)
    requires Subseq(r, s)
    ensures multiset(r) <= multiset(s)
    decreases |s|
  {
    if r != [] {
      assert s == [s[0]] + s[1..];
      if r[0] == s[0] && Subseq(r[1..], s[1..]) {
        SubseqMultiset(r[1..], s[1..]);
        assert r == [r[0]] + r[1..];
      } else {
        SubseqMultiset(r, s[1..]);
      }
    }
  }

  /** `Array.prototype.filter`: the elements of `s` that satisfy `p`, in their original order. */
  function Filter<T(!new)>(s: seq<T>, p: T -> bool): (r: seq<T>)
    ensures |r| <= |s|
    ensures Subseq(r, s)
    ensures forall x :: x in r <==> x in s && p(x)
    ensures forall x :: multiset(r)[x] == if p(x) then multiset(s)[x] else 0
  {
    if s == [] then []
    else
      assert s == [s[0]] + s[1..];
      if p(s[0]) then [s[0]] + Filter(s[1..], p) else Filter(s[1..], p)
  }

  /**
   * The contract of Filter pins its result down: the only subsequence of `s`
   * holding exactly the elements that satisfy `p` (with their multiplicities)
   * is `Filter(s, p)`.
   */
  lemma {:induction false} FilterUnique<T(!new)>(r: seq<T>, s: seq<T>, p: T -> bool)
    requires Subseq(r, s)
    requires forall x :: multiset(r)[x] == if p(x) then multiset(s)[x] else 0
    ensures r == Filter(s, p)
    decreases |s|
  {
    if s == [] {
      assert r == [];
    } else {
      var h := s[0];
      assert s == [h] + s[1..];
      if p(h) {
        if r != [] && r[0] == h && Subseq(r[1..], s[1..]) {
          assert r == [h] + r[1..];
          FilterUnique(r[1..], s[1..], p);
        } else {
          SubseqMultiset(r, s[1..]);
          assert false;
        }
      } else {
        assert h !in r by {
          assert multiset(r)[h] == 0;
        }
        if r != [] {
          assert r[0] in r;
        }
        assert Subseq(r, s[1..]);
        FilterUnique(r, s[1..], p);
      }
    }
  }

  lemma {:induction false} FilterKeepsAll<T(!new)>(s: seq<T>, p: T -> bool)
    requires forall x :: x in s ==> p(x)
    ensures Filter(s, p) == s
  {
    if s != [] {
      assert s[0] in s;
      assert forall x :: x in s[1..] ==> x in s;
      FilterKeepsAll(s[1..], p);
    }
  }

  /** Filtering by a predicate and by its negation splits the sequence. */
  lemma {:induction false} FilterComplement<T(!new)>(s: seq<T>, p: T -> bool, q: T -> bool)
    requires forall x :: q(x) == !p(x)
    ensures |Filter(s, p)| + |Filter(s, q)| == |s|
  {
    if s != [] {
      FilterComplement(s[1..], p, q);
    }
  }

  /** Filtering by a stronger predicate can be done after filtering by a weaker one. */
  lemma {:induction false} FilterNarrow<T(!new)>(s: seq<T>, p: T -> bool, q: T -> bool)
    requires forall x :: q(x) ==> p(x)
    ensures Filter(Filter(s, p), q) == Filter(s, q)
    ensures Subseq(Filter(s, q), Filter(s, p))
    ensures |Filter(s, q)| <= |Filter(s, p)|
  {
    if s != [] {
      FilterNarrow(s[1..], p, q);
      if p(s[0]) {
        var t := [s[0]] + Filter(s[1..], p);
        assert t[0] == s[0] && t[1..] == Filter(s[1..], p);
      }
    }
  }

  lemma FilterIdempotent<T(!new)>(s: seq<T>, p: T -> bool)
    ensures Filter(Filter(s, p), p) == Filter(s, p)
  {
    FilterNarrow(s, p, p);
  }

  /** Two sequences that agree pointwise on `p` have equally long filters. */
  lemma {:induction false} FilterLengthAgrees<T(!new)>(r: seq<T>, s: seq<T>, p: T -> bool)
    requires |r| == |s|
    requires forall i :: 0 <= i < |s| ==> p(r[i]) == p(s[i])
    ensures |Filter(r, p)| == |Filter(s, p)|
  {
    if s != [] {
      assert p(r[0]) == p(s[0]);
      FilterLengthAgrees(r[1..], s[1..], p);
    }
  }

  /** Replacing one element changes the filter's length by what that element contributed. */
  lemma {:induction false} FilterLengthUpdate<T(!new)>(s: seq<T>, k: nat, x: T, p: T -> bool)
    requires k < |s|
    ensures |Filter(s[k := x], p)| + (if p(s[k]) then 1 else 0)
         == |Filter(s, p)| + (if p(x) then 1 else 0)
  {
    var s' := s[k := x];
    if k > 0 {
      assert s'[1..] == s[1..][k - 1 := x];
      FilterLengthUpdate(s[1..], k - 1, x, p);
    } else {
      assert s'[1..] == s[1..];
    }
  }
}
