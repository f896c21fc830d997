/** Order-preserving filtering and first-occurrence key order, shared by the list pages. */
module Seqs {

  /** `s.filter(keep)`. */
  function Filter<T(==,!new)>(s: seq<T>, keep: T -> bool): (r: seq<T>)
    ensures |r| <= |s|
    ensures forall x {:trigger x in r} :: x in r <==> x in s && keep(x)
  {
    if s == [] then [] else (if keep(s[0]) then [s[0]] else []) + Filter(s[1..], keep)
  }

  /** `r` is obtained from `s` by deleting elements, keeping the order of the others. */
  predicate IsSubsequence<T(==,!new)>(r: seq<T>, s: seq<T>)
    decreases |s|
  {
    r == [] || (s != [] && if r[0] == s[0] then IsSubsequence(r[1..], s[1..]) else IsSubsequence(r, s[1..]))
  }

  /** A subsequence of the tail is a subsequence of the whole. */
  lemma {:induction false} SubsequenceOfTail<T(!new)>(r: seq<T>, t: seq<T>)
    requires t != [] && IsSubsequence(r, t[1..])
    ensures IsSubsequence(r, t)
    decreases |t|, 0
  {
    if r != [] && r[0] == t[0] {
      SubsequenceDropHead(r, t[1..]);
    }
  }

  /** Dropping the first element of a subsequence keeps it a subsequence. */
  lemma {:induction false} SubsequenceDropHead<T(!new)>(r: seq<T>, t: seq<T>)
    requires r != [] && IsSubsequence(r, t)
    ensures IsSubsequence(r[1..], t)
    decreases |t|, 1
  {
    if r[0] == t[0] {
      SubsequenceOfTail(r[1..], t);
    } else {
      SubsequenceDropHead(r, t[1..]);
      SubsequenceOfTail(r[1..], t);
    }
  }

  /** A filter keeps the surviving elements in their original order. */
  lemma {:induction false} FilterIsSubsequence<T(!new)>(s: seq<T>, keep: T -> bool)
    ensures IsSubsequence(Filter(s, keep), s)
    decreases |s|
  {
    if s != [] {
      var rest := Filter(s[1..], keep);
      FilterIsSubsequence(s[1..], keep);
      if keep(s[0]) {
        assert Filter(s, keep) == [s[0]] + rest;
        assert ([s[0]] + rest)[1..] == rest;
      } else {
        assert Filter(s, keep) == rest;
        SubsequenceOfTail(rest, s);
      }
    }
  }

  /** Filtering a concatenation filters each part. */
  lemma {:induction false} FilterAppend<T(!new)>(a: seq<T>, b: seq<T>, keep: T -> bool)
    ensures Filter(a + b, keep) == Filter(a, keep) + Filter(b, keep)
  {
    if a == [] {
      assert a + b == b;
    } else {
      var head := if keep(a[0]) then [a[0]] else [];
      assert (a + b)[0] == a[0] && (a + b)[1..] == a[1..] + b;
      FilterAppend(a[1..], b, keep);
      calc {
        Filter(a + b, keep);
        head + Filter(a[1..] + b, keep);
        head + (Filter(a[1..], keep) + Filter(b, keep));
        (head + Filter(a[1..], keep)) + Filter(b, keep);
        Filter(a, keep) + Filter(b, keep);
      }
    }
  }

  /** A filter that keeps every element returns the list itself. */
  lemma {:induction false} FilterKeepsAll<T(!new)>(s: seq<T>, keep: T -> bool)
    requires forall x :: x in s ==> keep(x)
    ensures Filter(s, keep) == s
  {
    if s != [] {
      FilterKeepsAll(s[1..], keep);
    }
  }

  /** Two filters whose tests agree on every element give the same list. */
  lemma {:induction false} FilterSameTest<T(!new)>(s: seq<T>, f: T -> bool, g: T -> bool)
    requires forall x :: f(x) == g(x)
    ensures Filter(s, f) == Filter(s, g)
  {
    if s != [] {
      FilterSameTest(s[1..], f, g);
    }
  }

  /** Kept and dropped elements together are all of them. */
  lemma {:induction false} FilterSplit<T(!new)>(s: seq<T>, keep: T -> bool, drop: T -> bool)
    requires forall x :: drop(x) == !keep(x)
    ensures |Filter(s, keep)| + |Filter(s, drop)| == |s|
  {
    if s != [] {
      FilterSplit(s[1..], keep, drop);
    }
  }

  /** A filter that drops only the head returns the tail. */
  lemma FilterDropsHead<T(!new)>(s: seq<T>, keep: T -> bool)
    requires s != [] && !keep(s[0])
    requires forall i :: 1 <= i < |s| ==> keep(s[i])
    ensures Filter(s, keep) == s[1..]
  {
    var t := s[1..];
    forall x | x in t
      ensures keep(x)
    {
      var m :| 0 <= m < |t| && t[m] == x;
      assert t[m] == s[m + 1];
    }
    FilterKeepsAll(t, keep);
  }

  /** Removing exactly one position when it is the only one the filter drops. */
  lemma {:induction false} FilterDropsOne<T(!new)>(s: seq<T>, keep: T -> bool, k: nat)
    requires k < |s|
    requires !keep(s[k])
    requires forall i :: 0 <= i < |s| && i != k ==> keep(s[i])
    ensures Filter(s, keep) == s[..k] + s[k + 1..]
  {
    var t := s[1..];
    if k == 0 {
      FilterDropsHead(s, keep);
      assert s[..k] + s[k + 1..] == t;
    } else {
      forall i | 0 <= i < |t| && i != k - 1
        ensures keep(t[i])
      {
        assert t[i] == s[i + 1];
      }
      FilterDropsOne(t, keep, k - 1);
      assert t[..k - 1] == s[1..k];
      assert t[k..] == s[k + 1..];
      assert s[..k] == [s[0]] + s[1..k];
      calc {
        Filter(s, keep);
        [s[0]] + Filter(t, keep);
        [s[0]] + (s[1..k] + s[k + 1..]);
        ([s[0]] + s[1..k]) + s[k + 1..];
        s[..k] + s[k + 1..];
      }
    }
  }

  /** The values of the elements added up from 0. */
  function SumOf<T>(s: seq<T>, value: T -> int): int {
    if s == [] then 0 else value(s[0]) + SumOf(s[1..], value)
  }

  /** The sum over a concatenation is the sum of the sums. */
  lemma {:induction false} SumOfAppend<T>(a: seq<T>, b: seq<T>, value: T -> int)
    ensures SumOf(a + b, value) == SumOf(a, value) + SumOf(b, value)
  {
    if a == [] {
      assert a + b == b;
    } else {
      assert (a + b)[1..] == a[1..] + b;
      SumOfAppend(a[1..], b, value);
    }
  }

  /** What a filter keeps and what it drops add up to the whole sum. */
  lemma {:induction false} SumOfFilterSplit<T(!new)>(s: seq<T>, keep: T -> bool, drop: T -> bool, value: T -> int)
    requires forall x :: drop(x) == !keep(x)
    ensures SumOf(Filter(s, keep), value) + SumOf(Filter(s, drop), value) == SumOf(s, value)
  {
    if s != [] {
      SumOfFilterSplit(s[1..], keep, drop, value);
      var k, d := Filter(s[1..], keep), Filter(s[1..], drop);
      if keep(s[0]) {
        assert !drop(s[0]);
        assert Filter(s, drop) == d;
        assert Filter(s, keep) == [s[0]] + k;
        assert ([s[0]] + k)[1..] == k;
      } else {
        assert drop(s[0]);
        assert Filter(s, keep) == k;
        assert Filter(s, drop) == [s[0]] + d;
        assert ([s[0]] + d)[1..] == d;
      }
    }
  }

  predicate Distinct<T(==,!new)>(s: seq<T>) {
    forall i, j :: 0 <= i < j < |s| ==> s[i] != s[j]
  }

  /** The tail of a list without repeats has none, and lacks the head. */
  lemma DistinctTail<T(!new)>(s: seq<T>)
    requires s != [] && Distinct(s)
    ensures Distinct(s[1..]) && s[0] !in s[1..]
  {
    forall i | 0 <= i < |s| - 1
      ensures s[1..][i] != s[0]
    {
      assert s[1..][i] == s[i + 1];
    }
  }

  /** Record `x` as seen, at the end, unless it was seen already. */
  function AddKey<T(==)>(seen: seq<T>, x: T): seq<T> {
    if x in seen then seen else seen + [x]
  }

  /** The keys of `xs` added to `seen` one by one: a JavaScript `Map`'s key order. */
  function Extend<T(==)>(seen: seq<T>, xs: seq<T>): seq<T>
    decreases |xs|
  {
    if xs == [] then seen else AddKey(Extend(seen, xs[..|xs| - 1]), xs[|xs| - 1])
  }

  /** Keys recorded this way are never repeated. */
  lemma {:induction false} ExtendDistinct<T(!new)>(seen: seq<T>, xs: seq<T>)
    requires Distinct(seen)
    ensures Distinct(Extend(seen, xs))
    decreases |xs|
  {
    if xs != [] {
      ExtendDistinct(seen, xs[..|xs| - 1]);
    }
  }

  /** The recorded keys are exactly the old ones and the new ones, and the old ones keep their places. */
  lemma {:induction false} ExtendMembers<T(!new)>(seen: seq<T>, xs: seq<T>)
    ensures forall x :: x in Extend(seen, xs) <==> x in seen || x in xs
    ensures |seen| <= |Extend(seen, xs)| && Extend(seen, xs)[..|seen|] == seen
    decreases |xs|
  {
    if xs != [] {
      var init := xs[..|xs| - 1];
      ExtendMembers(seen, init);
      assert xs == init + [xs[|xs| - 1]];
      assert forall x :: x in xs <==> x in init || x == xs[|xs| - 1];
    }
  }

  lemma ExtendSnoc<T(!new)>(seen: seq<T>, xs: seq<T>, x: T)
    ensures Extend(seen, xs + [x]) == AddKey(Extend(seen, xs), x)
  {
    var ys := xs + [x];
    assert ys[..|ys| - 1] == xs;
  }

  lemma {:induction false} ExtendAppend<T(!new)>(seen: seq<T>, a: seq<T>, b: seq<T>)
    ensures Extend(seen, a + b) == Extend(Extend(seen, a), b)
    decreases |b|
  {
    if b == [] {
      assert a + b == a;
    } else {
      var b', x := b[..|b| - 1], b[|b| - 1];
      assert b == b' + [x];
      assert a + b == (a + b') + [x];
      ExtendSnoc(seen, a + b', x);
      ExtendSnoc(Extend(seen, a), b', x);
      ExtendAppend(seen, a, b');
    }
  }
}
