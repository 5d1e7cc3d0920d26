/** Generic sequence vocabulary: occurrence counts, filtering, subsequences, modes. */
module Seqs {
  import opened Results

  /** Number of occurrences of `x` in `s`. */
  function Count<T(==)>(s: seq<T>, x: T): (n: nat)
    ensures n <= |s|
    ensures n > 0 <==> x in s
  {
    if |s| == 0 then 0
    else (if s[0] == x then 1 else 0) + Count(s[1..], x)
  }

  /** Position of the first occurrence of `x` in `s`, as Python's `list.index` finds it. */
  function IndexOf<T(==)>(s: seq<T>, x: T): (r: Option<nat>)
    ensures r.None? <==> x !in s
    ensures r.Some? ==> r.value < |s| && s[r.value] == x
    ensures r.Some? ==> forall j :: 0 <= j < r.value ==> s[j] != x
  {
    if |s| == 0 then None
    else if s[0] == x then Some(0)
    else match IndexOf(s[1..], x)
      case None => None
      case Some(i) => Some(i + 1)
  }

  /** The elements of `s` satisfying `p`, in their original order (boolean-mask selection). */
  function Filter<T>(s: seq<T>, p: T -> bool): (r: seq<T>)
    ensures |r| <= |s|
    ensures forall i :: 0 <= i < |r| ==> p(r[i])
  {
    if |s| == 0 then []
    else if p(s[0]) then [s[0]] + Filter(s[1..], p)
    else Filter(s[1..], p)
  }

  /** `a` can be obtained from `b` by deleting elements, without reordering. */
  ghost predicate IsSubsequence<T>(a: seq<T>, b: seq<T>)
    decreases |b|
  {
    |a| == 0 ||
    (|b| > 0 &&
     ((a[0] == b[0] && IsSubsequence(a[1..], b[1..])) || IsSubsequence(a, b[1..])))
  }

  /** Filtering keeps exactly the occurrences of the elements that satisfy the predicate. */
  lemma {:induction false} FilterCount<T>(s: seq<T>, p: T -> bool, x: T)
    ensures Count(Filter(s, p), x) == if p(x) then Count(s, x) else 0
  {
    if |s| > 0 {
      FilterCount(s[1..], p, x);
      if p(s[0]) {
        assert ([s[0]] + Filter(s[1..], p))[1..] == Filter(s[1..], p);
      }
    }
  }

  /** Filtering never reorders: its result is a subsequence of its input. */
  lemma {:induction false} FilterIsSubsequence<T>(s: seq<T>, p: T -> bool)
    ensures IsSubsequence(Filter(s, p), s)
  {
    if |s| > 0 {
      FilterIsSubsequence(s[1..], p);
      var r := Filter(s, p);
      if p(s[0]) {
        assert r[0] == s[0] && r[1..] == Filter(s[1..], p);
      }
    }
  }

  /** Filtering with a predicate that every element satisfies returns the input unchanged. */
  lemma {:induction false} FilterAllKept<T>(s: seq<T>, p: T -> bool)
    requires forall i :: 0 <= i < |s| ==> p(s[i])
    ensures Filter(s, p) == s
  {
    if |s| > 0 {
      FilterAllKept(s[1..], p);
      assert [s[0]] + s[1..] == s;
    }
  }

  /** Filtering twice by the same predicate is filtering once. */
  lemma FilterIdempotent<T>(s: seq<T>, p: T -> bool)
    ensures Filter(Filter(s, p), p) == Filter(s, p)
  {
    FilterAllKept(Filter(s, p), p);
  }

  /** Two successive filters equal one filter by the conjunction of their predicates. */
  lemma {:induction false} FilterFilter<T>(s: seq<T>, p: T -> bool, q: T -> bool, both: T -> bool)
    requires forall x :: both(x) == (p(x) && q(x))
    ensures Filter(Filter(s, p), q) == Filter(s, both)
  {
    if |s| > 0 {
      FilterFilter(s[1..], p, q, both);
      if p(s[0]) {
        assert ([s[0]] + Filter(s[1..], p))[0] == s[0];
        assert ([s[0]] + Filter(s[1..], p))[1..] == Filter(s[1..], p);
      }
    }
  }

  /** Filtering depends only on which elements the predicate accepts. */
  lemma {:induction false} FilterSamePredicate<T>(s: seq<T>, p: T -> bool, q: T -> bool)
    requires forall x :: p(x) == q(x)
    ensures Filter(s, p) == Filter(s, q)
  {
    if |s| > 0 {
      FilterSamePredicate(s[1..], p, q);
    }
  }

  /** The concatenation of a sequence of sequences. */
  function Flatten<T>(ss: seq<seq<T>>): (r: seq<T>)
  {
    if |ss| == 0 then [] else ss[0] + Flatten(ss[1..])
  }

  /** Flattening distributes over putting one sequence in front. */
  lemma FlattenCons<T>(w: seq<T>, ps: seq<seq<T>>)
    ensures Flatten([w] + ps) == w + Flatten(ps)
  {
    assert ([w] + ps)[1..] == ps;
  }

  /** Adjacent slices join into one. */
  lemma SliceConcat<T>(s: seq<T>, a: nat, b: nat, c: nat)
    requires a <= b <= c <= |s|
    ensures s[a..b] + s[b..c] == s[a..c]
  {
  }

  /** `m` occurs in `s` and no value occurs strictly more often. */
  ghost predicate IsMode<T>(s: seq<T>, m: T)
  {
    m in s && forall i :: 0 <= i < |s| ==> Count(s, s[i]) <= Count(s, m)
  }

  /** Among the candidates, the first one with the largest count in `s`. */
  function MostFrequentAmong<T(==)>(s: seq<T>, candidates: seq<T>): (r: T)
    requires |candidates| > 0
    ensures r in candidates
    ensures forall c :: c in candidates ==> Count(s, c) <= Count(s, r)
  {
    if |candidates| == 1 then candidates[0]
    else
      var best := MostFrequentAmong(s, candidates[1..]);
      if Count(s, candidates[0]) >= Count(s, best) then candidates[0] else best
  }

  /** A most frequent value of `s`, absent when `s` is empty (pandas `Series.mode()[0]`). */
  function Mode<T(==)>(s: seq<T>): (r: Option<T>)
    ensures r.None? <==> |s| == 0
    ensures r.Some? ==> IsMode(s, r.value)
  {
    if |s| == 0 then None else Some(MostFrequentAmong(s, s))
  }

  /** A value that occurs strictly more often than every other value is the mode. */
  lemma ModeOfStrictMaximum<T>(s: seq<T>, m: T)
    requires m in s
    requires forall i :: 0 <= i < |s| && s[i] != m ==> Count(s, s[i]) < Count(s, m)
    ensures Mode(s) == Some(m)
  {
  }

  /** The occurrence count of every distinct value of `s` (pandas `value_counts`). */
  function ValueCounts<T(==)>(s: seq<T>): (m: map<T, nat>)
    ensures m.Keys == set i | 0 <= i < |s| :: s[i]
    ensures forall x :: x in m ==> m[x] == Count(s, x)
  {
    if |s| == 0 then map[]
    else
      var rest := ValueCounts(s[1..]);
      ValuesOfCons(s);
      rest[s[0] := (if s[0] in rest then rest[s[0]] else 0) + 1]
  }

  /** The values at the positions of a sequence are its elements. */
  lemma ValuesAreElements<T>(s: seq<T>)
    ensures (set i | 0 <= i < |s| :: s[i]) == set x | x in s
  {
    var byIndex := set i | 0 <= i < |s| :: s[i];
    forall x | x in s
      ensures x in byIndex
    {
      var i :| 0 <= i < |s| && s[i] == x;
    }
  }

  /** The values of a non-empty sequence are its head and the values of its tail. */
  lemma ValuesOfCons<T>(s: seq<T>)
    requires |s| > 0
    ensures (set i | 0 <= i < |s| :: s[i]) == {s[0]} + (set i | 0 <= i < |s[1..]| :: s[1..][i])
  {
    var tail := s[1..];
    var whole := set i | 0 <= i < |s| :: s[i];
    var rest := set i | 0 <= i < |tail| :: tail[i];
    forall x | x in whole
      ensures x in {s[0]} + rest
    {
      var i :| 0 <= i < |s| && s[i] == x;
      if i > 0 {
        assert tail[i - 1] == x;
      }
    }
    forall x | x in rest
      ensures x in whole
    {
      var i :| 0 <= i < |tail| && tail[i] == x;
      assert s[i + 1] == x;
    }
  }

  /** Least element of a non-empty sequence. */
  function Min(s: seq<int>): (r: int)
    requires |s| > 0
    ensures r in s
    ensures forall i :: 0 <= i < |s| ==> r <= s[i]
  {
    if |s| == 1 then s[0]
    else
      var m := Min(s[1..]);
      if s[0] <= m then s[0] else m
  }

  /** Greatest element of a non-empty sequence. */
  function Max(s: seq<int>): (r: int)
    requires |s| > 0
    ensures r in s
    ensures forall i :: 0 <= i < |s| ==> s[i] <= r
  {
    if |s| == 1 then s[0]
    else
      var m := Max(s[1..]);
      if s[0] >= m then s[0] else m
  }
}
