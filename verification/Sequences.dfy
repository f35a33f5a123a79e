/** Filtering and merging of sequences, shared by the closest-pair and the sorting model. */
module Sequences {
  ghost predicate Sorted<T(!new)>(s: seq<T>, leq: (T, T) -> bool) {
    forall i, j :: 0 <= i < j < |s| ==> leq(s[i], s[j])
  }

  ghost predicate NoRepeats<T(!new)>(s: seq<T>) {
    forall i, j :: 0 <= i < j < |s| ==> s[i] != s[j]
  }

  ghost predicate Transitive<T(!new)>(leq: (T, T) -> bool) {
    forall a, b, c :: leq(a, b) && leq(b, c) ==> leq(a, c)
  }

  /** The elements of `s` that satisfy `keep`, in their order. */
  ghost function Filter<T(!new)>(s: seq<T>, keep: T -> bool): seq<T> {
    if s == [] then []
    else Filter(s[..|s| - 1], keep) + if keep(s[|s| - 1]) then [s[|s| - 1]] else []
  }

  lemma FilterSnoc<T(!new)>(s: seq<T>, e: T, keep: T -> bool)
    ensures Filter(s + [e], keep) == Filter(s, keep) + if keep(e) then [e] else []
  {
    assert (s + [e])[..|s|] == s;
  }

  lemma {:induction false} FilterMultiset<T(!new)>(s: seq<T>, keep: T -> bool, x: T)
    ensures multiset(Filter(s, keep))[x] == if keep(x) then multiset(s)[x] else 0
    decreases |s|
  {
    if s == [] {
    } else {
      FilterMultiset(s[..|s| - 1], keep, x);
      assert s == s[..|s| - 1] + [s[|s| - 1]];
    }
  }

  lemma {:induction false} FilterSorted<T(!new)>(s: seq<T>, keep: T -> bool, leq: (T, T) -> bool)
    requires Sorted(s, leq)
    ensures Sorted(Filter(s, keep), leq)
    decreases |s|
  {
    if s == [] {
    } else {
      var front := s[..|s| - 1];
      FilterSorted(front, keep, leq);
      forall i | 0 <= i < |Filter(front, keep)| ensures leq(Filter(front, keep)[i], s[|s| - 1]) {
        FilterMember(front, keep, i);
      }
    }
  }

  lemma {:induction false} FilterMember<T(!new)>(s: seq<T>, keep: T -> bool, i: nat)
    requires i < |Filter(s, keep)|
    ensures keep(Filter(s, keep)[i]) && exists k :: 0 <= k < |s| && s[k] == Filter(s, keep)[i]
    decreases |s|
  {
    var front := s[..|s| - 1];
    if i < |Filter(front, keep)| {
      FilterMember(front, keep, i);
      var k :| 0 <= k < |front| && front[k] == Filter(front, keep)[i];
      assert s[k] == Filter(s, keep)[i];
    } else {
      assert s[|s| - 1] == Filter(s, keep)[i];
    }
  }

  lemma {:induction false} FilterLength<T(!new)>(s: seq<T>, keep: T -> bool)
    ensures |Filter(s, keep)| <= |s|
    decreases |s|
  {
    if s == [] {
    } else {
      FilterLength(s[..|s| - 1], keep);
    }
  }

  /** The part of a filtered sequence that comes from the first k elements. */
  lemma {:induction false} FilterPrefix<T(!new)>(s: seq<T>, k: nat, keep: T -> bool)
    requires k <= |s|
    ensures |Filter(s[..k], keep)| <= |Filter(s, keep)|
    ensures Filter(s[..k], keep) == Filter(s, keep)[..|Filter(s[..k], keep)|]
    decreases |s|
  {
    if k < |s| {
      FilterPrefix(s[..|s| - 1], k, keep);
      assert s[..|s| - 1][..k] == s[..k];
    } else {
      assert s[..k] == s;
    }
  }

  /** The next element joins the filtered prefix if it is kept, at the place it has in the end. */
  lemma FilterNext<T(!new)>(s: seq<T>, k: nat, keep: T -> bool)
    requires k < |s|
    ensures Filter(s[..k + 1], keep) == Filter(s[..k], keep) + if keep(s[k]) then [s[k]] else []
    ensures |Filter(s[..k + 1], keep)| <= |Filter(s, keep)|
    ensures keep(s[k]) ==> Filter(s, keep)[|Filter(s[..k], keep)|] == s[k]
  {
    assert s[..k + 1] == s[..k] + [s[k]];
    FilterSnoc(s[..k], s[k], keep);
    FilterPrefix(s, k + 1, keep);
  }

  lemma SameLength<T>(s: seq<T>, t: seq<T>)
    requires multiset(s) == multiset(t)
    ensures |s| == |t|
  {
    assert |multiset(s)| == |s| && |multiset(t)| == |t|;
  }

  lemma {:induction false} CountsOnce<T(!new)>(s: seq<T>, x: T)
    requires NoRepeats(s)
    ensures multiset(s)[x] <= 1
    decreases |s|
  {
    if s == [] {
    } else {
      var front, last := s[..|s| - 1], s[|s| - 1];
      CountsOnce(front, x);
      assert s == front + [last] && last !in front;
    }
  }

  lemma CountsTwice<T(!new)>(s: seq<T>, i: nat, j: nat)
    requires i < j < |s| && s[i] == s[j]
    ensures multiset(s)[s[i]] >= 2
  {
    assert s == s[..j] + [s[j]] + s[j + 1..];
    assert s[..j][i] in s[..j];
  }

  lemma NoRepeatsByCount<T(!new)>(s: seq<T>)
    requires forall x :: multiset(s)[x] <= 1
    ensures NoRepeats(s)
  {
    forall i, j | 0 <= i < j < |s| ensures s[i] != s[j] {
      if s[i] == s[j] {
        CountsTwice(s, i, j);
      }
    }
  }

  lemma NoRepeatsPermuted<T(!new)>(s: seq<T>, t: seq<T>)
    requires NoRepeats(s) && multiset(s) == multiset(t)
    ensures NoRepeats(t)
  {
    forall x: T ensures multiset(t)[x] <= 1 {
      CountsOnce(s, x);
    }
    NoRepeatsByCount(t);
  }

  lemma NoRepeatsFilter<T(!new)>(s: seq<T>, keep: T -> bool)
    requires NoRepeats(s)
    ensures NoRepeats(Filter(s, keep))
  {
    forall x: T ensures multiset(Filter(s, keep))[x] <= 1 {
      CountsOnce(s, x);
      FilterMultiset(s, keep, x);
    }
    NoRepeatsByCount(Filter(s, keep));
  }

  // ----- Merging

  /** The merge of a[i..] and b[j..]; on a tie the second run goes first. */
  ghost function Merged<T(!new)>(a: seq<T>, i: nat, b: seq<T>, j: nat, less: (T, T) -> bool): seq<T>
    requires i <= |a| && j <= |b|
    decreases |a| - i + |b| - j
  {
    if i == |a| then b[j..]
    else if j == |b| then a[i..]
    else if less(a[i], b[j]) then [a[i]] + Merged(a, i + 1, b, j, less)
    else [b[j]] + Merged(a, i, b, j + 1, less)
  }

  lemma NextAndRest<T>(a: seq<T>, i: nat)
    requires i < |a|
    ensures multiset(a[i..]) == multiset{a[i]} + multiset(a[i + 1..])
  {
    assert a[i..] == [a[i]] + a[i + 1..];
  }

  lemma {:induction false} MergedMultiset<T(!new)>(a: seq<T>, i: nat, b: seq<T>, j: nat, less: (T, T) -> bool)
    requires i <= |a| && j <= |b|
    ensures multiset(Merged(a, i, b, j, less)) == multiset(a[i..]) + multiset(b[j..])
    ensures |Merged(a, i, b, j, less)| == |a| - i + |b| - j
    decreases |a| - i + |b| - j
  {
    if i == |a| || j == |b| {
    } else {
      if less(a[i], b[j]) {
        MergedMultiset(a, i + 1, b, j, less);
        NextAndRest(a, i);
      } else {
        MergedMultiset(a, i, b, j + 1, less);
        NextAndRest(b, j);
      }
    }
  }

  ghost predicate Decides<T(!new)>(less: (T, T) -> bool, leq: (T, T) -> bool) {
    forall a, b :: if less(a, b) then leq(a, b) else leq(b, a)
  }

  /** Everything in the merge comes from one of the two rests. */
  lemma {:induction false} FromEither<T(!new)>(a: seq<T>, i: nat, b: seq<T>, j: nat, less: (T, T) -> bool, k: nat)
    requires i <= |a| && j <= |b| && k < |Merged(a, i, b, j, less)|
    ensures var x := Merged(a, i, b, j, less)[k];
      (exists m :: i <= m < |a| && a[m] == x) || (exists m :: j <= m < |b| && b[m] == x)
    decreases |a| - i + |b| - j
  {
    var x := Merged(a, i, b, j, less)[k];
    if i == |a| {
      assert b[j + k] == x;
    } else if j == |b| {
      assert a[i + k] == x;
    } else if k == 0 {
      assert a[i] == x || b[j] == x;
    } else if less(a[i], b[j]) {
      FromEither(a, i + 1, b, j, less, k - 1);
    } else {
      FromEither(a, i, b, j + 1, less, k - 1);
    }
  }

  /** The head of a merge comes before everything that is merged after it. */
  lemma HeadFirst<T(!new)>(x: T, a: seq<T>, i: nat, b: seq<T>, j: nat, less: (T, T) -> bool, leq: (T, T) -> bool)
    requires i <= |a| && j <= |b|
    requires (forall m :: i <= m < |a| ==> leq(x, a[m])) && (forall m :: j <= m < |b| ==> leq(x, b[m]))
    requires Sorted(Merged(a, i, b, j, less), leq)
    ensures Sorted([x] + Merged(a, i, b, j, less), leq)
  {
    var m := Merged(a, i, b, j, less);
    forall k | 0 <= k < |m| ensures leq(x, m[k]) {
      FromEither(a, i, b, j, less, k);
    }
  }

  lemma {:induction false} MergedSorted<T(!new)>(a: seq<T>, i: nat, b: seq<T>, j: nat, less: (T, T) -> bool,
                                          leq: (T, T) -> bool)
    requires i <= |a| && j <= |b|
    requires Sorted(a, leq) && Sorted(b, leq) && Transitive(leq) && Decides(less, leq)
    ensures Sorted(Merged(a, i, b, j, less), leq)
    decreases |a| - i + |b| - j
  {
    if i == |a| || j == |b| {
    } else {
      if less(a[i], b[j]) {
        MergedSorted(a, i + 1, b, j, less, leq);
        HeadBefore(a[i], b, j, leq);
        HeadFirst(a[i], a, i + 1, b, j, less, leq);
      } else {
        MergedSorted(a, i, b, j + 1, less, leq);
        HeadBefore(b[j], a, i, leq);
        HeadFirst(b[j], a, i, b, j + 1, less, leq);
      }
    }
  }

  lemma HeadBefore<T(!new)>(x: T, s: seq<T>, i: nat, leq: (T, T) -> bool)
    requires Sorted(s, leq) && Transitive(leq) && i < |s| && leq(x, s[i])
    ensures forall m :: i <= m < |s| ==> leq(x, s[m])
  {
    forall m | i <= m < |s| ensures leq(x, s[m]) {
      assert i < m ==> leq(s[i], s[m]);
    }
  }

  // ----- Arrays

  /** `z` holds `s` from index `lo` on. */
  ghost predicate Holds<T(!new)>(z: array<T>, lo: int, s: seq<T>)
    reads z
  {
    0 <= lo && lo + |s| <= z.Length && forall k :: 0 <= k < |s| ==> z[lo + k] == s[k]
  }

  /** An element is put at `at`, where `z` holds `s` just before `at` and `t` away from it. */
  method Put<T(!new)>(z: array<T>, ghost lo: int, ghost s: seq<T>, at: int, p: T, ghost other: int, ghost t: seq<T>)
    requires Holds(z, lo, s) && at == lo + |s| < z.Length && Holds(z, other, t) && (at < other || other + |t| <= at)
    modifies z
    ensures Holds(z, lo, s + [p]) && Holds(z, other, t)
    ensures forall i :: 0 <= i < z.Length && i != at ==> z[i] == old(z[i])
  {
    z[at] := p;
  }

  /** The rest of a run is copied behind what y holds already. */
  method CopyRun<T(!new)>(x: array<T>, y: array<T>, from: nat, to: nat, at: nat,
                 ghost lo: nat, ghost out: seq<T>, ghost run: seq<T>)
    returns (k: nat)
    requires x != y && from <= to <= x.Length && at + (to - from) <= y.Length
    requires Holds(x, from, run) && |run| == to - from && at == lo + |out| && Holds(y, lo, out)
    modifies y
    ensures k == at + (to - from) && Holds(y, lo, out + run)
    ensures forall i :: 0 <= i < y.Length && !(at <= i < k) ==> y[i] == old(y[i])
  {
    k := at;
    var i := from;
    ghost var n := 0;
    while i < to
      invariant n <= |run| && i == from + n && k == at + n && Holds(y, lo, out + run[..n])
      invariant forall i :: 0 <= i < y.Length && !(at <= i < k) ==> y[i] == old(y[i])
    {
      assert run[n] == x[i];
      Put(y, lo, out + run[..n], k, x[i], 0, []);
      assert out + run[..n] + [run[n]] == out + run[..n + 1];
      k := k + 1;
      i := i + 1;
      n := n + 1;
    }
    assert run[..n] == run;
  }

  /** When one run is used up, what is left of both is the rest of the merge. */
  lemma MergedRest<T(!new)>(a: seq<T>, i: nat, b: seq<T>, j: nat, less: (T, T) -> bool, out: seq<T>)
    requires i <= |a| && j <= |b| && (i == |a| || j == |b|)
    ensures out + a[i..] + b[j..] == out + Merged(a, i, b, j, less)
  {}

  lemma MergedStep<T(!new)>(a: seq<T>, i: nat, b: seq<T>, j: nat, less: (T, T) -> bool, out: seq<T>)
    requires i < |a| && j < |b|
    ensures less(a[i], b[j]) ==> out + Merged(a, i, b, j, less) == (out + [a[i]]) + Merged(a, i + 1, b, j, less)
    ensures !less(a[i], b[j]) ==> out + Merged(a, i, b, j, less) == (out + [b[j]]) + Merged(a, i, b, j + 1, less)
  {}
}
