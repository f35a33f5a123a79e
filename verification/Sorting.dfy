/** Least-significant-digit radix sort, merge sort and insertion sort on words in their unsigned order. */
module Sorting {
  import opened Sequences
  import opened Words

  ghost function Digit(bit: nat, d: int): Word -> bool {
    (w: Word) => FourBit(w, bit) == d
  }

  ghost function LowOrder(bit: nat): (Word, Word) -> bool {
    (a: Word, b: Word) => LowLeq(a, b, bit)
  }

  ghost const UNSIGNED_ORDER := (a: Word, b: Word) => Unsigned(a) <= Unsigned(b)
  ghost const UNSIGNED_LESS := (a: Word, b: Word) => Unsigned(a) < Unsigned(b)

  /** The first n parts, one behind the other. */
  ghost function Joined<T>(part: nat -> seq<T>, n: nat): seq<T> {
    if n == 0 then [] else Joined(part, n - 1) + part(n - 1)
  }

  ghost function Bucket(s: seq<Word>, bit: nat): nat -> seq<Word> {
    (d: nat) => Filter<Word>(s, Digit(bit, d))
  }

  /** The words with a digit below n, by that digit and otherwise in their old order. */
  ghost function Buckets(s: seq<Word>, bit: nat, n: nat): seq<Word> {
    Joined(Bucket(s, bit), n)
  }

  /** A stable pass by one digit. */
  ghost function Pass(s: seq<Word>, bit: nat): seq<Word> {
    Buckets(s, bit, 16)
  }

  lemma {:induction false} BucketMember(s: seq<Word>, bit: nat, n: nat, i: nat)
    requires i < |Buckets(s, bit, n)|
    ensures FourBit(Buckets(s, bit, n)[i], bit) < n
    decreases n
  {
    var front, last := Buckets(s, bit, n - 1), Filter(s, Digit(bit, n - 1));
    if i < |front| {
      BucketMember(s, bit, n - 1, i);
    } else {
      FilterMember(s, Digit(bit, n - 1), i - |front|);
    }
  }

  /** An element that occurs in part e only. */
  lemma {:induction false} JoinedCount<T>(part: nat -> seq<T>, n: nat, x: T, e: nat, count: nat)
    requires forall d :: multiset(part(d))[x] == if d == e then count else 0
    ensures multiset(Joined(part, n))[x] == if e < n then count else 0
    decreases n
  {
    if n == 0 {
    } else {
      JoinedCount(part, n - 1, x, e, count);
    }
  }

  lemma BucketCount(s: seq<Word>, bit: nat, n: nat, x: Word)
    ensures multiset(Buckets(s, bit, n))[x] == if FourBit(x, bit) < n then multiset(s)[x] else 0
  {
    forall d: nat ensures multiset(Bucket(s, bit)(d))[x] == if d == FourBit(x, bit) then multiset(s)[x] else 0 {
      FilterMultiset<Word>(s, Digit(bit, d), x);
    }
    JoinedCount(Bucket(s, bit), n, x, FourBit(x, bit), multiset(s)[x]);
  }

  lemma BucketSorted(s: seq<Word>, bit: nat, d: nat)
    requires Sorted(s, LowOrder(bit))
    ensures Sorted(Filter(s, Digit(bit, d)), LowOrder(bit + 4))
  {
    var f := Filter(s, Digit(bit, d));
    FilterSorted(s, Digit(bit, d), LowOrder(bit));
    forall i, j | 0 <= i < j < |f| ensures LowOrder(bit + 4)(f[i], f[j]) {
      FilterMember(s, Digit(bit, d), i);
      FilterMember(s, Digit(bit, d), j);
      assert LowOrder(bit)(f[i], f[j]);
    }
  }

  lemma BucketBefore(s: seq<Word>, bit: nat, d: nat, i: nat, j: nat)
    requires i < |Buckets(s, bit, d)| && j < |Filter(s, Digit(bit, d))|
    ensures LowOrder(bit + 4)(Buckets(s, bit, d)[i], Filter(s, Digit(bit, d))[j])
  {
    BucketMember(s, bit, d, i);
    FilterMember(s, Digit(bit, d), j);
  }

  lemma SortedJoin(a: seq<Word>, b: seq<Word>, leq: (Word, Word) -> bool)
    requires Sorted(a, leq) && Sorted(b, leq) && forall i, j :: 0 <= i < |a| && 0 <= j < |b| ==> leq(a[i], b[j])
    ensures Sorted(a + b, leq)
  {}

  lemma {:induction false} BucketsSorted(s: seq<Word>, bit: nat, n: nat)
    requires Sorted(s, LowOrder(bit))
    ensures Sorted(Buckets(s, bit, n), LowOrder(bit + 4))
    decreases n
  {
    if n == 0 {
    } else {
      var front, last := Buckets(s, bit, n - 1), Filter(s, Digit(bit, n - 1));
      BucketsSorted(s, bit, n - 1);
      BucketSorted(s, bit, n - 1);
      forall i, j | 0 <= i < |front| && 0 <= j < |last| ensures LowOrder(bit + 4)(front[i], last[j]) {
        BucketBefore(s, bit, n - 1, i, j);
      }
      SortedJoin(front, last, LowOrder(bit + 4));
    }
  }

  /** A stable pass by the next digit keeps the elements and orders them by one digit more. */
  lemma PassSorts(s: seq<Word>, bit: nat)
    requires Sorted(s, LowOrder(bit))
    ensures Sorted(Pass(s, bit), LowOrder(bit + 4)) && multiset(Pass(s, bit)) == multiset(s) && |Pass(s, bit)| == |s|
  {
    BucketsSorted(s, bit, 16);
    forall x: Word ensures multiset(Pass(s, bit))[x] == multiset(s)[x] {
      BucketCount(s, bit, 16, x);
    }
    SameLength(Pass(s, bit), s);
  }

  // ----- The counting sort by one digit

  ghost function Start(s: seq<Word>, bit: nat, d: nat): nat {
    |Buckets(s, bit, d)|
  }

  ghost function Count(s: seq<Word>, bit: nat, d: int): nat {
    |Filter(s, Digit(bit, d))|
  }

  lemma {:induction false} StartMonotone(s: seq<Word>, bit: nat, d: nat, e: nat)
    requires d <= e
    ensures Start(s, bit, d) <= Start(s, bit, e)
    ensures d < e ==> Start(s, bit, d) + Count(s, bit, d) <= Start(s, bit, e)
    decreases e
  {
    if d == e {
    } else {
      StartMonotone(s, bit, d, e - 1);
    }
  }

  lemma StartNext(s: seq<Word>, bit: nat, d: nat)
    ensures Start(s, bit, 0) == 0 && Start(s, bit, d + 1) == Start(s, bit, d) + Count(s, bit, d)
  {}

  /** How often every digit occurs. */
  method CountDigits(src: array<Word>, c: array<int>, bit: nat, ghost S: seq<Word>)
    requires S == src[..] && c.Length == 16 && forall d :: 0 <= d < 16 ==> c[d] == 0
    modifies c
    ensures forall d :: 0 <= d < 16 ==> c[d] == Count(S, bit, d)
  {
    var i := 0;
    while i < src.Length
      invariant 0 <= i <= |S| && S == src[..]
      invariant forall d :: 0 <= d < 16 ==> c[d] == Count(S[..i], bit, d)
    {
      assert src[i] == S[i];
      forall d | 0 <= d < 16
        ensures Count(S[..i + 1], bit, d) == Count(S[..i], bit, d) + if FourBit(S[i], bit) == d then 1 else 0
      {
        CountNext(S, bit, i, d);
      }
      c[FourBit(src[i], bit)] := c[FourBit(src[i], bit)] + 1;
      i := i + 1;
    }
    assert S[..i] == S;
  }

  /** Counts are added up from the left, so that every entry becomes the end of its digit's bucket. */
  method AddUp(c: array<int>, bit: nat, ghost S: seq<Word>)
    requires c.Length == 16 && forall d :: 0 <= d < 16 ==> c[d] == Count(S, bit, d)
    modifies c
    ensures forall d :: 0 <= d < 16 ==> c[d] == Start(S, bit, d + 1)
  {
    var i := 1;
    StartNext(S, bit, 0);
    while i < c.Length
      invariant 1 <= i <= 16
      invariant forall d :: 0 <= d < i ==> c[d] == Start(S, bit, d + 1)
      invariant forall d :: i <= d < 16 ==> c[d] == Count(S, bit, d)
    {
      StartNext(S, bit, i);
      c[i] := c[i] + c[i - 1];
      i := i + 1;
    }
  }

  /** The end of bucket d has been filled, from the m-th word of the bucket on. */
  ghost predicate Filled(dest: array<Word>, S: seq<Word>, bit: nat, d: nat, m: nat)
    reads dest
  {
    var F := Filter(S, Digit(bit, d));
    && Start(S, bit, d) + |F| <= dest.Length
    && forall k :: m <= k < |F| ==> dest[Start(S, bit, d) + k] == F[k]
  }

  /** The buckets lack only the words of the prefix `rest`. */
  ghost predicate Placed(dest: array<Word>, S: seq<Word>, bit: nat, rest: seq<Word>)
    reads dest
  {
    forall d :: 0 <= d < 16 ==> Filled(dest, S, bit, d, Count(rest, bit, d))
  }

  lemma {:induction false} AllFilled(dest: array<Word>, S: seq<Word>, bit: nat, n: nat)
    requires forall d: nat :: d < n ==> Filled(dest, S, bit, d, 0)
    ensures Start(S, bit, n) <= dest.Length && dest[..Start(S, bit, n)] == Buckets(S, bit, n)
  {
    if n == 0 {
    } else {
      AllFilled(dest, S, bit, n - 1);
      assert Filled(dest, S, bit, n - 1, 0);
    }
  }

  lemma CountNext(S: seq<Word>, bit: nat, i: nat, d: int)
    requires i < |S|
    ensures Count(S[..i + 1], bit, d) == Count(S[..i], bit, d) + (if FourBit(S[i], bit) == d then 1 else 0)
    ensures Count(S[..i + 1], bit, d) <= Count(S, bit, d)
    ensures FourBit(S[i], bit) == d ==> Filter(S, Digit(bit, d))[Count(S[..i], bit, d)] == S[i]
  {
    FilterNext(S, i, Digit(bit, d));
  }

  /** The word takes the last free place of its bucket, and no other bucket is touched. */
  method PlaceWord(dest: array<Word>, w: Word, at: int, bit: nat, ghost S: seq<Word>, ghost d0: nat,
                   ghost rest: seq<Word>, ghost rest': seq<Word>)
    requires d0 < 16 && Start(S, bit, d0) + Count(S, bit, d0) <= |S| <= dest.Length && Placed(dest, S, bit, rest)
    requires Count(rest', bit, d0) < Count(S, bit, d0) && at == Start(S, bit, d0) + Count(rest', bit, d0)
    requires Filter(S, Digit(bit, d0))[Count(rest', bit, d0)] == w
    requires forall d :: 0 <= d < 16 ==> Count(rest, bit, d) == Count(rest', bit, d) + if d == d0 then 1 else 0
    modifies dest
    ensures Placed(dest, S, bit, rest')
    ensures forall k :: |S| <= k < dest.Length ==> dest[k] == old(dest[k])
  {
    dest[at] := w;
    forall d | 0 <= d < 16 ensures Filled(dest, S, bit, d, Count(rest', bit, d)) {
      assert old(Filled(dest, S, bit, d, Count(rest, bit, d)));
      if d != d0 {
        BucketsApart(S, bit, d, d0);
      }
    }
  }

  lemma BucketsApart(S: seq<Word>, bit: nat, d: nat, e: nat)
    requires d != e
    ensures Start(S, bit, d) + Count(S, bit, d) <= Start(S, bit, e)
      || Start(S, bit, e) + Count(S, bit, e) <= Start(S, bit, d)
  {
    if d < e {
      StartMonotone(S, bit, d, e);
    } else {
      StartMonotone(S, bit, e, d);
    }
  }

  lemma WholePass(S: seq<Word>, bit: nat)
    ensures Start(S, bit, 16) == |S|
  {
    forall x: Word ensures multiset(Pass(S, bit))[x] == multiset(S)[x] {
      BucketCount(S, bit, 16, x);
    }
    SameLength(Pass(S, bit), S);
  }

  /** The counters point just behind the free places of the buckets, which the words of `rest` are to fill. */
  ghost predicate Pointing(c: array<int>, S: seq<Word>, bit: nat, rest: seq<Word>)
    reads c
  {
    c.Length == 16 && forall d :: 0 <= d < 16 ==> c[d] == Start(S, bit, d) + Count(rest, bit, d)
  }

  /** One round of the last loop of randixSortHelp. */
  method PlaceNext(src: array<Word>, dest: array<Word>, c: array<int>, bit: nat, i: nat, ghost S: seq<Word>)
    requires src != dest && S == src[..] && i < |S| <= dest.Length && |Pass(S, bit)| == |S|
    requires Pointing(c, S, bit, S[..i + 1]) && Placed(dest, S, bit, S[..i + 1])
    modifies dest, c
    ensures Pointing(c, S, bit, S[..i]) && Placed(dest, S, bit, S[..i])
    ensures forall k :: |S| <= k < dest.Length ==> dest[k] == old(dest[k])
  {
    assert src[i] == S[i];
    forall d | 0 <= d < 16
      ensures Count(S[..i + 1], bit, d) == Count(S[..i], bit, d) + if FourBit(S[i], bit) == d then 1 else 0
    {
      CountNext(S, bit, i, d);
    }
    CountNext(S, bit, i, FourBit(S[i], bit));
    StartMonotone(S, bit, FourBit(S[i], bit), 16);
    PlaceWord(dest, src[i], c[FourBit(src[i], bit)] - 1, bit, S, FourBit(S[i], bit), S[..i + 1], S[..i]);
    c[FourBit(src[i], bit)] := c[FourBit(src[i], bit)] - 1;
  }

  /** The last loop of randixSortHelp, from the end of the source. */
  method PlaceAll(src: array<Word>, dest: array<Word>, c: array<int>, bit: nat, ghost S: seq<Word>)
    requires src != dest && S == src[..] && |S| <= dest.Length && c.Length == 16
    requires forall d :: 0 <= d < 16 ==> c[d] == Start(S, bit, d + 1)
    modifies dest, c
    ensures dest[..|S|] == Pass(S, bit) && forall k :: |S| <= k < dest.Length ==> dest[k] == old(dest[k])
  {
    WholePass(S, bit);
    forall d | 0 <= d < 16
      ensures c[d] == Start(S, bit, d) + Count(S, bit, d) && Filled(dest, S, bit, d, Count(S, bit, d))
    {
      StartNext(S, bit, d);
      StartMonotone(S, bit, d, 16);
    }
    var i := src.Length - 1;
    assert S[..i + 1] == S;
    while i >= 0
      invariant -1 <= i < |S| && S == src[..]
      invariant Pointing(c, S, bit, S[..i + 1]) && Placed(dest, S, bit, S[..i + 1])
      invariant forall k :: |S| <= k < dest.Length ==> dest[k] == old(dest[k])
    {
      PlaceNext(src, dest, c, bit, i, S);
      i := i - 1;
    }
    assert S[..0] == [];
    AllFilled(dest, S, bit, 16);
  }

  lemma FrontReplaced(before: seq<Word>, after: seq<Word>, front: seq<Word>)
    requires |before| == |after| && |front| <= |after| && after[..|front|] == front
    requires forall k :: |front| <= k < |after| ==> after[k] == before[k]
    ensures after == front + before[|front|..]
  {}

  /** randixSortHelp: a stable pass by four bits, from the source into the destination. */
  method RadixSortHelp(src: array<Word>, dest: array<Word>, bit: nat)
    requires src != dest
    modifies dest
    ensures if src.Length > dest.Length || bit >= 32 then dest[..] == old(dest[..])
            else dest[..] == Pass(src[..], bit) + old(dest[..])[src.Length..]
  {
    if src.Length > dest.Length || bit >= 32 {
      return;
    }
    ghost var S, before := src[..], dest[..];
    var c := new int[16](_ => 0);
    CountDigits(src, c, bit, S);
    AddUp(c, bit, S);
    PlaceAll(src, dest, c, bit, S);
    WholePass(S, bit);
    FrontReplaced(before, dest[..], Pass(S, bit));
  }

  // ----- What all the sorts promise

  /** `t` holds the words of `s` in their unsigned order. */
  ghost predicate Sorts(t: seq<Word>, s: seq<Word>) {
    multiset(t) == multiset(s) && Sorted(t, UNSIGNED_ORDER)
  }

  /** There is only one way to sort, so radix sort, merge sort and insertion sort leave the same array. */
  lemma SortsUnique(t: seq<Word>, t': seq<Word>, s: seq<Word>)
    requires Sorts(t, s) && Sorts(t', s)
    ensures t == t'
  {
    SortedUnique(t, t');
  }

  lemma {:induction false} SortedUnique(t: seq<Word>, t': seq<Word>)
    requires Sorted(t, UNSIGNED_ORDER) && Sorted(t', UNSIGNED_ORDER) && multiset(t) == multiset(t')
    ensures t == t'
    decreases |t|
  {
    SameLength(t, t');
    if t == [] {
    } else {
      SameLast(t, t');
      Front(t);
      Front(t');
      SortedUnique(t[..|t| - 1], t'[..|t| - 1]);
    }
  }

  lemma SameLast(t: seq<Word>, t': seq<Word>)
    requires Sorted(t, UNSIGNED_ORDER) && Sorted(t', UNSIGNED_ORDER) && multiset(t) == multiset(t') && t != []
      && t' != []
    ensures t[|t| - 1] == t'[|t'| - 1]
  {
    var a, b := t[|t| - 1], t'[|t'| - 1];
    assert a in multiset(t) && b in multiset(t');
    LastIsGreatest(t, b);
    LastIsGreatest(t', a);
    assert UNSIGNED_ORDER(a, b) && UNSIGNED_ORDER(b, a);
  }

  lemma Front(t: seq<Word>)
    requires t != [] && Sorted(t, UNSIGNED_ORDER)
    ensures Sorted(t[..|t| - 1], UNSIGNED_ORDER)
    ensures multiset(t[..|t| - 1]) == multiset(t) - multiset{t[|t| - 1]} && t[|t| - 1] in multiset(t)
    ensures t == t[..|t| - 1] + [t[|t| - 1]]
  {
    assert t == t[..|t| - 1] + [t[|t| - 1]];
  }

  lemma LastIsGreatest(t: seq<Word>, x: Word)
    requires Sorted(t, UNSIGNED_ORDER) && x in multiset(t)
    ensures t != [] && UNSIGNED_ORDER(x, t[|t| - 1])
  {
    var i :| 0 <= i < |t| && t[i] == x;
    assert i < |t| - 1 ==> UNSIGNED_ORDER(t[i], t[|t| - 1]);
  }

  /** Ordered by all eight digits. */
  lemma AllDigitsSort(t: seq<Word>)
    requires Sorted(t, LowOrder(32))
    ensures Sorted(t, UNSIGNED_ORDER)
  {
    forall i, j | 0 <= i < j < |t| ensures UNSIGNED_ORDER(t[i], t[j]) {
      assert LowOrder(32)(t[i], t[j]);
      AllDigits(t[i], t[j]);
    }
  }

  // ----- Radix sort

  /** System.arraycopy of a whole array. */
  method ArrayCopy(src: array<Word>, dest: array<Word>)
    requires src != dest && src.Length == dest.Length
    modifies dest
    ensures dest[..] == src[..]
  {
    forall k | 0 <= k < src.Length { dest[k] := src[k]; }
  }

  method OnePass(dest: array<Word>, a: array<Word>, i: nat, ghost T: seq<Word>) returns (ghost T': seq<Word>)
    requires dest != a && dest.Length == a.Length && T == dest[..] && i < 32 && Sorted(T, LowOrder(i))
    modifies a
    ensures T' == a[..] && |T'| == |T| && multiset(T') == multiset(T) && Sorted(T', LowOrder(i + 4))
  {
    PassSorts(T, i);
    RadixSortHelp(dest, a, i);
    T' := Pass(T, i);
    assert a[..] == T';
  }

  /** radixSort: the two buffers change roles after each pass, and after eight the caller's array is the free one. */
  method RadixSort(array0: array?<Word>)
    modifies array0
    ensures array0 != null ==> Sorts(array0[..], old(array0[..]))
  {
    if array0 == null {
      return;
    }
    var a: array<Word>, re: array<Word> := array0, array0;
    var dest := new Word[a.Length];
    ArrayCopy(a, dest);
    ghost var S, D, T := a[..], dest, a[..];
    var i := 0;
    while i < 32
      invariant 0 <= i <= 32 && i % 4 == 0 &&
        (if i % 8 == 0 then a == array0 && dest == D else a == D && dest == array0)
      invariant D.Length == array0.Length && fresh(D) && (i > 0 ==> re == dest)
      invariant T == dest[..] && |T| == |S| && multiset(T) == multiset(S) && Sorted(T, LowOrder(i))
    {
      T := OnePass(dest, a, i, T);
      re := a;
      a, dest := dest, a;
      i := i + 4;
    }
    ArrayCopy(re, a);
    AllDigitsSort(T);
  }

  // ----- Merge sort

  /** The first loop of mergeSortHelp after the recursive calls. */
  method MergeHeads(src: array<Word>, dest: array<Word>, off: nat, midlen: nat, len: nat, ghost A: seq<Word>,
                    ghost B: seq<Word>)
    returns (left: nat, right: nat, k: nat, ghost out: seq<Word>)
    requires src != dest && midlen <= len && off + len <= dest.Length
    requires Holds(src, off, A) && |A| == midlen && Holds(src, off + midlen, B) && |B| == len - midlen
    modifies dest
    ensures off <= left <= off + midlen <= right <= off + len && (left == off + midlen || right == off + len)
    ensures k == off + |out| == left + right - off - midlen && Holds(dest, off, out)
    ensures out + Merged(A, left - off, B, right - off - midlen, UNSIGNED_LESS) == Merged(A, 0, B, 0, UNSIGNED_LESS)
    ensures forall k :: 0 <= k < dest.Length && !(off <= k < off + len) ==> dest[k] == old(dest[k])
  {
    left, right, k := off, off + midlen, off;
    out := [];
    ghost var p, q := 0, 0;
    while true
      invariant p <= |A| && q <= |B| && left == off + p && right == off + midlen + q && |out| == p + q
      invariant k == off + |out| && Holds(dest, off, out)
      invariant out + Merged(A, p, B, q, UNSIGNED_LESS) == Merged(A, 0, B, 0, UNSIGNED_LESS)
      invariant forall k :: 0 <= k < dest.Length && !(off <= k < off + len) ==> dest[k] == old(dest[k])
      decreases |A| + |B| - |out|
    {
      if left >= off + midlen || right >= off + len {
        break;
      }
      assert A[p] == src[left] && B[q] == src[right];
      MergedStep(A, p, B, q, UNSIGNED_LESS, out);
      var less := ULess(src[left], src[right]);
      assert less <==> UNSIGNED_LESS(A[p], B[q]);
      if less {
        Put(dest, off, out, k, src[left], 0, []);
        out := out + [src[left]];
        left := left + 1;
        p := p + 1;
      } else {
        Put(dest, off, out, k, src[right], 0, []);
        out := out + [src[right]];
        right := right + 1;
        q := q + 1;
      }
      k := k + 1;
    }
    assert left - off == p && right - off - midlen == q;
  }

  /** The three loops of mergeSortHelp after the recursive calls. */
  method MergeHalves(src: array<Word>, dest: array<Word>, off: nat, midlen: nat, len: nat, ghost A: seq<Word>,
                     ghost B: seq<Word>)
    requires src != dest && midlen <= len && off + len <= dest.Length
    requires Holds(src, off, A) && |A| == midlen && Holds(src, off + midlen, B) && |B| == len - midlen
    modifies dest
    ensures Holds(dest, off, Merged(A, 0, B, 0, UNSIGNED_LESS))
    ensures forall k :: 0 <= k < dest.Length && !(off <= k < off + len) ==> dest[k] == old(dest[k])
  {
    var left, right, k;
    ghost var out;
    left, right, k, out := MergeHeads(src, dest, off, midlen, len, A, B);
    ghost var a, b := A[left - off..], B[right - off - midlen..];
    k := CopyRun(src, dest, left, off + midlen, k, off, out, a);
    k := CopyRun(src, dest, right, off + len, k, off, out + a, b);
    assert out + a + b == out + Merged(A, left - off, B, right - off - midlen, UNSIGNED_LESS);
  }

  /** Sorted halves are merged to a sorted whole. */
  lemma MergeSorts(S: seq<Word>, n: nat, A: seq<Word>, B: seq<Word>)
    requires n <= |S| && Sorts(A, S[..n]) && Sorts(B, S[n..])
    ensures Sorts(Merged(A, 0, B, 0, UNSIGNED_LESS), S) && |Merged(A, 0, B, 0, UNSIGNED_LESS)| == |S|
  {
    MergedMultiset(A, 0, B, 0, UNSIGNED_LESS);
    MergedSorted(A, 0, B, 0, UNSIGNED_LESS, UNSIGNED_ORDER);
    assert A[0..] == A && B[0..] == B && S == S[..n] + S[n..];
    SameLength(Merged(A, 0, B, 0, UNSIGNED_LESS), S);
  }

  /** mergeSortHelp: both buffers hold the words S; afterwards dest holds them sorted. */
  method MergeSortHelp(src: array<Word>, dest: array<Word>, off: nat, len: nat, ghost S: seq<Word>)
    returns (ghost T: seq<Word>)
    requires src != dest && src.Length == dest.Length && off + len <= dest.Length
    requires |S| == len && Holds(src, off, S) && Holds(dest, off, S)
    modifies src, dest
    ensures |T| == len && Holds(dest, off, T) && Sorts(T, S)
    ensures forall k :: 0 <= k < dest.Length && !(off <= k < off + len) ==>
      src[k] == old(src[k]) && dest[k] == old(dest[k])
    decreases len
  {
    if len <= 1 {
      return S;
    }
    var midlen := len / 2;
    ghost var A, B;
    ghost var L, R := S[..midlen], S[midlen..];
    assert Holds(src, off, L) && Holds(dest, off, L) && Holds(src, off + midlen, R) && Holds(dest, off + midlen, R);
    A := MergeSortHelp(dest, src, off, midlen, L);
    B := MergeSortHelp(dest, src, off + midlen, len - midlen, R);
    MergeHalves(src, dest, off, midlen, len, A, B);
    MergeSorts(S, midlen, A, B);
    T := Merged(A, 0, B, 0, UNSIGNED_LESS);
  }

  /** mergeSort. */
  method MergeSort(a: array?<Word>)
    modifies a
    ensures a != null ==> Sorts(a[..], old(a[..]))
  {
    if a == null {
      return;
    }
    var dest := new Word[a.Length];
    ArrayCopy(a, dest);
    ghost var T := MergeSortHelp(dest, a, 0, a.Length, a[..]);
    assert a[..] == T;
  }

  // ----- Insertion sort

  /** The range is sorted, if the word at j is left out and belongs before what follows it. */
  ghost predicate SortedBut(s: seq<Word>, lo: int, hi: int, j: int) {
    0 <= lo <= hi <= |s| && forall i, k :: lo <= i < k < hi && k != j ==> UNSIGNED_ORDER(s[i], s[k])
  }

  /** The smaller word moves one place to the front. */
  lemma SwapStep(s: seq<Word>, lo: int, hi: int, j: int)
    requires SortedBut(s, lo, hi, j) && lo < j < hi && Unsigned(s[j]) < Unsigned(s[j - 1])
    ensures var t := s[j := s[j - 1]][j - 1 := s[j]]; SortedBut(t, lo, hi, j - 1) && multiset(t) == multiset(s)
  {
    var t := s[j := s[j - 1]][j - 1 := s[j]];
    forall i, k | lo <= i < k < hi && k != j - 1 ensures UNSIGNED_ORDER(t[i], t[k]) {
      assert k != j && i < j - 1 ==> UNSIGNED_ORDER(s[i], s[k]);
      assert k > j && i == j ==> UNSIGNED_ORDER(s[j - 1], s[k]);
      assert k > j && i == j - 1 ==> UNSIGNED_ORDER(s[j], s[k]);
      assert k == j && i < j - 1 ==> UNSIGNED_ORDER(s[i], s[j - 1]);
    }
  }

  /** The word at j stays where it is. */
  lemma StayStep(s: seq<Word>, lo: int, hi: int, j: int)
    requires SortedBut(s, lo, hi, j) && lo <= j < hi && (j == lo || Unsigned(s[j - 1]) <= Unsigned(s[j]))
    ensures SortedBut(s, lo, hi, lo)
  {
    forall i, k | lo <= i < k < hi && k != lo ensures UNSIGNED_ORDER(s[i], s[k]) {
      assert k == j && i < j - 1 ==> UNSIGNED_ORDER(s[i], s[j - 1]);
      assert k != j ==> UNSIGNED_ORDER(s[i], s[k]);
    }
  }

  /** The inner loop: the word at i finds its place. */
  method Sink(a: array<Word>, off: nat, i: nat, end: nat)
    requires off <= i < end <= a.Length && SortedBut(a[..], off, i, off)
    modifies a
    ensures multiset(a[..]) == multiset(old(a[..])) && SortedBut(a[..], off, i + 1, off)
    ensures forall k :: 0 <= k < a.Length && !(off <= k < end) ==> a[k] == old(a[k])
  {
    ghost var S := a[..];
    var j := i;
    while j > off
      invariant off <= j <= i && S == a[..] && multiset(S) == multiset(old(a[..])) && SortedBut(S, off, i + 1, j)
      invariant forall k :: 0 <= k < a.Length && !(off <= k < end) ==> a[k] == old(a[k])
    {
      var geq := UGreaterEq(a[j], a[j - 1]);
      if geq {
        break;
      }
      SwapStep(S, off, i + 1, j);
      S := S[j := S[j - 1]][j - 1 := S[j]];
      a[j], a[j - 1] := a[j - 1], a[j];
      assert a[..] == S;
      j := j - 1;
    }
    StayStep(S, off, i + 1, j);
  }

  /** insertionSortHelp: the range off..off + len is sorted in place. */
  method InsertionSortHelp(a: array<Word>, off: nat, len: nat)
    requires off + len <= a.Length
    modifies a
    ensures multiset(a[..]) == multiset(old(a[..])) && SortedBut(a[..], off, off + len, off)
    ensures forall k :: 0 <= k < a.Length && !(off <= k < off + len) ==> a[k] == old(a[k])
  {
    var end := len + off;
    var i := off;
    while i < end
      invariant off <= i <= end
      invariant multiset(a[..]) == multiset(old(a[..])) && SortedBut(a[..], off, i, off)
      invariant forall k :: 0 <= k < a.Length && !(off <= k < end) ==> a[k] == old(a[k])
    {
      Sink(a, off, i, end);
      i := i + 1;
    }
  }

  /** insertionSort. */
  method InsertionSort(a: array?<Word>)
    modifies a
    ensures a != null ==> Sorts(a[..], old(a[..]))
  {
    if a == null {
      return;
    }
    InsertionSortHelp(a, 0, a.Length);
  }
}
