/** The longest non-decreasing subsequence by a table of least last elements and a binary search. */
module LongestSubsequence {
  /** Positions of `s` whose elements do not fall. */
  ghost predicate Chain(s: seq<int>, at: seq<int>) {
    && (forall a :: 0 <= a < |at| ==> 0 <= at[a] < |s|)
    && (forall a, b :: 0 <= a < b < |at| ==> at[a] < at[b] && s[at[a]] <= s[at[b]])
  }

  /** `n` is the length of a longest non-decreasing subsequence of `s`. */
  ghost predicate Longest(s: seq<int>, n: int) {
    (exists at :: Chain(s, at) && |at| == n) && (forall at :: Chain(s, at) ==> |at| <= n)
  }

  ghost predicate NonNegative(s: seq<int>) {
    forall i :: 0 < i < |s| ==> s[i] >= 0
  }

  /** Some element is followed by one that is not smaller. */
  ghost predicate Rises(s: seq<int>) {
    exists i, j :: 0 <= i < j < |s| && s[i] <= s[j]
  }

  /** When a call gets through: lastIndex is set by the call only if `s` rises somewhere, and otherwise left over;
      and the array for the answer must have room for it. */
  ghost predicate Accepted(s: seq<int>, lastIndex: int, room: int) {
    && s != [] && NonNegative(s) && (Rises(s) || 0 <= lastIndex < |s|)
    && (forall n :: Longest(s, n) ==> n <= room)
  }

  /** Every position's depth is above the depths of the earlier positions it can follow. */
  ghost predicate Deep(s: seq<int>, depth: seq<int>) {
    && |depth| <= |s| && (forall t :: 0 <= t < |depth| ==> depth[t] >= 1)
    && (forall p, t :: 0 <= p < t < |depth| && s[p] <= s[t] ==> depth[p] < depth[t])
  }

  /** `pre` leads from every position to one that it can follow, one less deep. */
  ghost predicate Leads(s: seq<int>, depth: seq<int>, pre: seq<int>) {
    |depth| <= |s| && |pre| == |s| && forall t :: 0 <= t < |depth| ==>
      if depth[t] == 1 then pre[t] == -1
      else 0 <= pre[t] < t && s[pre[t]] <= s[t] && depth[pre[t]] == depth[t] - 1
  }

  lemma {:induction false} ChainDepth(s: seq<int>, depth: seq<int>, at: seq<int>, k: nat)
    requires Deep(s, depth) && |depth| == |s| && Chain(s, at) && k < |at|
    ensures depth[at[k]] >= k + 1
  {
    if k == 0 {
    } else {
      ChainDepth(s, depth, at, k - 1);
      assert at[k - 1] < at[k] && s[at[k - 1]] <= s[at[k]];
    }
  }

  ghost predicate Greatest(depth: seq<int>, len: int) {
    (forall t :: 0 <= t < |depth| ==> depth[t] <= len) && exists t :: 0 <= t < |depth| && depth[t] == len
  }

  /** No chain is longer than the greatest depth, and a chain of that length is longest. */
  lemma DepthLongest(s: seq<int>, depth: seq<int>, len: int, at: seq<int>)
    requires Deep(s, depth) && |depth| == |s| && Greatest(depth, len)
    requires Chain(s, at) && |at| == len
    ensures Longest(s, len)
  {
    forall other | Chain(s, other) ensures |other| <= len {
      if other != [] {
        ChainDepth(s, depth, other, |other| - 1);
        var last := other[|other| - 1];
        assert depth[last] <= len;
      }
    }
  }

  /** Every position ends a chain as long as its depth is. */
  lemma {:induction false} DepthChain(s: seq<int>, depth: seq<int>, pre: seq<int>, t: nat) returns (at: seq<int>)
    requires Deep(s, depth) && Leads(s, depth, pre) && t < |depth|
    ensures Chain(s, at) && |at| == depth[t] && at[|at| - 1] == t
  {
    if depth[t] == 1 {
      at := [t];
    } else {
      at := DepthChain(s, depth, pre, pre[t]);
      at := at + [t];
    }
  }

  /** The greatest depth is the length of the longest chains, and no other number is. */
  lemma GreatestIsLongest(s: seq<int>, depth: seq<int>, pre: seq<int>, len: int)
    requires Deep(s, depth) && Leads(s, depth, pre) && |depth| == |s| && Greatest(depth, len)
    ensures forall n :: Longest(s, n) <==> n == len
  {
    var t :| 0 <= t < |depth| && depth[t] == len;
    var at := DepthChain(s, depth, pre, t);
    DepthLongest(s, depth, len, at);
  }

  /** Without two elements in order, everything has depth one. */
  lemma RisesByDepth(s: seq<int>, depth: seq<int>, pre: seq<int>, len: int)
    requires Deep(s, depth) && Leads(s, depth, pre) && |depth| == |s|
    requires Greatest(depth, len)
    ensures Rises(s) <==> len >= 2
  {
    var t :| 0 <= t < |s| && depth[t] == len;
    if len >= 2 {
      assert 0 <= pre[t] < t && s[pre[t]] <= s[t];
    }
    if i, j :| 0 <= i < j < |s| && s[i] <= s[j] {
      assert depth[i] < depth[j] <= len;
    }
  }

  /** cindex[k] says where c[k] stands, at the end of a chain of length k. */
  ghost predicate Entry(s: seq<int>, c: seq<int>, cindex: seq<int>, depth: seq<int>, k: int) {
    0 <= k < |c| && k < |cindex| && 0 <= cindex[k] < |depth| <= |s| && s[cindex[k]] == c[k] && depth[cindex[k]] == k
  }

  /** c[depth[t]] is not above the element at t. */
  ghost predicate Covered(s: seq<int>, c: seq<int>, depth: seq<int>, len: int, t: int) {
    0 <= t < |depth| && t < |s| && 1 <= depth[t] <= len < |c| && c[depth[t]] <= s[t]
  }

  /** c[k] is the least last element of a chain of length k seen so far. */
  ghost predicate Table(s: seq<int>, c: seq<int>, cindex: seq<int>, len: int, depth: seq<int>) {
    && 1 <= len <= |depth| <= |s| && |c| == |cindex| == |s| + 1 && c[0] == 0 && cindex[0] == -1
    && (forall k {:trigger Entry(s, c, cindex, depth, k)} :: 1 <= k <= len ==> Entry(s, c, cindex, depth, k))
    && (forall i, k :: 1 <= i < k <= len ==> c[i] <= c[k])
    && (forall t {:trigger Covered(s, c, depth, len, t)} :: 0 <= t < |depth| ==> Covered(s, c, depth, len, t))
  }

  /** What the binary search finds: j is just behind the table's entries up to n. */
  ghost predicate Found(c: seq<int>, len: int, n: int, j: int) {
    1 <= j <= len + 1 <= |c| && (forall k :: 0 <= k < j ==> c[k] <= n) && (forall k :: j <= k <= len ==> n < c[k])
  }

  /** The next element takes place j in the table, and depth j. */
  lemma NextDepth(s: seq<int>, c: seq<int>, cindex: seq<int>, pre: seq<int>, len: int, depth: seq<int>, j: int)
    requires Table(s, c, cindex, len, depth) && Deep(s, depth) && Leads(s, depth, pre) && |depth| < |s|
      && Found(c, len, s[|depth|], j)
    ensures Deep(s, depth + [j]) && Leads(s, depth + [j], pre[|depth| := cindex[j - 1]])
  {
    var i := |depth|;
    forall p | 0 <= p < i && s[p] <= s[i] ensures depth[p] < j {
      assert Covered(s, c, depth, len, p);
    }
    assert j > 1 ==> Entry(s, c, cindex, depth, j - 1);
  }

  lemma NextEntry(s: seq<int>, c: seq<int>, cindex: seq<int>, len: int, depth: seq<int>, j: int)
    requires Table(s, c, cindex, len, depth) && |depth| < |s| && Found(c, len, s[|depth|], j)
    ensures var i := |depth|; Table(s, c[j := s[i]], cindex[j := i], if len < j then j else len, depth + [j])
  {
    var i := |depth|;
    var c', x', depth', len' := c[j := s[i]], cindex[j := i], depth + [j], if len < j then j else len;
    forall t | 0 <= t < i ensures Covered(s, c', depth', len', t) {
      assert Covered(s, c, depth, len, t);
    }
    forall k | 1 <= k <= len' ensures Entry(s, c', x', depth', k) {
      assert k != j ==> Entry(s, c, cindex, depth, k);
    }
    assert Covered(s, c', depth', len', i);
  }

  datatype Outcome = Returned(value: int) | IndexError

  /** The static fields of the class LIS. */
  class LIS {
    var c: array<int>
    var cindex: array<int>
    var pre: array<int>
    var len: int
    var lastIndex: int

    constructor ()
      ensures lastIndex == -1
    {
      c, cindex, pre := new int[0], new int[0], new int[0];
      len, lastIndex := 0, -1;
    }

    /** binarySearch over a[0..len], for an n that is not below the sentinel a[0]: just behind the elements up to n. */
    method BinarySearch(a: array<int>, len: int, n: int) returns (left: int)
      requires 0 <= len < a.Length
      requires n >= 0 ==> a[0] <= n && forall i, k :: 0 <= i < k <= len && a[k] <= n ==> a[i] <= n
      ensures n < 0 ==> left == -1
      ensures n >= 0 ==> Found(a[..], len, n, left)
    {
      if n < 0 {
        return -1;
      }
      left := 0;
      var right := len;
      var mid := (left + right) / 2;
      while left <= right
        invariant 0 <= left <= right + 1 <= len + 1 && mid == (left + right) / 2
        invariant forall k :: 0 <= k < left ==> a[k] <= n
        invariant forall k :: right < k <= len ==> n < a[k]
      {
        if n >= a[mid] {
          left := mid + 1;
        } else if n < a[mid] {
          right := mid - 1;
        }
        mid := (left + right) / 2;
      }
    }

    method Enter(s: array<int>, i: int, j: int)
      requires c.Length == cindex.Length == s.Length + 1 && pre.Length == s.Length && 0 <= i < s.Length
        && 1 <= j < c.Length
      requires c != s && cindex != s && pre != s && c != cindex && c != pre && cindex != pre
      modifies c, cindex, pre
      ensures c[..] == old(c[..])[j := s[i]] && cindex[..] == old(cindex[..])[j := i]
      ensures pre[..] == old(pre[..])[i := old(cindex[j - 1])]
    {
      c[j] := s[i];
      cindex[j] := i;
      pre[i] := cindex[j - 1];
    }

    /** The loop that fills the table; a negative element after the first makes it index the table at -1. */
    method Fill(s: array<int>) returns (ok: bool, ghost depth: seq<int>)
      requires s.Length > 0 && c.Length == cindex.Length == s.Length + 1 && pre.Length == s.Length
      requires c != s && cindex != s && pre != s && c != cindex && c != pre && cindex != pre
      requires len == 1 && c[0] == 0 && cindex[0] == -1 && c[1] == s[0] && cindex[1] == 0 && pre[0] == -1
      modifies this`len, this`lastIndex, c, cindex, pre
      ensures s[..] == old(s[..]) && (ok <==> NonNegative(s[..]))
      ensures ok ==> |depth| == s.Length && Deep(s[..], depth) && Leads(s[..], depth, pre[..])
      ensures ok ==> 1 <= len <= |depth| && Greatest(depth, len) && AtEnd(depth, len, lastIndex, old(lastIndex))
    {
      ghost var S, C, X, P := s[..], c[..], cindex[..], pre[..];
      depth := [1];
      var i := 1;
      while i < s.Length
        invariant 1 <= i == |depth| <= s.Length && S == s[..]
        invariant forall k :: 0 < k < i ==> S[k] >= 0
        invariant C == c[..] && X == cindex[..] && P == pre[..]
        invariant Table(S, C, X, len, depth) && Deep(S, depth) && Leads(S, depth, P)
        invariant AtEnd(depth, len, lastIndex, old(lastIndex))
      {
        if s[i] >= 0 { SearchReady(S, C, X, len, depth, S[i]); }
        var j := BinarySearch(c, len, s[i]);
        if j == -1 {
          assert S[i] < 0;
          return false, depth;
        }
        assert Found(C, len, S[i], j);
        NextDepth(S, C, X, P, len, depth, j);
        NextEntry(S, C, X, len, depth, j);
        Enter(s, i, j);
        C, X, P := C[j := S[i]], X[j := i], P[i := X[j - 1]];
        if len < j {
          len := j;
          lastIndex := i;
        }
        depth := depth + [j];
        i := i + 1;
      }
      ok := true;
      TableGreatest(S, C, X, len, depth);
    }

    /** The loop of getSubsquence: `good` holds of the positions found, the next one, the place behind the next copy and
      * the array, and every round keeps it. */
    method CopyLoop(s: array<int>, lis: array<int>, ghost S: seq<int>, ghost P: seq<int>, ghost good: State -> bool)
      returns (ghost at: seq<int>)
      requires pre != lis && P == pre[..] && S == s[..] && Keeps(s == lis, S, P, good)
      requires len > 0 && good(State([], lastIndex, len, lis[..]))
      modifies lis
      ensures good(State(at, -1, 0, lis[..]))
    {
      var index, pr, more := len, lastIndex, true;
      at := [];
      while more
        invariant P == pre[..] && (s != lis ==> s[..] == S) && 0 <= index && (more <==> index > 0)
        invariant good(State(at, pr, index, lis[..])) && (!more ==> pr == -1)
        decreases index
      {
        ghost var now := lis[..];
        KeepsOnce(s == lis, S, P, good, State(at, pr, index, now));
        index := index - 1;
        lis[index] := s[pr];
        assert lis[..] == now[index := if s == lis then now[pr] else S[pr]];
        at := [pr] + at;
        pr := pre[pr];
        more := pr != -1;
      }
    }

    /** getSubsquence: from a position of the greatest depth `pre` leads through exactly len positions. If lis is the
      * array of the sequence itself, what is written may be read again. */
    method GetSubsequence(s: array<int>, lis: array<int>, ghost depth: seq<int>) returns (ghost at: seq<int>)
      requires pre != lis && 0 <= lastIndex < |depth| == s.Length && lis.Length >= len == depth[lastIndex]
      requires Deep(s[..], depth) && Leads(s[..], depth, pre[..])
      modifies lis
      ensures Chain(old(s[..]), at) && |at| == len && at[len - 1] == lastIndex
      ensures s != lis ==> lis[..] == Picked(old(s[..]), at) + old(lis[len..])
      ensures s == lis ==> lis[..] == Overlaid(old(s[..]), at, 0)
    {
      ghost var same, S, P, L, n, last := s == lis, s[..], pre[..], lis[..], len, lastIndex;
      CopyStart(same, S, L, depth, n, last);
      CopyKeeps(same, S, L, depth, P, n, last);
      at := CopyLoop(s, lis, S, P, Copying(same, S, L, depth, n, last));
      CopyDone(same, S, L, depth, at, -1, n, last, lis[..]);
    }

    /** The first part of getLISLen: fresh tables, and the loop that fills them. */
    method Prepare(s: array<int>) returns (ok: bool, ghost depth: seq<int>)
      modifies this
      ensures ok <==> s[..] != [] && NonNegative(s[..])
      ensures ok ==> fresh(pre) && |depth| == s.Length && Deep(s[..], depth) && Leads(s[..], depth, pre[..])
      ensures ok ==> 1 <= len <= |depth| && Greatest(depth, len) && AtEnd(depth, len, lastIndex, old(lastIndex))
    {
      depth := [];
      c := new int[s.Length + 1];
      cindex := new int[s.Length + 1](_ => -1);
      pre := new int[s.Length](_ => -1);
      c[0] := 0;
      if s.Length == 0 {
        return false, depth;
      }
      c[1] := s[0];
      cindex[1] := 0;
      len := 1;
      ok, depth := Fill(s);
    }

    /** getLISLen: the length of a longest non-decreasing subsequence and, in lis, such a subsequence; it fails on
      * negative elements, if nothing rises and the left over lastIndex does not fit, and if lis is too short. */
    method GetLISLen(s: array?<int>, lis: array<int>) returns (r: Outcome, ghost at: seq<int>)
      modifies this, lis
      ensures s == null ==> r == Returned(-1) && unchanged(this)
      ensures s != null ==> (r.Returned? <==> Accepted(old(s[..]), old(lastIndex), lis.Length))
      ensures s != null && r.Returned? ==> Longest(old(s[..]), r.value) && Chain(old(s[..]), at) && |at| == r.value
      ensures s != null && r.Returned? ==> lastIndex == if r.value >= 2 then at[r.value - 1] else old(lastIndex)
      ensures s != null && r.Returned? && s != lis ==>
        s[..] == old(s[..]) && r.value <= lis.Length && lis[..] == Picked(s[..], at) + old(lis[..])[r.value..]
      ensures s != null && r.Returned? && s == lis ==> lis[..] == Overlaid(old(s[..]), at, 0)
    {
      at := [];
      if s == null {
        return Returned(-1), at;
      }
      ghost var S := s[..];
      ghost var depth;
      var ok;
      ok, depth := Prepare(s);
      if !ok {
        return IndexError, at;
      }
      AcceptedExactly(S, depth, pre[..], len, lastIndex, old(lastIndex), lis.Length);
      if !(0 <= lastIndex < s.Length) || len > lis.Length {
        return IndexError, at;
      }
      at := GetSubsequence(s, lis, depth);
      r := Returned(len);
    }
  }

  /** Whether a call gets through, by what the table loop has found. */
  lemma AcceptedExactly(s: seq<int>, depth: seq<int>, pre: seq<int>, len: int, lastIndex: int, before: int, room: nat)
    requires s != [] && NonNegative(s) && Deep(s, depth) && Leads(s, depth, pre) && |depth| == |s|
    requires Greatest(depth, len) && AtEnd(depth, len, lastIndex, before)
    ensures Accepted(s, before, room) <==> 0 <= lastIndex < |s| && len <= room
    ensures Longest(s, len) && (0 <= lastIndex < |s| ==> len == depth[lastIndex]) && (len == 1 ==> lastIndex == before)
  {
    RisesByDepth(s, depth, pre, len);
    GreatestIsLongest(s, depth, pre, len);
    assert Longest(s, len);
  }

  /** From the end of a chain, `pre` has led through the positions `at` to p, at depth i; p is -1 at the end. */
  ghost predicate Following(s: seq<int>, depth: seq<int>, at: seq<int>, p: int, i: int, len: int, last: int) {
    && |depth| == |s| && Chain(s, at) && 0 <= i == len - |at|
    && (at == [] ==> p == last) && (at != [] ==> at[|at| - 1] == last)
    && (if i > 0 then 0 <= p < |s| && depth[p] == i && Before(s, p, at) else p == -1)
  }

  lemma FollowNext(s: seq<int>, depth: seq<int>, pre: seq<int>, at: seq<int>, p: int, i: int, len: int, last: int)
    requires Deep(s, depth) && Leads(s, depth, pre) && i > 0 && Following(s, depth, at, p, i, len, last)
    ensures p < |pre| && Following(s, depth, [p] + at, pre[p], i - 1, len, last)
  {
    PickMore(s, p, at);
  }

  /** What getSubsquence has made of the array: the places from i on are written, from the positions `at`. */
  ghost predicate Written(same: bool, s: seq<int>, before: seq<int>, at: seq<int>, i: nat, now: seq<int>)
    requires Chain(s, at)
  {
    if same then i + |at| <= |s| && now == Overlaid(s, at, i)
    else i + |at| <= |before| && now == before[..i] + Picked(s, at) + before[i + |at|..]
  }

  lemma WriteNext(same: bool, s: seq<int>, before: seq<int>, at: seq<int>, i: nat, now: seq<int>, p: int)
    requires Chain(s, at) && i > 0 && 0 <= p < |s| && Before(s, p, at) && Written(same, s, before, at, i, now)
    ensures Chain(s, [p] + at) && i <= |now| && (same ==> p < |now|)
    ensures Written(same, s, before, [p] + at, i - 1, now[i - 1 := if same then now[p] else s[p]])
  {
    PickMore(s, p, at);
    assert ([p] + at)[1..] == at;
    if !same {
      PutBefore(now, i - 1, s[p], before[..i], Picked(s, at), before[i + |at|..]);
      assert before[..i][..i - 1] == before[..i - 1];
    }
  }

  /** Where the loop of getSubsquence stands. */
  datatype State = State(at: seq<int>, p: int, i: int, now: seq<int>)

  ghost function Copying(same: bool, s: seq<int>, before: seq<int>, depth: seq<int>, len: int, last: int)
    : State -> bool
  {
    (c: State) => Following(s, depth, c.at, c.p, c.i, len, last) && Written(same, s, before, c.at, c.i, c.now)
  }

  /** The state after one round. */
  ghost function NextState(same: bool, s: seq<int>, pre: seq<int>, c: State): State
    requires 0 <= c.p < |s| && c.p < |pre| && 0 < c.i <= |c.now| && (same ==> c.p < |c.now|)
  {
    State([c.p] + c.at, pre[c.p], c.i - 1, c.now[c.i - 1 := if same then c.now[c.p] else s[c.p]])
  }

  ghost predicate Kept(same: bool, s: seq<int>, pre: seq<int>, good: State -> bool, c: State) {
    good(c) && c.i > 0 ==>
      && 0 <= c.p < |s| && c.p < |pre| && c.i <= |c.now| && (same ==> c.p < |c.now|)
      && (pre[c.p] == -1 <==> c.i == 1) && good(NextState(same, s, pre, c))
  }

  ghost predicate Keeps(same: bool, s: seq<int>, pre: seq<int>, good: State -> bool) {
    forall c :: Kept(same, s, pre, good, c)
  }

  lemma KeepsOnce(same: bool, s: seq<int>, pre: seq<int>, good: State -> bool, c: State)
    requires Keeps(same, s, pre, good)
    ensures Kept(same, s, pre, good, c)
  {}

  lemma CopyKeeps(same: bool, s: seq<int>, before: seq<int>, depth: seq<int>, pre: seq<int>, len: int, last: int)
    requires Deep(s, depth) && Leads(s, depth, pre)
    ensures Keeps(same, s, pre, Copying(same, s, before, depth, len, last))
  {
    var good := Copying(same, s, before, depth, len, last);
    forall c ensures Kept(same, s, pre, good, c) {
      if good(c) && c.i > 0 {
        CopyNext(same, s, before, depth, pre, len, last, c);
      }
    }
  }

  lemma CopyStart(same: bool, s: seq<int>, before: seq<int>, depth: seq<int>, len: int, last: int)
    requires 0 <= last < |depth| == |s| && |before| >= len == depth[last] && Deep(s, depth) && (same ==> before == s)
    ensures len > 0 && Copying(same, s, before, depth, len, last)(State([], last, len, before))
  {
    if !same {
      Rejoined(before, len);
    }
  }

  lemma Rejoined(a: seq<int>, n: nat)
    requires n <= |a|
    ensures a == a[..n] + [] + a[n..]
  {}

  lemma CopyDone(same: bool, s: seq<int>, before: seq<int>, depth: seq<int>, at: seq<int>, p: int, len: int, last: int,
                 now: seq<int>)
    requires Copying(same, s, before, depth, len, last)(State(at, p, 0, now)) && len > 0
    ensures Chain(s, at) && |at| == len && at[len - 1] == last
    ensures same ==> |at| <= |s| && now == Overlaid(s, at, 0)
    ensures !same ==> len <= |before| && now == Picked(s, at) + before[len..]
  {
    if !same {
      NoFront(before, Picked(s, at), len);
    }
  }

  lemma NoFront(a: seq<int>, x: seq<int>, n: nat)
    requires n <= |a|
    ensures a[..0] + x + a[n..] == x + a[n..]
  {}

  lemma CopyNext(same: bool, s: seq<int>, before: seq<int>, depth: seq<int>, pre: seq<int>, len: int, last: int,
                 c: State)
    requires Deep(s, depth) && Leads(s, depth, pre) && c.i > 0
    requires Copying(same, s, before, depth, len, last)(c)
    ensures 0 <= c.p < |s| && c.p < |pre| && c.i <= |c.now| && (same ==> c.p < |c.now|)
    ensures pre[c.p] == -1 <==> c.i == 1
    ensures Copying(same, s, before, depth, len, last)(NextState(same, s, pre, c))
  {
    WriteNext(same, s, before, c.at, c.i, c.now, c.p);
    FollowNext(s, depth, pre, c.at, c.p, c.i, len, last);
  }

  /** What becomes of `s` if the elements at the positions `at` are copied to the places from i on, the last first. */
  ghost function Overlaid(s: seq<int>, at: seq<int>, i: nat): (t: seq<int>)
    requires i + |at| <= |s| && forall k :: 0 <= k < |at| ==> 0 <= at[k] < |s|
    ensures |t| == |s|
  {
    if at == [] then s else
      var rest := Overlaid(s, at[1..], i + 1);
      rest[i := rest[at[0]]]
  }

  lemma {:induction false} ChainFits(s: seq<int>, at: seq<int>, k: nat)
    requires Chain(s, at) && k < |at|
    ensures at[k] >= k
    decreases k
  {
    if k == 0 {
    } else {
      ChainFits(s, at, k - 1);
    }
  }

  /** The places before i and behind the chain are as they were. */
  lemma {:induction false} OverlaidElsewhere(s: seq<int>, at: seq<int>, i: nat, k: nat)
    requires i + |at| <= |s| && forall k :: 0 <= k < |at| ==> 0 <= at[k] < |s|
    requires k < |s| && !(i <= k < i + |at|)
    ensures Overlaid(s, at, i)[k] == s[k]
    decreases at
  {
    if at == [] {
    } else {
      OverlaidElsewhere(s, at[1..], i + 1, k);
    }
  }

  /** None of the elements to come is read from a place that holds another one by then. */
  ghost predicate Apart(s: seq<int>, at: seq<int>, i: nat)
    requires Chain(s, at)
  {
    forall k :: i <= k < |at| && at[k] < |at| ==> s[at[at[k]]] == s[at[k]]
  }

  ghost predicate Copied(s: seq<int>, at: seq<int>, i: nat)
    requires Chain(s, at) && i <= |at| <= |s|
  {
    forall k :: i <= k < |at| ==> Overlaid(s, at[i..], i)[k] == s[at[k]]
  }

  /** The step from one place to the next: what is copied there is read behind it, or was never written. */
  lemma CopiedHere(s: seq<int>, at: seq<int>, i: nat)
    requires Chain(s, at) && i < |at| <= |s|
    ensures var rest := Overlaid(s, at[i + 1..], i + 1);
      && Overlaid(s, at[i..], i) == rest[i := rest[at[i]]]
      && at[i] >= i && (!(i < at[i] < |at|) ==> rest[at[i]] == s[at[i]])
  {
    ChainFits(s, at, i);
    assert at[i..][1..] == at[i + 1..];
    if !(i < at[i] < |at|) {
      OverlaidElsewhere(s, at[i + 1..], i + 1, at[i]);
    }
  }

  lemma {:induction false} CopiedFrom(s: seq<int>, at: seq<int>, i: nat)
    requires Chain(s, at) && i <= |at| <= |s|
    ensures Copied(s, at, i) <==> Apart(s, at, i)
    decreases |at| - i
  {
    if i == |at| {
    } else {
      CopiedFrom(s, at, i + 1);
      CopiedHere(s, at, i);
      CopiedStep(s, at, i, Overlaid(s, at[i + 1..], i + 1), Overlaid(s, at[i..], i));
    }
  }

  lemma CopiedStep(s: seq<int>, at: seq<int>, i: nat, rest: seq<int>, all: seq<int>)
    requires Chain(s, at) && i < |at| <= |s| == |rest| && all == rest[i := rest[at[i]]] && at[i] >= i
    requires !(i < at[i] < |at|) ==> rest[at[i]] == s[at[i]]
    requires (forall k :: i + 1 <= k < |at| ==> rest[k] == s[at[k]]) <==> Apart(s, at, i + 1)
    ensures (forall k :: i <= k < |at| ==> all[k] == s[at[k]]) <==> Apart(s, at, i)
  {
    if Apart(s, at, i + 1) {
      assert i < at[i] < |at| ==> rest[at[i]] == s[at[at[i]]];
    }
  }

  /** With one array for both, it holds the subsequence afterwards exactly if no element of the chain stands on a place
    * that a different one is copied to before it is read. */
  lemma OverlaidExactly(s: seq<int>, at: seq<int>)
    requires Chain(s, at) && |at| <= |s|
    ensures Overlaid(s, at, 0)[..|at|] == Picked(s, at) <==> Apart(s, at, 0)
  {
    CopiedFrom(s, at, 0);
    assert at[0..] == at;
    var t := Overlaid(s, at, 0);
    if Copied(s, at, 0) {
      assert t[..|at|] == Picked(s, at);
    }
    if t[..|at|] == Picked(s, at) {
      forall k | 0 <= k < |at| ensures t[k] == s[at[k]] {
        assert t[..|at|][k] == Picked(s, at)[k];
      }
    }
  }

  /** The elements at the positions `at`. */
  ghost function Picked(s: seq<int>, at: seq<int>): seq<int>
    requires Chain(s, at)
  {
    seq(|at|, k requires 0 <= k < |at| => s[at[k]])
  }

  lemma PutBefore(a: seq<int>, i: int, x: int, front: seq<int>, picked: seq<int>, back: seq<int>)
    requires a == front + picked + back && i == |front| - 1 >= 0
    ensures a[i := x] == front[..i] + ([x] + picked) + back
  {}

  ghost predicate Before(s: seq<int>, p: int, at: seq<int>)
    requires 0 <= p < |s| && Chain(s, at)
  {
    at == [] || (p < at[0] && s[p] <= s[at[0]])
  }

  lemma PickMore(s: seq<int>, p: int, at: seq<int>)
    requires 0 <= p < |s| && Chain(s, at) && Before(s, p, at)
    ensures Chain(s, [p] + at) && Picked(s, [p] + at) == [s[p]] + Picked(s, at)
  {}

  lemma TableGreatest(s: seq<int>, c: seq<int>, cindex: seq<int>, len: int, depth: seq<int>)
    requires Table(s, c, cindex, len, depth)
    ensures Greatest(depth, len)
  {
    assert Entry(s, c, cindex, depth, len);
    forall t | 0 <= t < |depth| ensures depth[t] <= len {
      assert Covered(s, c, depth, len, t);
    }
  }

  lemma SearchReady(s: seq<int>, c: seq<int>, cindex: seq<int>, len: int, depth: seq<int>, n: int)
    requires Table(s, c, cindex, len, depth) && n >= 0
    ensures c[0] <= n && forall i, k :: 0 <= i < k <= len && c[k] <= n ==> c[i] <= n
  {}

  /** The sequence 5, 1, 2 has its longest subsequence at the places 1 and 2; copied within one array it is lost. */
  lemma OverlaidInstance()
    ensures Chain([5, 1, 2], [1, 2]) && Picked([5, 1, 2], [1, 2]) == [1, 2]
      && Overlaid([5, 1, 2], [1, 2], 0) == [2, 2, 2]
  {
    var s, at := [5, 1, 2], [1, 2];
    assert at[1..] == [2] && [2][1..] == [];
    assert Overlaid(s, [2], 1) == s[1 := 2];
  }

  /** lastIndex stands at the end of a longest chain, unless no chain of two elements was found. */
  ghost predicate AtEnd(depth: seq<int>, len: int, lastIndex: int, before: int) {
    if len == 1 then lastIndex == before else 0 <= lastIndex < |depth| && depth[lastIndex] == len
  }
}
