/** The 0/1 knapsack: a table of one row, overwritten from its right end, and the choice read back from another. */
module Knapsacks {
  /** The sum of the numbers at the places taken. */
  ghost function Total(x: seq<int>, take: seq<bool>): int
    requires |take| <= |x|
  {
    if take == [] then 0
    else Total(x, take[..|take| - 1]) + if take[|take| - 1] then x[|take| - 1] else 0
  }

  ghost function Marked(re: seq<int>): (take: seq<bool>)
    ensures |take| == |re|
  {
    seq(|re|, k requires 0 <= k < |re| => re[k] == 1)
  }

  ghost predicate Items(w: seq<int>, v: seq<int>) {
    |w| == |v| && forall k :: 0 <= k < |w| ==> w[k] >= 0
  }

  /** The first i items can be put into capacity j with value x, and with no more. */
  ghost predicate Best(w: seq<int>, v: seq<int>, i: nat, j: nat, x: int)
    requires Items(w, v) && i <= |w|
  {
    && (exists take: seq<bool> :: |take| == i && Total(w, take) <= j && Total(v, take) == x)
    && (forall take: seq<bool> :: |take| == i && Total(w, take) <= j ==> Total(v, take) <= x)
  }

  /** Whether the program puts an item into capacity j, given the row before; the first goes in wherever it fits. */
  ghost predicate Takes(before: nat -> int, first: bool, weight: nat, value: int, j: nat) {
    j >= weight && (first || (j > 0 && before(j - weight) + value > before(j)))
  }

  /** The recurrence from one row to the next. */
  ghost function NextRow(before: nat -> int, first: bool, weight: nat, value: int): nat -> int {
    (j: nat) => if Takes(before, first, weight, value, j) then before(j - weight) + value else before(j)
  }

  /** The two-dimensional recurrence, row by row. */
  ghost function Rows(w: seq<int>, v: seq<int>, i: nat): nat -> int
    requires Items(w, v) && i <= |w|
  {
    if i == 0 then (j: nat) => 0 else NextRow(Rows(w, v, i - 1), i == 1, w[i - 1], v[i - 1])
  }

  ghost function Row(w: seq<int>, v: seq<int>, i: nat, j: nat): int
    requires Items(w, v) && i <= |w|
  {
    Rows(w, v, i)(j)
  }

  /** Whether item i is put into capacity j, counting items from one. */
  ghost predicate Taken(w: seq<int>, v: seq<int>, i: nat, j: nat)
    requires Items(w, v) && 1 <= i <= |w|
  {
    Takes(Rows(w, v, i - 1), i == 1, w[i - 1], v[i - 1], j)
  }

  /** The capacity left for the items before item i. */
  ghost function Left(w: seq<int>, v: seq<int>, i: nat, j: nat): nat
    requires Items(w, v) && 1 <= i <= |w|
  {
    if Taken(w, v, i, j) then j - w[i - 1] else j
  }

  /** The choice that the second table leads to. */
  ghost function Chosen(w: seq<int>, v: seq<int>, i: nat, j: nat): (take: seq<bool>)
    requires Items(w, v) && i <= |w|
    ensures |take| == i
  {
    if i == 0 then [] else Chosen(w, v, i - 1, Left(w, v, i, j)) + [Taken(w, v, i, j)]
  }

  lemma TotalNext(x: seq<int>, take: seq<bool>, last: bool)
    requires |take| < |x|
    ensures Total(x, take + [last]) == Total(x, take) + if last then x[|take|] else 0
  {
    assert (take + [last])[..|take|] == take;
  }

  lemma ChosenNext(w: seq<int>, v: seq<int>, i: nat, j: nat, c: seq<bool>)
    requires Items(w, v) && 1 <= i <= |w| && i <= |c| && Chosen(w, v, i, j) == c[..i]
    ensures c[i - 1] == Taken(w, v, i, j) && Chosen(w, v, i - 1, Left(w, v, i, j)) == c[..i - 1]
    ensures Left(w, v, i, j) == if c[i - 1] then j - w[i - 1] else j
  {
    assert c[..i] == c[..i - 1] + [c[i - 1]];
  }

  lemma RowNext(w: seq<int>, v: seq<int>, i: nat, j: nat)
    requires Items(w, v) && 1 <= i <= |w|
    ensures Row(w, v, i, j) == Row(w, v, i - 1, Left(w, v, i, j)) + if Taken(w, v, i, j) then v[i - 1] else 0
    ensures Left(w, v, i, j) <= j && Left(w, v, i, j) == j - if Taken(w, v, i, j) then w[i - 1] else 0
  {}

  /** The choice fits, and has the value that the recurrence gives. */
  lemma {:induction false} ChosenValue(w: seq<int>, v: seq<int>, i: nat, j: nat)
    requires Items(w, v) && i <= |w|
    ensures Total(w, Chosen(w, v, i, j)) <= j && Total(v, Chosen(w, v, i, j)) == Row(w, v, i, j)
    decreases i
  {
    if i == 0 {
    } else {
      var j', t := LastChoice(w, v, i, j);
      ChosenValue(w, v, i - 1, j');
      var take := Chosen(w, v, i - 1, j');
      TotalNext(w, take, t);
      TotalNext(v, take, t);
    }
  }

  /** The choice for item i, and the capacity it leaves. */
  lemma LastChoice(w: seq<int>, v: seq<int>, i: nat, j: nat) returns (j': nat, t: bool)
    requires Items(w, v) && 1 <= i <= |w|
    ensures Chosen(w, v, i, j) == Chosen(w, v, i - 1, j') + [t] && j' == j - if t then w[i - 1] else 0
    ensures Row(w, v, i, j) == Row(w, v, i - 1, j') + if t then v[i - 1] else 0
  {
    j', t := Left(w, v, i, j), Taken(w, v, i, j);
    RowNext(w, v, i, j);
  }

  /** What the program takes for granted about the first i items at capacity j: the first item is worth having, and a
    * later item without weight is not, unless the capacity is positive and no item with weight comes behind it. */
  ghost predicate FairAt(w: seq<int>, v: seq<int>, i: nat, j: nat)
    requires Items(w, v) && i <= |w|
  {
    && (i > 0 ==> v[0] >= 0)
    && forall k :: 1 <= k < i && w[k] == 0 && v[k] > 0 ==> j > 0 && forall m :: k < m < i ==> w[m] == 0
  }

  ghost predicate Fair(w: seq<int>, v: seq<int>)
    requires Items(w, v)
  {
    FairAt(w, v, |w|, 0)
  }

  lemma {:induction false} WeightNonNegative(w: seq<int>, v: seq<int>, take: seq<bool>)
    requires Items(w, v) && |take| <= |w|
    ensures Total(w, take) >= 0
    decreases |take|
  {
    if take == [] {
    } else {
      WeightNonNegative(w, v, take[..|take| - 1]);
    }
  }

  /** Leaving the next item out, and putting it in, are both no better than what the recurrence does. */
  lemma RowAtLeast(w: seq<int>, v: seq<int>, i: nat, j: nat)
    requires Items(w, v) && 1 <= i <= |w| && FairAt(w, v, i, j)
    ensures Row(w, v, i, j) >= Row(w, v, i - 1, j)
    ensures j >= w[i - 1] ==> Row(w, v, i, j) >= Row(w, v, i - 1, j - w[i - 1]) + v[i - 1]
  {
    RowNext(w, v, i, j);
    assert i == 1 ==> Rows(w, v, 0)(j) == 0 && (j >= w[0] ==> Rows(w, v, 0)(j - w[0]) == 0);
    assert j == 0 && j >= w[i - 1] ==> w[i - 1] == 0;
  }

  lemma {:induction false} NoneBetter(w: seq<int>, v: seq<int>, j: nat, take: seq<bool>)
    requires Items(w, v) && |take| <= |w| && FairAt(w, v, |take|, j) && Total(w, take) <= j
    ensures Total(v, take) <= Row(w, v, |take|, j)
    decreases |take|
  {
    if take == [] {
    } else {
      var i, front := |take|, take[..|take| - 1];
      WeightNonNegative(w, v, front);
      RowAtLeast(w, v, i, j);
      if take[i - 1] {
        NoneBetter(w, v, j - w[i - 1], front);
      } else {
        NoneBetter(w, v, j, front);
      }
    }
  }

  lemma RowBest(w: seq<int>, v: seq<int>, i: nat, j: nat)
    requires Items(w, v) && i <= |w| && FairAt(w, v, i, j)
    ensures Best(w, v, i, j, Row(w, v, i, j))
  {
    ChosenValue(w, v, i, j);
    forall take: seq<bool> | |take| == i && Total(w, take) <= j ensures Total(v, take) <= Row(w, v, i, j) {
      NoneBetter(w, v, j, take);
    }
  }

  /** A first item with a negative value is put in nevertheless. */
  lemma FirstTooEager(w: seq<int>, v: seq<int>)
    requires Items(w, v) && |w| > 0 && v[0] < 0
    ensures !Best(w, v, 1, w[0], Row(w, v, 1, w[0]))
  {
    TotalNext(w, [], false);
    TotalNext(v, [], false);
    var none := [] + [false];
    assert |none| == 1 && Total(w, none) == 0 && Total(v, none) == 0;
    RowNext(w, v, 1, w[0]);
    assert Row(w, v, 0, 0) == 0;
  }

  /** A later item without weight is not put into capacity 0, whatever it is worth. */
  lemma WeightlessLeftOut(w: seq<int>, v: seq<int>, k: nat)
    requires Items(w, v) && 1 <= k < |w| && w[k] == 0 && v[k] > 0
    ensures !Best(w, v, k + 1, 0, Row(w, v, k + 1, 0))
  {
    ChosenValue(w, v, k, 0);
    var take := Chosen(w, v, k, 0);
    TotalNext(w, take, true);
    TotalNext(v, take, true);
    var more := take + [true];
    assert |more| == k + 1 && Total(w, more) <= 0 && Total(v, more) == Row(w, v, k, 0) + v[k];
    RowNext(w, v, k + 1, 0);
  }

  /** The table is right everywhere exactly for fair items; positive weights and non-negative values make them fair. */
  lemma RightExactlyIfFair(w: seq<int>, v: seq<int>)
    requires Items(w, v)
    ensures (forall i: nat, j: nat :: i <= |w| ==> Best(w, v, i, j, Row(w, v, i, j))) <==> Fair(w, v)
  {
    if Fair(w, v) {
      forall i: nat, j: nat | i <= |w| ensures Best(w, v, i, j, Row(w, v, i, j)) {
        RowBest(w, v, i, j);
      }
    } else if |w| > 0 && v[0] < 0 {
      FirstTooEager(w, v);
    } else {
      var k :| 1 <= k < |w| && w[k] == 0 && v[k] > 0;
      WeightlessLeftOut(w, v, k);
    }
  }

  // ----- Positive capacities, the only ones that run accepts

  /** Right for any number of items and any positive capacity. */
  ghost predicate RightAboveZero(w: seq<int>, v: seq<int>)
    requires Items(w, v)
  {
    forall i: nat, j: nat :: i <= |w| && j > 0 ==> Best(w, v, i, j, Row(w, v, i, j))
  }

  ghost function Skips(n: nat): (take: seq<bool>)
    ensures |take| == n
  {
    if n == 0 then [] else Skips(n - 1) + [false]
  }

  lemma {:induction false} TotalSkips(x: seq<int>, take: seq<bool>, n: nat)
    requires |take| + n <= |x|
    ensures Total(x, take + Skips(n)) == Total(x, take)
  {
    if n == 0 {
      assert take + Skips(n) == take;
    } else {
      TotalSkips(x, take, n - 1);
      assert take + Skips(n) == take + Skips(n - 1) + [false];
      TotalNext(x, take + Skips(n - 1), false);
    }
  }

  /** Only items k and m are worth anything, and k has no weight. */
  ghost predicate TwoWorth(w: seq<int>, v: seq<int>, k: nat, m: nat) {
    && Items(w, v) && 1 <= k < m < |w| && w[k] == 0 && w[m] > 0
    && forall n :: 0 <= n < |v| ==> v[n] == if n == k || n == m then 1 else 0
  }

  lemma {:induction false} AtMostOne(w: seq<int>, v: seq<int>, k: nat, m: nat, i: nat, j: nat)
    requires TwoWorth(w, v, k, m) && i <= m
    ensures Row(w, v, i, j) <= (if i > k then 1 else 0) && (j == 0 ==> Row(w, v, i, j) == 0)
    decreases i
  {
    if i == 0 {
    } else {
      RowNext(w, v, i, j);
      AtMostOne(w, v, k, m, i - 1, Left(w, v, i, j));
    }
  }

  lemma OneTotal(x: seq<int>, k: nat)
    requires k < |x|
    ensures Total(x, Skips(k) + [true]) == x[k]
  {
    TotalSkips(x, [], k);
    assert [] + Skips(k) == Skips(k);
    TotalNext(x, Skips(k), true);
  }

  ghost function Both(k: nat, m: nat): (take: seq<bool>)
    requires k < m
    ensures |take| == m + 1
  {
    Skips(k) + [true] + Skips(m - k - 1) + [true]
  }

  lemma BothTotal(x: seq<int>, k: nat, m: nat)
    requires k < m < |x|
    ensures Total(x, Both(k, m)) == x[k] + x[m]
  {
    var one, n := Skips(k) + [true], m - k - 1;
    OneTotal(x, k);
    TotalSkips(x, one, n);
    TotalNext(x, one + Skips(n), true);
  }

  /** Both k and m fit into a capacity of the weight of m, but the table puts m into capacity 0, where k is not. */
  lemma BothFit(w: seq<int>, v: seq<int>, k: nat, m: nat)
    requires TwoWorth(w, v, k, m)
    ensures !Best(w, v, m + 1, w[m], Row(w, v, m + 1, w[m]))
  {
    var j: nat := w[m];
    RowNext(w, v, m + 1, j);
    AtMostOne(w, v, k, m, m, Left(w, v, m + 1, j));
    BothTotal(w, k, m);
    BothTotal(v, k, m);
  }

  /** For given weights the answers of run are right, whatever the items are worth (the first not less than nothing),
    * exactly if behind a later item without weight there are only others without. */
  lemma RightForAllValues(w: seq<int>)
    requires forall k :: 0 <= k < |w| ==> w[k] >= 0
    ensures (forall v: seq<int> :: Items(w, v) && (|v| > 0 ==> v[0] >= 0) ==> RightAboveZero(w, v))
        <==> (forall k, m :: 1 <= k < m < |w| && w[k] == 0 ==> w[m] == 0)
  {
    if k, m :| 1 <= k < m < |w| && w[k] == 0 && w[m] > 0 {
      var v := seq(|w|, n => if n == k || n == m then 1 else 0);
      BothFit(w, v, k, m);
      assert Items(w, v) && !RightAboveZero(w, v);
    } else {
      forall v: seq<int> | Items(w, v) && (|v| > 0 ==> v[0] >= 0) ensures RightAboveZero(w, v) {
        forall i: nat, j: nat | i <= |w| && j > 0 ensures Best(w, v, i, j, Row(w, v, i, j)) {
          RowBest(w, v, i, j);
        }
      }
    }
  }

  /** The static fields of the class Knapsack. */
  class Knapsack {
    var pre: array2<int>
    var w: array<int>
    var v: array<int>
    var pc: int
    var len: int

    constructor ()
    {
      pre, w, v := new int[0, 0], new int[0], new int[0];
      pc, len := 0, 0;
    }

    /** The fields keep the last problem, and `pre` its choices. */
    ghost predicate Solved(W: seq<int>, V: seq<int>)
      reads this, pre, w
    {
      && Items(W, V) && W != [] && w[..] == W && len == |W| && pc > 0 && pre.Length0 == len + 1 && pre.Length1 == pc + 1
      && forall i, j :: 1 <= i <= len && 0 <= j <= pc ==> (pre[i, j] == 1 <==> Taken(W, V, i, j))
    }

    /** The first row. */
    method FirstItem(w: array<int>, v: array<int>, p: array<int>, ghost W: seq<int>, ghost V: seq<int>)
      requires W == w[..] && V == v[..] && Items(W, V) && W != [] && pc > 0 && p.Length == pc + 1
      requires p != w && p != v && pre.Length0 == |W| + 1 && pre.Length1 == pc + 1
      requires forall j :: 0 <= j <= pc ==> p[j] == 0 && pre[1, j] == 0
      modifies p, pre
      ensures forall j :: 0 <= j <= pc ==> p[j] == Row(W, V, 1, j) && (pre[1, j] == 1 <==> Taken(W, V, 1, j))
      ensures forall i, j :: 2 <= i <= |W| && 0 <= j <= pc ==> pre[i, j] == old(pre[i, j])
    {
      var i := w[0];
      while i <= pc
        invariant w[0] <= i && w[..] == W && v[..] == V
        invariant forall j :: 0 <= j <= pc ==> if W[0] <= j < i then p[j] == V[0] && pre[1, j] == 1
          else p[j] == 0 && pre[1, j] == 0
        invariant forall i, j :: 2 <= i <= |W| && 0 <= j <= pc ==> pre[i, j] == old(pre[i, j])
        decreases pc - i
      {
        p[i] := v[0];
        pre[1, i] := 1;
        i := i + 1;
      }
      forall j | 0 <= j <= pc ensures p[j] == Row(W, V, 1, j) && (pre[1, j] == 1 <==> Taken(W, V, 1, j)) {
        assert Row(W, V, 0, j) == 0;
      }
    }

    /** One item more: the row is overwritten from its right end, so what is read is still the row before. */
    method NextItem(w: array<int>, v: array<int>, p: array<int>, i: int, ghost W: seq<int>, ghost V: seq<int>)
      requires W == w[..] && V == v[..] && Items(W, V) && 2 <= i <= |W| && pc > 0 && p.Length == pc + 1
      requires p != w && p != v && pre.Length0 == |W| + 1 && pre.Length1 == pc + 1
      requires forall j :: 0 <= j <= pc ==> p[j] == Row(W, V, i - 1, j) && pre[i, j] == 0
      modifies p, pre
      ensures forall j :: 0 <= j <= pc ==> p[j] == Row(W, V, i, j) && (pre[i, j] == 1 <==> Taken(W, V, i, j))
      ensures forall k, j :: 1 <= k <= |W| && k != i && 0 <= j <= pc ==> pre[k, j] == old(pre[k, j])
    {
      var j := pc;
      while j > 0
        invariant 0 <= j <= pc && w[..] == W && v[..] == V
        invariant forall k :: 0 <= k <= j ==> p[k] == Row(W, V, i - 1, k) && pre[i, k] == 0
        invariant forall k :: j < k <= pc ==> p[k] == Row(W, V, i, k) && (pre[i, k] == 1 <==> Taken(W, V, i, k))
        invariant forall k, j :: 1 <= k <= |W| && k != i && 0 <= j <= pc ==> pre[k, j] == old(pre[k, j])
      {
        assert w[i - 1] == W[i - 1] && v[i - 1] == V[i - 1];
        if j >= w[i - 1] && p[j - w[i - 1]] + v[i - 1] > p[j] {
          p[j] := p[j - w[i - 1]] + v[i - 1];
          pre[i, j] := 1;
        } else {
          pre[i, j] := 0;
        }
        j := j - 1;
      }
      assert Row(W, V, i, 0) == Row(W, V, i - 1, 0);
    }

    /** The rows one after the other. */
    method FillTable(w: array<int>, v: array<int>, p: array<int>, ghost W: seq<int>, ghost V: seq<int>)
      requires W == w[..] && V == v[..] && Items(W, V) && W != [] && pc > 0 && p.Length == pc + 1
      requires p != w && p != v && pre.Length0 == |W| + 1 && pre.Length1 == pc + 1
      requires forall j :: 0 <= j <= pc ==> p[j] == 0
      requires forall i, j :: 1 <= i <= |W| && 0 <= j <= pc ==> pre[i, j] == 0
      modifies p, pre
      ensures p[pc] == Row(W, V, |W|, pc)
      ensures forall i, j :: 1 <= i <= |W| && 0 <= j <= pc ==> (pre[i, j] == 1 <==> Taken(W, V, i, j))
    {
      FirstItem(w, v, p, W, V);
      var i := 2;
      while i <= w.Length
        invariant 2 <= i <= |W| + 1 && W == w[..] && V == v[..]
        invariant forall j :: 0 <= j <= pc ==> p[j] == Row(W, V, i - 1, j)
        invariant forall k, j :: 1 <= k < i && 0 <= j <= pc ==> (pre[k, j] == 1 <==> Taken(W, V, k, j))
        invariant forall k, j :: i <= k <= |W| && 0 <= j <= pc ==> pre[k, j] == 0
      {
        NextItem(w, v, p, i, W, V);
        i := i + 1;
      }
    }

    /** System.arraycopy of a whole array. */
    static method ArrayCopy(src: array<int>, dest: array<int>)
      requires src != dest && src.Length == dest.Length
      modifies dest
      ensures dest[..] == src[..]
    {
      forall k | 0 <= k < src.Length { dest[k] := src[k]; }
    }

    /** run: -1 for what is no problem, and otherwise the value of the recurrence, with every choice kept. */
    method Run(w0: array?<int>, v0: array?<int>, pc: int) returns (value: int)
      requires w0 != null && v0 != null && w0.Length == v0.Length ==> Items(w0[..], v0[..])
      modifies this
      ensures w0 == null || v0 == null || w0.Length == 0 || w0.Length != v0.Length || pc <= 0 ==> value == -1
      ensures w0 != null && v0 != null && w0.Length == v0.Length > 0 && pc > 0 ==>
        value == Row(w0[..], v0[..], w0.Length, pc) && this.pc == pc && Solved(w0[..], v0[..]) && v[..] == v0[..]
          && fresh(pre) && fresh(w)
        && (FairAt(w0[..], v0[..], w0.Length, pc) ==> Best(w0[..], v0[..], w0.Length, pc, value))
    {
      if w0 == null || v0 == null || w0.Length == 0 || v0.Length == 0 || w0.Length != v0.Length || pc <= 0 {
        return -1;
      }
      this.pc := pc;
      len := w0.Length;
      v := new int[v0.Length];
      w := new int[w0.Length];
      ArrayCopy(w0, w);
      ArrayCopy(v0, v);
      var p := new int[pc + 1](_ => 0);
      pre := new int[w0.Length + 1, pc + 1]((_, _) => 0);
      FillTable(w0, v0, p, w0[..], v0[..]);
      value := p[pc];
      if FairAt(w0[..], v0[..], w0.Length, pc) { RowBest(w0[..], v0[..], w0.Length, pc); }
    }

    /** getResult: the places marked 1 are a choice that fits and has the value that run returned. */
    method GetResult(ghost W: seq<int>, ghost V: seq<int>) returns (re: array<int>)
      requires Solved(W, V)
      ensures fresh(re) && re.Length == len && forall k :: 0 <= k < len ==> re[k] == 0 || re[k] == 1
      ensures Total(W, Marked(re[..])) <= pc && Total(V, Marked(re[..])) == Row(W, V, len, pc)
    {
      re := new int[len];
      ghost var C := Chosen(W, V, len, pc);
      assert C[..len] == C;
      var i, j := len, pc;
      while i > 0
        modifies re
        invariant 0 <= i <= len && 0 <= j <= pc && Chosen(W, V, i, j) == C[..i]
        invariant forall k :: i <= k < len ==> re[k] == if C[k] then 1 else 0
      {
        ChosenNext(W, V, i, j, C);
        assert w[i - 1] == W[i - 1] && (pre[i, j] == 1 <==> C[i - 1]);
        if pre[i, j] == 1 {
          re[i - 1] := 1;
          j := j - w[i - 1];
        } else {
          re[i - 1] := 0;
        }
        i := i - 1;
      }
      assert Marked(re[..]) == C;
      ChosenValue(W, V, len, pc);
    }
  }
}
