/** Points, distances, and why looking at the strip is enough. */
module Plane {
  import opened Sequences

  /** A point object: its identity and its coordinates, which never change. */
  datatype DPoint = DPoint(id: nat, x: int, y: int)

  /** The square of distTo, which orders pairs the same way. */
  function Dist2(p: DPoint, q: DPoint): nat {
    Square(p.x - q.x, p.y - q.y);
    (p.x - q.x) * (p.x - q.x) + (p.y - q.y) * (p.y - q.y)
  }

  lemma Dist2Symmetric(p: DPoint, q: DPoint)
    ensures Dist2(p, q) == Dist2(q, p)
  {
    var a, b := p.x - q.x, p.y - q.y;
    assert a * a == (-a) * (-a) && b * b == (-b) * (-b);
  }

  lemma Square(a: int, b: int)
    ensures a * a >= 0 && b * b >= 0
  {}

  // ----- The laws of the plane, which determine the distance

  ghost function Moved(p: DPoint, dx: int, dy: int): DPoint {
    p.(x := p.x + dx, y := p.y + dy)
  }

  /** Moving both points by one vector changes nothing. */
  lemma DistanceMoves(p: DPoint, q: DPoint, dx: int, dy: int)
    ensures Dist2(Moved(p, dx, dy), Moved(q, dx, dy)) == Dist2(p, q)
  {
    assert p.x + dx - (q.x + dx) == p.x - q.x && p.y + dy - (q.y + dy) == p.y - q.y;
  }

  /** Along one axis the distance is the difference. */
  lemma DistanceAlong(p: DPoint, k: int)
    ensures Dist2(p, Moved(p, k, 0)) == k * k && Dist2(p, Moved(p, 0, k)) == k * k
  {
    assert (-k) * (-k) == k * k;
  }

  ghost predicate Perpendicular(p: DPoint, q: DPoint, r: DPoint) {
    (q.x - p.x) * (r.x - p.x) + (q.y - p.y) * (r.y - p.y) == 0
  }

  /** The theorem of Pythagoras, both ways: there is a right angle at p exactly if the squares of its sides add up to
    * that of the third. */
  lemma Pythagoras(p: DPoint, q: DPoint, r: DPoint)
    ensures Perpendicular(p, q, r) <==> Dist2(p, q) + Dist2(p, r) == Dist2(q, r)
  {
    var a, b, c, d := q.x - p.x, r.x - p.x, q.y - p.y, r.y - p.y;
    assert q.x - r.x == a - b && q.y - r.y == c - d;
    Binomial(a, b);
    Binomial(c, d);
    assert (-a) * (-a) == a * a && (-b) * (-b) == b * b && (-c) * (-c) == c * c && (-d) * (-d) == d * d;
  }

  lemma Binomial(a: int, b: int)
    ensures (a - b) * (a - b) == a * a + b * b - 2 * (a * b)
  {}

  /** A CPResult; Unset stands for two null points at Double.MAX_VALUE. */
  datatype CPResult = Unset | Pair(p1: DPoint, p2: DPoint, d2: nat)

  predicate Shorter(d2: nat, re: CPResult) {
    re.Unset? || d2 < re.d2
  }

  /** An integer gap is smaller than the distance whose square is d. */
  predicate Below(gap: int, d: nat) {
    gap < 0 || gap * gap < d
  }

  function Abs(a: int): nat {
    if a >= 0 then a else -a
  }

  ghost predicate AllApart(s: seq<DPoint>, d: nat) {
    forall i, j :: 0 <= i < j < |s| ==> Dist2(s[i], s[j]) >= d
  }

  /** `re` names two points of `s`, at the least distance between any two. */
  ghost predicate Closest(re: CPResult, s: seq<DPoint>) {
    re.Pair? && re.p1 in s && re.p2 in s && re.p1 != re.p2 && Dist2(re.p1, re.p2) == re.d2 && AllApart(s, re.d2)
  }

  ghost const BY_X := (p: DPoint, q: DPoint) => p.x <= q.x
  ghost const BY_Y := (p: DPoint, q: DPoint) => p.y <= q.y
  ghost const LESS_Y := (p: DPoint, q: DPoint) => p.y < q.y

  /** Membership in the strip around the middle point. */
  ghost function Near(m: DPoint, d: nat): DPoint -> bool {
    (p: DPoint) => Below(Abs(m.x - p.x), d)
  }

  lemma SquareLess(a: int, b: int)
    requires 0 <= a <= b
    ensures a * a <= b * b
  {
    assert a * a <= a * b <= b * b;
  }

  /** A pair across the middle line that is closer than d lies in the strip. */
  lemma CrossingNear(m: DPoint, p: DPoint, q: DPoint, d: nat)
    requires p.x <= m.x <= q.x && Dist2(p, q) < d
    ensures Near(m, d)(p) && Near(m, d)(q)
  {
    Square(p.x - q.x, p.y - q.y);
    assert (q.x - p.x) * (q.x - p.x) == (p.x - q.x) * (p.x - q.x);
    SquareLess(m.x - p.x, q.x - p.x);
    SquareLess(q.x - m.x, q.x - p.x);
  }

  lemma InFilter(y: seq<DPoint>, keep: DPoint -> bool, p: DPoint)
    requires p in multiset(y) && keep(p)
    ensures p in Filter(y, keep)
  {
    FilterMultiset(y, keep, p);
    assert p in multiset(Filter(y, keep));
  }

  /** Two halves without close pairs, and a strip without close pairs, leave no close pair at all. */
  lemma StripSuffices(s: seq<DPoint>, n: nat, y: seq<DPoint>, m: DPoint, d: nat, r: nat)
    requires 0 < n <= |s| && m == s[n - 1] && Sorted(s, BY_X) && NoRepeats(s)
    requires multiset(y) == multiset(s) && AllApart(s[..n], d) && AllApart(s[n..], d) && r <= d
    requires AllApart(Filter(y, Near(m, d)), r)
    ensures AllApart(s, r)
  {
    var t := Filter(y, Near(m, d));
    forall i, j | 0 <= i < j < |s| ensures Dist2(s[i], s[j]) >= r {
      if j < n {
        assert s[..n][i] == s[i] && s[..n][j] == s[j];
      } else if i >= n {
        assert s[n..][i - n] == s[i] && s[n..][j - n] == s[j];
      } else if Dist2(s[i], s[j]) < d {
        assert s[i].x <= m.x <= s[j].x by {
          assert i < n - 1 ==> BY_X(s[i], s[n - 1]);
          assert BY_X(s[n - 1], s[j]);
        }
        CrossingNear(m, s[i], s[j], d);
        assert s[i] in multiset(s) && s[j] in multiset(s);
        InFilter(y, Near(m, d), s[i]);
        InFilter(y, Near(m, d), s[j]);
        var a :| 0 <= a < |t| && t[a] == s[i];
        var b :| 0 <= b < |t| && t[b] == s[j];
        assert a != b;
        Dist2Symmetric(t[a], t[b]);
      }
    }
  }

  // ----- How many points of the strip can be close in height

  /** At most half the distance whose square is d. */
  ghost predicate Narrow(gap: int, d: nat) {
    4 * (gap * gap) < d
  }

  lemma LessBySquares(a: nat, b: nat)
    requires a * a < b * b
    ensures a < b
  {
    if a >= b {
      SquareLess(b, a);
    }
  }

  lemma SquareOfDouble(a: int)
    ensures (2 * a) * (2 * a) == 4 * (a * a)
  {}

  lemma HalfGapOrdered(a: nat, b: nat, d: nat)
    requires b <= a && a * a < d && (4 * (a * a) < d || 4 * (b * b) >= d)
    ensures 4 * ((a - b) * (a - b)) < d
  {
    SquareLess(a - b, a);
    if 4 * (a * a) >= d {
      SquareOfDouble(b);
      LessBySquares(a, 2 * b);
      SquareLess(2 * (a - b), a);
      SquareOfDouble(a - b);
    }
  }

  /** Two gaps on the same side of half the distance differ by less than half of it. */
  lemma HalfGap(a: nat, b: nat, d: nat)
    requires Below(a, d) && Below(b, d) && (Narrow(a, d) <==> Narrow(b, d))
    ensures Narrow(a - b, d)
  {
    if a < b {
      HalfGapOrdered(b, a, d);
      SquareOfOpposite(b - a);
    } else {
      HalfGapOrdered(a, b, d);
    }
  }

  lemma SquareOfOpposite(a: int)
    ensures (-a) * (-a) == a * a
  {}

  ghost function Code(a: bool, b: bool, c: bool): (r: int)
    ensures 0 <= r < 8
  {
    (if a then 4 else 0) + (if b then 2 else 0) + (if c then 1 else 0)
  }

  lemma CodeInjective(a: bool, b: bool, c: bool, a': bool, b': bool, c': bool)
    requires Code(a, b, c) == Code(a', b', c')
    ensures (a <==> a') && (b <==> b') && (c <==> c')
  {}

  ghost predicate OnSide(p: DPoint, left: set<DPoint>, m: DPoint) {
    if p in left then p.x <= m.x else p.x >= m.x
  }

  lemma SameSide(p: DPoint, q: DPoint, left: set<DPoint>, m: DPoint)
    requires OnSide(p, left, m) && OnSide(q, left, m) && (p in left <==> q in left)
    ensures var g := Abs(m.x - p.x) - Abs(m.x - q.x); p.x - q.x == g || p.x - q.x == -g
  {}

  lemma NarrowPair(p: DPoint, q: DPoint, dx: int, dy: int, d: nat)
    requires (p.x - q.x == dx || p.x - q.x == -dx) && p.y - q.y == dy && Narrow(dx, d) && Narrow(dy, d)
    ensures Dist2(p, q) < d
  {
    SquareOfOpposite(dx);
    Square(dx, dy);
  }

  /** The strip next to p0, above it, cut into eight boxes of half the distance. */
  ghost function Box(p: DPoint, left: set<DPoint>, m: DPoint, p0: DPoint, d: nat): int {
    var dx, dy := Abs(m.x - p.x), p.y - p0.y;
    Code(p in left, Narrow(dx, d), Narrow(dy, d))
  }

  /** In the strip, on its own side of the middle line, and less than the distance above p0. */
  ghost predicate InWindow(p: DPoint, left: set<DPoint>, m: DPoint, p0: DPoint, d: nat) {
    OnSide(p, left, m) && Near(m, d)(p) && p.y >= p0.y && Below(p.y - p0.y, d)
  }

  lemma SameBoxClose(p: DPoint, q: DPoint, left: set<DPoint>, m: DPoint, p0: DPoint, d: nat)
    requires InWindow(p, left, m, p0, d) && InWindow(q, left, m, p0, d)
    requires Box(p, left, m, p0, d) == Box(q, left, m, p0, d)
    ensures (p in left <==> q in left) && Dist2(p, q) < d
  {
    var a: int, b: int := Abs(m.x - p.x), Abs(m.x - q.x);
    var e, f := p.y - p0.y, q.y - p0.y;
    CodeInjective(p in left, Narrow(a, d), Narrow(e, d), q in left, Narrow(b, d), Narrow(f, d));
    SameSide(p, q, left, m);
    HalfGap(a, b, d);
    HalfGap(e, f, d);
    NarrowPair(p, q, a - b, e - f, d);
  }

  lemma {:induction false} Pigeonhole(s: seq<int>, n: nat)
    requires NoRepeats(s) && forall i :: 0 <= i < |s| ==> 0 <= s[i] < n
    ensures |s| <= n
    decreases n
  {
    if s == [] {
    } else {
      if k :| 0 <= k < |s| && s[k] == n - 1 {
        Pigeonhole(s[..k] + s[k + 1..], n - 1);
      } else {
        assert 0 <= s[0] < n;
        Pigeonhole(s, n - 1);
      }
    }
  }

  /** At most eight points of the strip lie in one window, because each half keeps its points apart. */
  lemma AtMostEight(w: seq<DPoint>, left: set<DPoint>, m: DPoint, p0: DPoint, d: nat)
    requires forall i :: 0 <= i < |w| ==> InWindow(w[i], left, m, p0, d)
    requires forall i, j :: 0 <= i < j < |w| && (w[i] in left <==> w[j] in left) ==> Dist2(w[i], w[j]) >= d
    ensures |w| <= 8
  {
    var boxes := seq(|w|, i requires 0 <= i < |w| => Box(w[i], left, m, p0, d));
    forall i, j | 0 <= i < j < |boxes| ensures boxes[i] != boxes[j] {
      if boxes[i] == boxes[j] {
        SameBoxClose(w[i], w[j], left, m, p0, d);
      }
    }
    Pigeonhole(boxes, 8);
  }
}

/** The divide-and-conquer search over two buffers that swap roles, and the brute-force search beside it. */
module ClosestPoints {
  import opened Powers
  import opened Sequences
  import opened Plane

  /** `s` holds the same points as `t`, ordered by height. */
  ghost predicate Ordered(s: seq<DPoint>, t: seq<DPoint>) {
    Sorted(s, BY_Y) && multiset(s) == multiset(t)
  }

  /** xIndex, a field of the point objects, gives every point its place in the order by x. */
  ghost predicate Indexed(x: seq<DPoint>, xIndex: seq<int>) {
    forall i :: 0 <= i < |x| ==> x[i].id < |xIndex| && xIndex[x[i].id] == i
  }

  ghost function Among(s: seq<DPoint>): DPoint -> bool {
    (p: DPoint) => p in s
  }

  lemma IndexedNoRepeats(x: seq<DPoint>, xIndex: seq<int>, lo: nat, hi: nat)
    requires Indexed(x, xIndex) && lo <= hi <= |x|
    ensures NoRepeats(x[lo..hi])
  {
    forall i, j | 0 <= i < j < hi - lo ensures x[lo..hi][i] != x[lo..hi][j] {
      assert xIndex[x[lo + i].id] == lo + i && xIndex[x[lo + j].id] == lo + j;
    }
  }

  /** Which half a point of the range belongs to, read off its index. */
  lemma HalfByIndex(x: seq<DPoint>, xIndex: seq<int>, lo: nat, mid: nat, hi: nat, p: DPoint)
    requires Indexed(x, xIndex) && lo <= mid <= hi <= |x| && p in x[lo..hi]
    ensures p.id < |xIndex| && (xIndex[p.id] < mid <==> p in x[lo..mid]) && (xIndex[p.id] >= mid <==> p in x[mid..hi])
  {
    var i :| 0 <= i < hi - lo && x[lo..hi][i] == p;
    assert x[lo + i] == p;
    if lo + i < mid { assert x[lo..mid][i] == p; } else { assert x[mid..hi][lo + i - mid] == p; }
    if p in x[lo..mid] { var k :| 0 <= k < mid - lo && x[lo..mid][k] == p; assert x[lo + k] == p; }
    if p in x[mid..hi] { var k :| 0 <= k < hi - mid && x[mid..hi][k] == p; assert x[mid + k] == p; }
  }

  /** Filtering a reordering of two disjoint parts by membership in one gives a reordering of that part. */
  lemma FilterAmong(y: seq<DPoint>, part: seq<DPoint>, rest: seq<DPoint>)
    requires multiset(y) == multiset(part) + multiset(rest)
    requires forall p: DPoint :: p in part ==> p !in rest
    ensures multiset(Filter(y, Among(part))) == multiset(part) && |Filter(y, Among(part))| == |part|
  {
    forall p: DPoint ensures multiset(Filter(y, Among(part)))[p] == multiset(part)[p] {
      FilterMultiset(y, Among(part), p);
      assert p in part <==> multiset(part)[p] > 0;
      assert p in rest <==> multiset(rest)[p] > 0;
    }
    SameLength(Filter(y, Among(part)), part);
  }

  lemma PartsApart(s: seq<DPoint>, n: nat)
    requires NoRepeats(s) && n <= |s|
    ensures multiset(s) == multiset(s[..n]) + multiset(s[n..])
    ensures forall p: DPoint :: p in s[..n] ==> p !in s[n..]
  {
    assert s == s[..n] + s[n..];
    forall p: DPoint | p in s[..n] ensures p !in s[n..] {
      var i :| 0 <= i < n && s[i] == p;
      assert forall j :: n <= j < |s| ==> s[j] != p;
    }
  }

  /** The two parts of a sequence, found again in a permutation of it. */
  lemma PartsOf(s: seq<DPoint>, n: nat, y: seq<DPoint>)
    requires NoRepeats(s) && n <= |s| && multiset(y) == multiset(s)
    ensures var P, Q := s[..n], s[n..];
      && multiset(Filter(y, Among(P))) == multiset(P) && |Filter(y, Among(P))| == n
      && multiset(Filter(y, Among(Q))) == multiset(Q) && |Filter(y, Among(Q))| == |s| - n
  {
    PartsApart(s, n);
    FilterAmong(y, s[..n], s[n..]);
    FilterAmong(y, s[n..], s[..n]);
  }

  /** The two halves of a range in its order by height. */
  lemma HalvesOf(x: seq<DPoint>, xIndex: seq<int>, lo: nat, mid: nat, hi: nat, y: seq<DPoint>)
    requires Indexed(x, xIndex) && lo <= mid <= hi <= |x| && multiset(y) == multiset(x[lo..hi])
    ensures var P, Q := x[lo..mid], x[mid..hi];
      && multiset(Filter(y, Among(P))) == multiset(P) && |Filter(y, Among(P))| == mid - lo
      && multiset(Filter(y, Among(Q))) == multiset(Q) && |Filter(y, Among(Q))| == hi - mid
  {
    var s := x[lo..hi];
    IndexedNoRepeats(x, xIndex, lo, hi);
    assert s[..mid - lo] == x[lo..mid] && s[mid - lo..] == x[mid..hi];
    PartsOf(s, mid - lo, y);
  }

  /** The test by index tells the halves apart. */
  ghost predicate ToldApart(y: seq<DPoint>, xIndex: seq<int>, mid: nat, L: DPoint -> bool, R: DPoint -> bool) {
    forall k :: 0 <= k < |y| ==>
      y[k].id < |xIndex| && (if xIndex[y[k].id] < mid then L(y[k]) && !R(y[k]) else R(y[k]) && !L(y[k]))
  }

  lemma HalvesToldApart(x: seq<DPoint>, xIndex: seq<int>, lo: nat, mid: nat, hi: nat, y: seq<DPoint>)
    requires Indexed(x, xIndex) && lo <= mid <= hi <= |x| && multiset(y) == multiset(x[lo..hi])
    ensures ToldApart(y, xIndex, mid, Among(x[lo..mid]), Among(x[mid..hi]))
  {
    forall k | 0 <= k < |y|
      ensures y[k].id < |xIndex|
      ensures if xIndex[y[k].id] < mid then y[k] in x[lo..mid] && y[k] !in x[mid..hi]
        else y[k] in x[mid..hi] && y[k] !in x[lo..mid]
    {
      assert y[k] in multiset(y);
      assert y[k] in multiset(x[lo..hi]);
      HalfByIndex(x, xIndex, lo, mid, hi, y[k]);
    }
  }

  /** What the order by height of a range becomes in its halves. */
  lemma Division(X: seq<DPoint>, XI: seq<int>, lo: nat, mid: nat, hi: nat, Y: seq<DPoint>, L: DPoint -> bool,
                 R: DPoint -> bool)
    requires Indexed(X, XI) && lo <= mid <= hi <= |X| && Ordered(Y, X[lo..hi])
    requires L == Among(X[lo..mid]) && R == Among(X[mid..hi])
    ensures Ordered(Filter(Y, L), X[lo..mid]) && |Filter(Y, L)| == mid - lo
    ensures Ordered(Filter(Y, R), X[mid..hi]) && |Filter(Y, R)| == hi - mid
    ensures ToldApart(Y, XI, mid, L, R)
  {
    HalvesOf(X, XI, lo, mid, hi, Y);
    HalvesToldApart(X, XI, lo, mid, hi, Y);
    FilterSorted(Y, L, BY_Y);
    FilterSorted(Y, R, BY_Y);
  }

  /** The next point is sent to one half. */
  lemma SentNext(Y: seq<DPoint>, XI: seq<int>, mid: nat, L: DPoint -> bool, R: DPoint -> bool, k: nat)
    requires ToldApart(Y, XI, mid, L, R) && k < |Y|
    ensures Y[k].id < |XI| && |Filter(Y[..k + 1], L)| <= |Filter(Y, L)| && |Filter(Y[..k + 1], R)| <= |Filter(Y, R)|
    ensures Filter(Y[..k + 1], L) == if XI[Y[k].id] < mid then Filter(Y[..k], L) + [Y[k]] else Filter(Y[..k], L)
    ensures Filter(Y[..k + 1], R) == if XI[Y[k].id] < mid then Filter(Y[..k], R) else Filter(Y[..k], R) + [Y[k]]
  {
    FilterNext(Y, k, L);
    FilterNext(Y, k, R);
  }

  /** One point is put behind what its half holds already. */
  method Send(z: array<DPoint>, p: DPoint, toRight: bool, start: nat, mid: nat, end: nat, low: nat, up: nat,
              ghost fl: seq<DPoint>, ghost fr: seq<DPoint>)
    returns (low': nat, up': nat)
    requires start <= mid < end < z.Length && Holds(z, start, fl) && Holds(z, mid + 1, fr)
    requires low == start + |fl| && up == mid + 1 + |fr| && low <= mid + 1
    requires if toRight then up <= end else low <= mid
    modifies z
    ensures Holds(z, start, if toRight then fl else fl + [p]) && Holds(z, mid + 1, if toRight then fr + [p] else fr)
    ensures low' == (if toRight then low else low + 1) && up' == if toRight then up + 1 else up
    ensures forall i :: 0 <= i < z.Length && !(start <= i <= end) ==> z[i] == old(z[i])
  {
    low', up' := low, up;
    if toRight {
      Put(z, mid + 1, fr, up, p, start, fl);
      up' := up + 1;
    } else {
      Put(z, start, fl, low, p, mid + 1, fr);
      low' := low + 1;
    }
  }

  /** What the points before k that a test keeps make up. */
  ghost function Sifted(Y: seq<DPoint>, keep: DPoint -> bool): nat -> seq<DPoint> {
    (k: nat) => if k <= |Y| then Filter(Y[..k], keep) else []
  }

  /** Point k is sent left or right by its index, and `l` or `r` grows by it. */
  ghost predicate Sent(Y: seq<DPoint>, XI: seq<int>, mid: nat, l: nat -> seq<DPoint>, r: nat -> seq<DPoint>, k: nat) {
    k < |Y| ==>
      && Y[k].id < |XI| && |l(k + 1)| <= |l(|Y|)| && |r(k + 1)| <= |r(|Y|)|
      && l(k + 1) == (if XI[Y[k].id] < mid then l(k) + [Y[k]] else l(k))
      && r(k + 1) == if XI[Y[k].id] < mid then r(k) else r(k) + [Y[k]]
  }

  ghost predicate Sending(Y: seq<DPoint>, XI: seq<int>, mid: nat, l: nat -> seq<DPoint>, r: nat -> seq<DPoint>) {
    l(0) == [] == r(0) && forall k: nat :: Sent(Y, XI, mid, l, r, k)
  }

  lemma SiftedSending(Y: seq<DPoint>, XI: seq<int>, mid: nat, L: DPoint -> bool, R: DPoint -> bool)
    requires ToldApart(Y, XI, mid, L, R)
    ensures Sending(Y, XI, mid, Sifted(Y, L), Sifted(Y, R))
    ensures Sifted(Y, L)(|Y|) == Filter(Y, L) && Sifted(Y, R)(|Y|) == Filter(Y, R)
  {
    assert Y[..|Y|] == Y;
    forall k: nat ensures Sent(Y, XI, mid, Sifted(Y, L), Sifted(Y, R), k) {
      if k < |Y| {
        SentNext(Y, XI, mid, L, R, k);
      }
    }
  }

  /** The loop that sends every point of the range to its half of z. */
  method SendAll(y: array<DPoint>, z: array<DPoint>, xIndex: array<int>, start: nat, mid: nat, end: nat,
                 ghost Y: seq<DPoint>, ghost XI: seq<int>, ghost l: nat -> seq<DPoint>, ghost r: nat -> seq<DPoint>)
    requires y != z && y.Length == z.Length && start <= mid < end < y.Length
    requires Holds(y, start, Y) && |Y| == end + 1 - start && XI == xIndex[..] && Sending(Y, XI, mid + 1, l, r)
    requires |l(|Y|)| == mid + 1 - start && |r(|Y|)| == end - mid
    modifies z
    ensures Holds(z, start, l(|Y|)) && Holds(z, mid + 1, r(|Y|))
    ensures forall i :: 0 <= i < z.Length && !(start <= i <= end) ==> z[i] == old(z[i])
  {
    ghost var k := 0;
    var low := start;
    var up := mid + 1;
    var i := start;
    while i <= end
      invariant k <= |Y| && i == start + k
      invariant low == start + |l(k)| <= mid + 1 && Holds(z, start, l(k))
      invariant up == mid + 1 + |r(k)| <= end + 1 && Holds(z, mid + 1, r(k))
      invariant forall k :: 0 <= k < z.Length && !(start <= k <= end) ==> z[k] == old(z[k])
    {
      assert Y[k] == y[i] && Sent(Y, XI, mid + 1, l, r, k);
      var toRight := xIndex[y[i].id] > mid;
      low, up := Send(z, y[i], toRight, start, mid, end, low, up, l(k), r(k));
      k := k + 1;
      i := i + 1;
    }
  }

  /** The points of the range are sent to the two halves of z. */
  method Distribute(y: array<DPoint>, z: array<DPoint>, xIndex: array<int>, start: nat, mid: nat, end: nat,
                    ghost Y: seq<DPoint>, ghost XI: seq<int>, ghost L: DPoint -> bool, ghost R: DPoint -> bool)
    requires y != z && y.Length == z.Length && start <= mid < end < y.Length
    requires Holds(y, start, Y) && |Y| == end + 1 - start && XI == xIndex[..] && ToldApart(Y, XI, mid + 1, L, R)
    requires |Filter(Y, L)| == mid + 1 - start && |Filter(Y, R)| == end - mid
    modifies z
    ensures Holds(z, start, Filter(Y, L)) && Holds(z, mid + 1, Filter(Y, R))
    ensures forall i :: 0 <= i < z.Length && !(start <= i <= end) ==> z[i] == old(z[i])
  {
    SiftedSending(Y, XI, mid + 1, L, R);
    SendAll(y, z, xIndex, start, mid, end, Y, XI, Sifted(Y, L), Sifted(Y, R));
  }

  method CopyBack(y: array<DPoint>, z: array<DPoint>, start: nat, end: nat)
    requires y != z && y.Length == z.Length && start <= end < y.Length
    modifies y
    ensures forall i :: 0 <= i < y.Length ==> y[i] == if start <= i <= end then z[i] else old(y[i])
  {
    var i := start;
    while i <= end
      invariant start <= i <= end + 1
      invariant forall k :: 0 <= k < y.Length ==> y[k] == if start <= k < i then z[k] else old(y[k])
    {
      y[i] := z[i];
      i := i + 1;
    }
  }

  /** The order by height is divided between the halves, each keeping its order. */
  method Divide(y: array<DPoint>, z: array<DPoint>, xIndex: array<int>, start: nat, mid: nat, end: nat,
                ghost X: seq<DPoint>, ghost XI: seq<int>, ghost S: seq<DPoint>, ghost P: seq<DPoint>,
                ghost Q: seq<DPoint>, ghost Y: seq<DPoint>)
    returns (ghost yl: seq<DPoint>, ghost yr: seq<DPoint>)
    requires y != z && y.Length == z.Length && start <= mid < end < y.Length == |X|
    requires XI == xIndex[..] && Indexed(X, XI)
    requires S == X[start..end + 1] && P == X[start..mid + 1] && Q == X[mid + 1..end + 1]
    requires Holds(y, start, Y) && |Y| == end + 1 - start && Ordered(Y, S)
    modifies y, z
    ensures Holds(z, start, yl) && Ordered(yl, P) && |yl| == mid + 1 - start
    ensures Holds(z, mid + 1, yr) && Ordered(yr, Q) && |yr| == end - mid
    ensures forall i :: 0 <= i < y.Length && !(start <= i <= end) ==> y[i] == old(y[i]) && z[i] == old(z[i])
  {
    ghost var L, R := Among(P), Among(Q);
    yl, yr := Filter(Y, L), Filter(Y, R);
    Division(X, XI, start, mid + 1, end + 1, Y, L, R);
    Distribute(y, z, xIndex, start, mid, end, Y, XI, L, R);
    CopyBack(y, z, start, end);
  }

  /** The first loop of merge(): it stops when one of the runs is used up. */
  method MergeHeads(x: array<DPoint>, y: array<DPoint>, start: nat, mid: nat, end: nat, ghost A: seq<DPoint>,
                    ghost B: seq<DPoint>)
    returns (i: nat, j: nat, k: nat, ghost out: seq<DPoint>)
    requires x != y && x.Length == y.Length && start <= mid < end < x.Length
    requires Holds(x, start, A) && |A| == mid + 1 - start && Holds(x, mid + 1, B) && |B| == end - mid
    modifies y
    ensures start <= i <= mid + 1 <= j <= end + 1 && (i == mid + 1 || j == end + 1)
    ensures k == start + |out| == i + j - mid - 1 && Holds(y, start, out)
    ensures out + Merged(A, i - start, B, j - mid - 1, LESS_Y) == Merged(A, 0, B, 0, LESS_Y)
    ensures forall k :: 0 <= k < y.Length && !(start <= k <= end) ==> y[k] == old(y[k])
  {
    k := start;
    i, j := start, mid + 1;
    out := [];
    ghost var p, q := 0, 0;
    while i <= mid && j <= end
      invariant p <= |A| && q <= |B| && i == start + p && j == mid + 1 + q && |out| == p + q
      invariant k == start + |out| && Holds(y, start, out)
      invariant out + Merged(A, p, B, q, LESS_Y) == Merged(A, 0, B, 0, LESS_Y)
      invariant forall k :: 0 <= k < y.Length && !(start <= k <= end) ==> y[k] == old(y[k])
    {
      assert A[p] == x[i] && B[q] == x[j];
      MergedStep(A, p, B, q, LESS_Y, out);
      if x[i].y < x[j].y {
        Put(y, start, out, k, x[i], 0, []);
        out := out + [x[i]];
        i := i + 1;
        p := p + 1;
      } else {
        Put(y, start, out, k, x[j], 0, []);
        out := out + [x[j]];
        j := j + 1;
        q := q + 1;
      }
      k := k + 1;
    }
    assert i - start == p && j - mid - 1 == q;
  }

  /** merge(): two neighbouring runs of x become one run of y. */
  method Merge(x: array<DPoint>, y: array<DPoint>, start: nat, mid: nat, end: nat, ghost A: seq<DPoint>,
               ghost B: seq<DPoint>)
    requires x != y && x.Length == y.Length && start <= mid < end < x.Length
    requires Holds(x, start, A) && |A| == mid + 1 - start && Holds(x, mid + 1, B) && |B| == end - mid
    modifies y
    ensures Holds(y, start, Merged(A, 0, B, 0, LESS_Y))
    ensures forall k :: 0 <= k < y.Length && !(start <= k <= end) ==> y[k] == old(y[k])
  {
    var i, j, k;
    ghost var out;
    i, j, k, out := MergeHeads(x, y, start, mid, end, A, B);
    ghost var a, b := A[i - start..], B[j - mid - 1..];
    MergedRest(A, i - start, B, j - mid - 1, LESS_Y, out);
    k := CopyRun(x, y, i, mid + 1, k, start, out, a);
    k := CopyRun(x, y, j, end + 1, k, start, out + a, b);
  }

  /** The points of the range that lie in the strip, in their order by height. */
  method Strip(y: array<DPoint>, z: array<DPoint>, start: nat, end: nat, m: DPoint, d2: nat, ghost Y: seq<DPoint>)
    returns (k: nat)
    requires y != z && y.Length == z.Length && start <= end < y.Length
    requires Holds(y, start, Y) && |Y| == end + 1 - start
    modifies z
    ensures k == start + |Filter(Y, Near(m, d2))| && Holds(z, start, Filter(Y, Near(m, d2)))
    ensures forall i :: 0 <= i < z.Length && !(start <= i <= end) ==> z[i] == old(z[i])
  {
    ghost var keep := Near(m, d2);
    ghost var f, n := Filter(Y[..0], keep), 0;
    k := start;
    var i := start;
    while i <= end
      invariant n <= |Y| && i == start + n && f == Filter(Y[..n], keep) && k == start + |f| && |f| <= n
        && Holds(z, start, f)
      invariant forall i :: 0 <= i < z.Length && !(start <= i <= end) ==> z[i] == old(z[i])
    {
      var p := y[i];
      assert Y[n] == p;
      FilterNext(Y, n, keep);
      if Below(Abs(m.x - p.x), d2) {
        Put(z, start, f, k, p, 0, []);
        k := k + 1;
      }
      n := n + 1;
      f := Filter(Y[..n], keep);
      i := i + 1;
    }
    assert Y[..n] == Y;
  }

  lemma FarAbove(p: DPoint, q: DPoint, r: DPoint, d: nat)
    requires p.y <= q.y <= r.y && !Below(q.y - p.y, d)
    ensures Dist2(p, r) >= d
  {
    SquareLess(q.y - p.y, r.y - p.y);
    Square(p.x - r.x, p.y - r.y);
    SquareOfOpposite(r.y - p.y);
    assert p.y - r.y == -(r.y - p.y);
  }

  lemma BelowLess(a: int, b: int, d: nat, e: nat)
    requires Below(b, d) && a <= b && d <= e
    ensures Below(a, e)
  {
    if a >= 0 {
      SquareLess(a, b);
    }
  }

  /** What the strip promises the scan: its points are near the middle, and each half keeps its points apart. */
  ghost predicate Sparse(T: seq<DPoint>, left: set<DPoint>, m: DPoint, d: nat) {
    && (forall i :: 0 <= i < |T| ==> Near(m, d)(T[i]) && OnSide(T[i], left, m))
    && (forall i, j :: 0 <= i < j < |T| && (T[i] in left <==> T[j] in left) ==> Dist2(T[i], T[j]) >= d)
  }

  /** If the inner loop is still running at j, then j is at most seven behind i. */
  lemma WithinSeven(T: seq<DPoint>, left: set<DPoint>, m: DPoint, d: nat, i: nat, j: nat, cur: nat)
    requires Sparse(T, left, m, d) && Sorted(T, BY_Y) && i < j < |T| && cur <= d && Below(T[j].y - T[i].y, cur)
    ensures j - i <= 7
  {
    var w := T[i..j + 1];
    forall k | 0 <= k < |w| ensures InWindow(w[k], left, m, T[i], d) {
      assert w[k] == T[i + k];
      assert i < i + k ==> BY_Y(T[i], T[i + k]);
      assert i + k < j ==> BY_Y(T[i + k], T[j]);
      BelowLess(T[i + k].y - T[i].y, T[j].y - T[i].y, cur, d);
    }
    AtMostEight(w, left, m, T[i], d);
  }

  /** All pairs that begin before i have been looked at. */
  ghost predicate SeenApart(T: seq<DPoint>, n: nat, d: nat) {
    forall a, b :: 0 <= a < b < |T| && a < n ==> Dist2(T[a], T[b]) >= d
  }

  ghost predicate RowApart(T: seq<DPoint>, i: nat, j: nat, d: nat) {
    i < |T| && forall b :: i < b < j && b < |T| ==> Dist2(T[i], T[b]) >= d
  }

  lemma RowDone(T: seq<DPoint>, i: nat, j: nat, d: nat)
    requires Sorted(T, BY_Y) && i < j && RowApart(T, i, j, d) && SeenApart(T, i, d)
    requires j >= |T| || !Below(T[j].y - T[i].y, d)
    ensures SeenApart(T, i + 1, d)
  {
    forall b | i < b < |T| ensures Dist2(T[i], T[b]) >= d {
      if b >= j {
        assert BY_Y(T[i], T[j]) && (j < b ==> BY_Y(T[j], T[b]));
        FarAbove(T[i], T[j], T[b], d);
      }
    }
  }

  /** A result that is either the old one or a pair of the strip. */
  ghost predicate Improves(re: CPResult, re0: CPResult, T: seq<DPoint>) {
    re.Pair? && re0.Pair? && re.d2 <= re0.d2 &&
    (re == re0 || (re.p1 in T && re.p2 in T && re.p1 != re.p2 && Dist2(re.p1, re.p2) == re.d2))
  }

  /** The inner loop of the scan: all points above the one at i that can be close enough, and no more than seven. */
  method ScanRow(z: array<DPoint>, start: nat, k: nat, i: nat, re1: CPResult,
                 ghost re0: CPResult, ghost T: seq<DPoint>, ghost left: set<DPoint>, ghost m: DPoint, ghost a: nat)
    returns (re: CPResult, ghost looks: nat)
    requires Holds(z, start, T) && k == start + |T| && i == start + a && a < |T| && re0.Pair?
    requires Sorted(T, BY_Y) && NoRepeats(T) && Sparse(T, left, m, re0.d2) && Improves(re1, re0, T)
      && SeenApart(T, a, re1.d2)
    ensures Improves(re, re0, T) && SeenApart(T, a + 1, re.d2) && looks <= 7
  {
    re, looks := re1, 0;
    var j := i + 1;
    ghost var b := a + 1;
    while j < k && Below(z[j].y - z[i].y, re.d2)
      invariant a < b <= |T| && j == start + b && Improves(re, re0, T)
      invariant SeenApart(T, a, re.d2) && RowApart(T, a, b, re.d2)
      invariant looks == b - a - 1 <= 7
    {
      assert z[i] == T[a] && z[j] == T[b];
      WithinSeven(T, left, m, re0.d2, a, b, re.d2);
      var tmpDist := Dist2(z[i], z[j]);
      if tmpDist < re.d2 {
        re := Pair(z[i], z[j], tmpDist);
      }
      looks := looks + 1;
      j := j + 1;
      b := b + 1;
    }
    assert b < |T| ==> z[i] == T[a] && z[j] == T[b];
    RowDone(T, a, b, re.d2);
  }

  /** The scan of the strip: no pair in it is closer than the result, and at most seven looks per point. */
  method Scan(z: array<DPoint>, start: nat, k: nat, re0: CPResult, ghost T: seq<DPoint>, ghost left: set<DPoint>,
              ghost m: DPoint)
    returns (re: CPResult, ghost looks: nat)
    requires Holds(z, start, T) && k == start + |T| && re0.Pair?
    requires Sorted(T, BY_Y) && NoRepeats(T) && Sparse(T, left, m, re0.d2)
    ensures Improves(re, re0, T) && AllApart(T, re.d2)
    ensures looks <= 7 * |T|
  {
    re, looks := re0, 0;
    var i := start;
    ghost var a := 0;
    while i < k
      invariant a <= |T| && i == start + a && Improves(re, re0, T) && SeenApart(T, a, re.d2) && looks <= 7 * a
    {
      ghost var more;
      re, more := ScanRow(z, start, k, i, re, re0, T, left, m, a);
      looks := looks + more;
      i := i + 1;
      a := a + 1;
    }
  }

  // ----- Putting the halves together

  ghost function PointSet(s: seq<DPoint>): set<DPoint> {
    set p | p in s
  }

  /** The points of a range, P on the left and Q on the right of the middle point m, its last on the left. */
  ghost predicate Split(P: seq<DPoint>, Q: seq<DPoint>, m: DPoint) {
    P != [] && Q != [] && m == P[|P| - 1] && Sorted(P + Q, BY_X) && NoRepeats(P + Q)
  }

  /** The merged order by height, and the strip in it. */
  lemma SetUp(P: seq<DPoint>, Q: seq<DPoint>, m: DPoint, yl: seq<DPoint>, yr: seq<DPoint>, Y: seq<DPoint>)
    requires Split(P, Q, m) && Ordered(yl, P) && Ordered(yr, Q) && Y == Merged(yl, 0, yr, 0, LESS_Y)
    ensures Ordered(Y, P + Q) && |Y| == |P| + |Q|
  {
    MergedMultiset(yl, 0, yr, 0, LESS_Y);
    MergedSorted(yl, 0, yr, 0, LESS_Y, BY_Y);
    assert yl[0..] == yl && yr[0..] == yr;
    SameLength(Y, P + Q);
  }

  lemma StripReady(P: seq<DPoint>, Q: seq<DPoint>, m: DPoint, Y: seq<DPoint>, d: nat)
    requires Split(P, Q, m) && Ordered(Y, P + Q) && AllApart(P, d) && AllApart(Q, d)
    ensures var T := Filter(Y, Near(m, d));
      Sorted(T, BY_Y) && NoRepeats(T) && |T| <= |Y| && Sparse(T, PointSet(P), m, d)
  {
    var S, T := P + Q, Filter(Y, Near(m, d));
    NoRepeatsPermuted(S, Y);
    FilterSorted(Y, Near(m, d), BY_Y);
    NoRepeatsFilter(Y, Near(m, d));
    FilterLength(Y, Near(m, d));
    forall i | 0 <= i < |T|
      ensures Near(m, d)(T[i]) && OnSide(T[i], PointSet(P), m) && (T[i] in P || T[i] in Q)
    {
      FilterMember(Y, Near(m, d), i);
      assert T[i] in multiset(Y);
      assert T[i] in multiset(S);
      SideOf(P, Q, m, T[i]);
    }
    forall i, j | 0 <= i < j < |T| && (T[i] in PointSet(P) <==> T[j] in PointSet(P)) ensures Dist2(T[i], T[j]) >= d {
      if T[i] in P {
        ApartIn(P, T[i], T[j], d);
      } else {
        ApartIn(Q, T[i], T[j], d);
      }
    }
  }

  lemma SideOf(P: seq<DPoint>, Q: seq<DPoint>, m: DPoint, p: DPoint)
    requires Split(P, Q, m) && p in P + Q
    ensures p in P ==> p.x <= m.x
    ensures p !in P ==> p in Q && p.x >= m.x
  {
    var S, n := P + Q, |P|;
    assert S[n - 1] == m;
    if p in P {
      var k :| 0 <= k < n && P[k] == p;
      assert S[k] == p && (k < n - 1 ==> BY_X(S[k], S[n - 1]));
    } else {
      var k :| 0 <= k < |Q| && Q[k] == p;
      assert S[n + k] == p && BY_X(S[n - 1], S[n + k]);
    }
  }

  lemma ApartIn(s: seq<DPoint>, p: DPoint, q: DPoint, d: nat)
    requires AllApart(s, d) && p in s && q in s && p != q
    ensures Dist2(p, q) >= d
  {
    var i :| 0 <= i < |s| && s[i] == p;
    var j :| 0 <= j < |s| && s[j] == q;
    Dist2Symmetric(p, q);
    assert if i < j then Dist2(s[i], s[j]) >= d else Dist2(s[j], s[i]) >= d;
  }

  lemma AllApartLess(s: seq<DPoint>, d: nat, e: nat)
    requires AllApart(s, d) && e <= d
    ensures AllApart(s, e)
  {}

  lemma InEither(P: seq<DPoint>, Q: seq<DPoint>, p: DPoint)
    requires p in P || p in Q
    ensures p in P + Q
  {}

  lemma ConquerApart(P: seq<DPoint>, Q: seq<DPoint>, m: DPoint, Y: seq<DPoint>, d1: nat, d2: nat, d0: nat, d: nat)
    requires Split(P, Q, m) && Ordered(Y, P + Q) && AllApart(P, d1) && AllApart(Q, d2) && d <= d0 <= d1 && d0 <= d2
    ensures AllApart(Filter(Y, Near(m, d0)), d) ==> AllApart(P + Q, d)
  {
    if AllApart(Filter(Y, Near(m, d0)), d) {
      AllApartLess(P, d1, d0);
      AllApartLess(Q, d2, d0);
      var S := P + Q;
      assert S[..|P|] == P && S[|P|..] == Q && S[|P| - 1] == m;
      StripSuffices(S, |P|, Y, m, d0, d);
    }
  }

  /** The better of the two halves, improved in the strip, is the closest pair of the whole range. */
  lemma Conquer(P: seq<DPoint>, Q: seq<DPoint>, m: DPoint, Y: seq<DPoint>,
                re1: CPResult, re2: CPResult, re0: CPResult, re: CPResult)
    requires Split(P, Q, m) && Ordered(Y, P + Q)
    requires Closest(re1, P) && Closest(re2, Q) && re0 == if re1.d2 < re2.d2 then re1 else re2
    ensures var T := Filter(Y, Near(m, re0.d2));
      Improves(re, re0, T) && AllApart(T, re.d2) ==> Closest(re, P + Q)
  {
    var T := Filter(Y, Near(m, re0.d2));
    if Improves(re, re0, T) && AllApart(T, re.d2) {
      ConquerApart(P, Q, m, Y, re1.d2, re2.d2, re0.d2, re.d2);
      if re == re0 {
        InEither(P, Q, re.p1);
        InEither(P, Q, re.p2);
      } else {
        FromStrip(Y, Near(m, re0.d2), P + Q, re.p1);
        FromStrip(Y, Near(m, re0.d2), P + Q, re.p2);
      }
    }
  }

  /** A range and its halves, as slices of the points ordered by x. */
  lemma RangeSplit(X: seq<DPoint>, XI: seq<int>, lo: nat, mid: nat, hi: nat)
    requires Indexed(X, XI) && Sorted(X, BY_X) && lo < mid < hi <= |X|
    ensures X[lo..hi] == X[lo..mid] + X[mid..hi] && Split(X[lo..mid], X[mid..hi], X[mid - 1])
  {
    IndexedNoRepeats(X, XI, lo, hi);
    assert X[lo..hi] == X[lo..mid] + X[mid..hi];
    forall i, j | 0 <= i < j < hi - lo ensures BY_X(X[lo..hi][i], X[lo..hi][j]) {
      assert BY_X(X[lo + i], X[lo + j]);
    }
  }

  lemma FromStrip(Y: seq<DPoint>, keep: DPoint -> bool, S: seq<DPoint>, p: DPoint)
    requires multiset(Y) == multiset(S) && p in Filter(Y, keep)
    ensures p in S
  {
    var i :| 0 <= i < |Filter(Y, keep)| && Filter(Y, keep)[i] == p;
    FilterMember(Y, keep, i);
    assert p in multiset(Y);
    assert p in multiset(S);
  }

  /** Two or three points. */
  method FewPoints(x: array<DPoint>, start: nat, end: nat, ghost X: seq<DPoint>, ghost XI: seq<int>)
    returns (re: CPResult)
    requires Holds(x, 0, X) && |X| == x.Length && Indexed(X, XI) && end < x.Length
      && (start + 1 == end || start + 2 == end)
    ensures Closest(re, X[start..end + 1])
  {
    IndexedNoRepeats(X, XI, start, end + 1);
    assert x[start] == X[start] && x[start + 1] == X[start + 1] && x[end] == X[end];
    if start + 1 == end {
      re := Pair(x[start], x[end], Dist2(x[start], x[end]));
      assert X[start..end + 1] == [X[start], X[end]];
      ApartThree(X[start], X[end], X[end], re.d2, X[start..end + 1]);
    } else {
      var d1 := Dist2(x[start], x[start + 1]);
      var d2 := Dist2(x[start], x[end]);
      var d3 := Dist2(x[start + 1], x[end]);
      assert X[start..end + 1] == [X[start], X[start + 1], X[end]];
      if d1 <= d2 && d1 <= d3 {
        re := Pair(x[start], x[start + 1], d1);
      } else if d2 <= d1 && d2 <= d3 {
        re := Pair(x[start], x[end], d2);
      } else {
        re := Pair(x[start + 1], x[end], d3);
      }
      ApartThree(X[start], X[start + 1], X[end], re.d2, X[start..end + 1]);
    }
  }

  lemma ApartThree(a: DPoint, b: DPoint, c: DPoint, d: nat, s: seq<DPoint>)
    requires s == [a, b, c] || (s == [a, b] && b == c)
    requires NoRepeats(s) && Dist2(a, b) >= d && Dist2(a, c) >= d && (|s| == 3 ==> Dist2(b, c) >= d)
    ensures AllApart(s, d) && a in s && b in s && c in s && a != b && a != c && (|s| == 3 ==> b != c)
  {
    assert s[0] != s[1] && (|s| == 3 ==> s[0] != s[2] && s[1] != s[2]);
  }

  // ----- How many pairs are looked at

  /** How often a range of n points is divided. */
  ghost function Levels(n: nat): nat {
    if n <= 3 then 0 else 1 + Levels((n + 1) / 2)
  }

  /** At most seven looks for each point of the range, and those for both halves. */
  ghost function LookBudget(n: nat): nat {
    if n <= 3 then 0 else LookBudget((n + 1) / 2) + LookBudget(n / 2) + 7 * n
  }

  /** Two halves, the first not the smaller. */
  ghost predicate Halves(p: nat, q: nat) {
    q <= p <= q + 1 && p + q > 3
  }

  /** The budget of a range pays for both halves, and for seven looks for every point. */
  ghost predicate Pays(budget: nat -> nat) {
    forall p: nat, q: nat :: Halves(p, q) ==> budget(p) + budget(q) + 7 * (p + q) <= budget(p + q)
  }

  lemma BudgetPays()
    ensures Pays(LookBudget)
  {
    forall p: nat, q: nat | Halves(p, q)
      ensures LookBudget(p) + LookBudget(q) + 7 * (p + q) <= LookBudget(p + q)
    {
      assert (p + q + 1) / 2 == p && (p + q) / 2 == q;
    }
  }

  lemma Spend(budget: nat -> nat, p: nat, q: nat)
    requires Pays(budget) && Halves(p, q)
    ensures budget(p) + budget(q) + 7 * (p + q) <= budget(p + q)
  {}

  lemma {:induction false} LevelsMonotone(m: nat, n: nat)
    requires m <= n
    ensures Levels(m) <= Levels(n)
    decreases n
  {
    if m <= 3 {
    } else {
      LevelsMonotone((m + 1) / 2, (n + 1) / 2);
    }
  }

  /** There are no more levels than lg(n - 1). */
  lemma {:induction false} LevelsBound(n: nat)
    requires n >= 2
    ensures Pow2(Levels(n)) <= n - 1
    decreases n
  {
    if n <= 3 {
    } else {
      LevelsBound((n + 1) / 2);
    }
  }

  /** Over all levels there are no more than 7 n lg(n - 1) looks. */
  lemma {:induction false} BudgetBound(n: nat)
    ensures LookBudget(n) <= 7 * (n * Levels(n))
    decreases n
  {
    if n <= 3 {
    } else {
      var p, q := Halve(n);
      BudgetBound(p);
      BudgetBound(q);
      LevelsMonotone(q, p);
      BudgetStep(n, p, q, LookBudget(p), LookBudget(q), Levels(n), Levels(p), Levels(q));
    }
  }

  lemma Halve(n: nat) returns (p: nat, q: nat)
    requires n > 3
    ensures p + q == n && 0 < q <= p < n
    ensures LookBudget(n) == LookBudget(p) + LookBudget(q) + 7 * n && Levels(n) == Levels(p) + 1
  {
    p, q := (n + 1) / 2, n / 2;
  }

  lemma BudgetStep(n: nat, p: nat, q: nat, a: nat, b: nat, k: nat, l: nat, m: nat)
    requires n == p + q && k == l + 1 && a <= 7 * (p * l) && b <= 7 * (q * m) && m <= l
    ensures a + b + 7 * n <= 7 * (n * k)
  {
    Product(q, m, l);
    Distribution(p, q, l);
  }

  lemma Product(q: nat, a: nat, b: nat)
    requires a <= b
    ensures q * a <= q * b
  {}

  lemma Distribution(p: nat, q: nat, l: nat)
    ensures p * l + q * l + (p + q) == (p + q) * (l + 1)
  {}

  /** getClosestPointsDC: the closest pair of the range S, and y ordered by height again, z being scratch space. */
  method GetClosestPointsDC(x: array<DPoint>, y: array<DPoint>, z: array<DPoint>, xIndex: array<int>, start: nat,
                            end: nat,
                            ghost X: seq<DPoint>, ghost XI: seq<int>, ghost S: seq<DPoint>, ghost Y: seq<DPoint>,
                            ghost budget: nat -> nat)
    returns (re: CPResult, ghost Y': seq<DPoint>, ghost looks: nat)
    requires Pays(budget)
    requires x != y && x != z && y != z && x.Length == y.Length == z.Length && start < end < x.Length
    requires Holds(x, 0, X) && |X| == x.Length && Sorted(X, BY_X) && XI == xIndex[..] && Indexed(X, XI)
    requires S == X[start..end + 1]
    requires Holds(y, start, Y) && |Y| == end + 1 - start && Ordered(Y, S)
    modifies y, z
    ensures Closest(re, S) && Holds(y, start, Y') && |Y'| == end + 1 - start && Ordered(Y', S)
    ensures looks <= budget(|S|)
    ensures forall i :: 0 <= i < y.Length && !(start <= i <= end) ==> y[i] == old(y[i]) && z[i] == old(z[i])
    decreases end - start, 2
  {
    if start + 1 == end || start + 2 == end {
      re := FewPoints(x, start, end, X, XI);
      return re, Y, 0;
    }
    re, Y', looks := ManyPoints(x, y, z, xIndex, start, end, X, XI, S, Y, budget);
  }

  /** The division into halves, for four points or more. */
  method ManyPoints(x: array<DPoint>, y: array<DPoint>, z: array<DPoint>, xIndex: array<int>, start: nat, end: nat,
                    ghost X: seq<DPoint>, ghost XI: seq<int>, ghost S: seq<DPoint>, ghost Y: seq<DPoint>,
                    ghost budget: nat -> nat)
    returns (re: CPResult, ghost Y': seq<DPoint>, ghost looks: nat)
    requires Pays(budget)
    requires x != y && x != z && y != z && x.Length == y.Length == z.Length && start + 2 < end < x.Length
    requires Holds(x, 0, X) && |X| == x.Length && Sorted(X, BY_X) && XI == xIndex[..] && Indexed(X, XI)
    requires S == X[start..end + 1]
    requires Holds(y, start, Y) && |Y| == end + 1 - start && Ordered(Y, S)
    modifies y, z
    ensures Closest(re, S) && Holds(y, start, Y') && |Y'| == end + 1 - start && Ordered(Y', S)
    ensures looks <= budget(|S|)
    ensures forall i :: 0 <= i < y.Length && !(start <= i <= end) ==> y[i] == old(y[i]) && z[i] == old(z[i])
    decreases end - start, 1
  {
    var mid := (start + end) / 2;
    var m := x[mid];
    assert m == X[mid];
    ghost var P, Q := X[start..mid + 1], X[mid + 1..end + 1];
    RangeSplit(X, XI, start, mid + 1, end + 1);
    assert S == P + Q && Split(P, Q, m) && |P| == mid + 1 - start && |Q| == end - mid;
    var re1, re2;
    ghost var yl, yr;
    re1, re2, yl, yr, looks := SolveHalves(x, y, z, xIndex, start, mid, end, X, XI, S, P, Q, Y, budget);
    ghost var more;
    re, Y', more := MergeAndScan(m, y, z, start, mid, end, P, Q, yl, yr, re1, re2,
                                 if re1.d2 < re2.d2 then re1 else re2);
    Spend(budget, |P|, |Q|);
    looks := looks + more;
  }

  /** The division of the order by height, and the two recursive calls with y and z exchanged. */
  method SolveHalves(x: array<DPoint>, y: array<DPoint>, z: array<DPoint>, xIndex: array<int>, start: nat, mid: nat,
                     end: nat,
                     ghost X: seq<DPoint>, ghost XI: seq<int>, ghost S: seq<DPoint>, ghost P: seq<DPoint>,
                     ghost Q: seq<DPoint>, ghost Y: seq<DPoint>,
                     ghost budget: nat -> nat)
    returns (re1: CPResult, re2: CPResult, ghost zl: seq<DPoint>, ghost zr: seq<DPoint>, ghost looks: nat)
    requires Pays(budget)
    requires x != y && x != z && y != z && x.Length == y.Length == z.Length && start < mid && mid + 1 < end < x.Length
    requires Holds(x, 0, X) && |X| == x.Length && Sorted(X, BY_X) && XI == xIndex[..] && Indexed(X, XI)
    requires S == X[start..end + 1] && P == X[start..mid + 1] && Q == X[mid + 1..end + 1] && |P| == mid + 1 - start
      && |Q| == end - mid
    requires Holds(y, start, Y) && |Y| == end + 1 - start && Ordered(Y, S)
    modifies y, z
    ensures Closest(re1, P) && Holds(z, start, zl) && |zl| == |P| && Ordered(zl, P)
    ensures Closest(re2, Q) && Holds(z, mid + 1, zr) && |zr| == |Q| && Ordered(zr, Q)
    ensures looks <= budget(|P|) + budget(|Q|)
    ensures forall i :: 0 <= i < y.Length && !(start <= i <= end) ==> y[i] == old(y[i]) && z[i] == old(z[i])
    decreases end - start, 0
  {
    ghost var yl, yr := Divide(y, z, xIndex, start, mid, end, X, XI, S, P, Q, Y);
    ghost var first, second;
    re1, zl, first := SolveHalf(x, z, y, xIndex, start, mid, X, XI, P, yl, mid + 1, yr, budget);
    re2, zr, second := SolveHalf(x, z, y, xIndex, mid + 1, end, X, XI, Q, yr, start, zl, budget);
    looks := first + second;
  }

  /** A recursive call, which leaves alone what its first buffer holds elsewhere. */
  method SolveHalf(x: array<DPoint>, y: array<DPoint>, z: array<DPoint>, xIndex: array<int>, start: nat, end: nat,
                   ghost X: seq<DPoint>, ghost XI: seq<int>, ghost S: seq<DPoint>, ghost Y: seq<DPoint>,
                   ghost other: int, ghost t: seq<DPoint>,
                   ghost budget: nat -> nat)
    returns (re: CPResult, ghost Y': seq<DPoint>, ghost looks: nat)
    requires Pays(budget)
    requires x != y && x != z && y != z && x.Length == y.Length == z.Length && start < end < x.Length
    requires Holds(x, 0, X) && |X| == x.Length && Sorted(X, BY_X) && XI == xIndex[..] && Indexed(X, XI)
    requires S == X[start..end + 1]
    requires Holds(y, start, Y) && |Y| == end + 1 - start && Ordered(Y, S)
    requires Holds(y, other, t) && (other + |t| <= start || end < other)
    modifies y, z
    ensures Closest(re, S) && Holds(y, start, Y') && |Y'| == |S| && Ordered(Y', S) && Holds(y, other, t)
    ensures looks <= budget(|S|)
    ensures forall i :: 0 <= i < y.Length && !(start <= i <= end) ==> y[i] == old(y[i]) && z[i] == old(z[i])
    decreases end - start, 3
  {
    re, Y', looks := GetClosestPointsDC(x, y, z, xIndex, start, end, X, XI, S, Y, budget);
  }

  /** The part of getClosestPointsDC after the recursive calls. */
  method MergeAndScan(m: DPoint, y: array<DPoint>, z: array<DPoint>, start: nat, mid: nat, end: nat,
                      ghost P: seq<DPoint>, ghost Q: seq<DPoint>, ghost yl: seq<DPoint>, ghost yr: seq<DPoint>,
                      ghost re1: CPResult, ghost re2: CPResult, re0: CPResult)
    returns (re: CPResult, ghost Y: seq<DPoint>, ghost looks: nat)
    requires y != z && y.Length == z.Length && start <= mid < end < y.Length
    requires Split(P, Q, m) && |P| == mid + 1 - start && |Q| == end - mid
    requires Holds(z, start, yl) && |yl| == |P| && Ordered(yl, P)
    requires Holds(z, mid + 1, yr) && |yr| == |Q| && Ordered(yr, Q)
    requires Closest(re1, P) && Closest(re2, Q) && re0 == if re1.d2 < re2.d2 then re1 else re2
    modifies y, z
    ensures Closest(re, P + Q) && Holds(y, start, Y) && |Y| == |P| + |Q| && Ordered(Y, P + Q)
    ensures looks <= 7 * (|P| + |Q|)
    ensures forall i :: 0 <= i < y.Length && !(start <= i <= end) ==> y[i] == old(y[i]) && z[i] == old(z[i])
  {
    Y := Merged(yl, 0, yr, 0, LESS_Y);
    SetUp(P, Q, m, yl, yr, Y);
    Merge(z, y, start, mid, end, yl, yr);
    ghost var T := Filter(Y, Near(m, re0.d2));
    StripReady(P, Q, m, Y, re0.d2);
    var k := Strip(y, z, start, end, m, re0.d2, Y);
    re, looks := Scan(z, start, k, re0, T, PointSet(P), m);
    Conquer(P, Q, m, Y, re1, re2, re0, re);
  }

  // ----- The brute-force search, and the object that runs either

  /** What the nested loops know when they stand at (i, j). */
  ghost predicate BestSoFar(s: seq<DPoint>, i: nat, j: nat, re: CPResult) {
    && (re.Unset? <==> |s| <= 1 || (i == 0 && j == 1))
    && (re.Pair? ==> re.p1 in s && re.p2 in s && re.p1 != re.p2 && Dist2(re.p1, re.p2) == re.d2)
    && (re.Pair? ==> SeenApart(s, i, re.d2) && (i < |s| ==> RowApart(s, i, j, re.d2)))
  }

  lemma OnePairMore(s: seq<DPoint>, i: nat, j: nat, re: CPResult)
    requires i < j < |s| && s[i] != s[j] && BestSoFar(s, i, j, re)
    ensures var d2 := Dist2(s[i], s[j]);
      BestSoFar(s, i, j + 1, if Shorter(d2, re) then Pair(s[i], s[j], d2) else re)
  {}

  lemma NextRow(s: seq<DPoint>, i: nat, re: CPResult)
    requires i < |s| && BestSoFar(s, i, |s|, re)
    ensures BestSoFar(s, i + 1, i + 2, re)
  {}

  /** getClosestPointsN over the whole array: with fewer than two points nothing is found. */
  method GetClosestPointsN(points: array<DPoint>, ghost S: seq<DPoint>) returns (re: CPResult)
    requires S == points[..] && NoRepeats(S)
    ensures |S| <= 1 ==> re.Unset?
    ensures |S| >= 2 ==> Closest(re, S)
  {
    re := Unset;
    var i := 0;
    while i < points.Length
      invariant 0 <= i <= |S| && BestSoFar(S, i, i + 1, re)
    {
      var j := i + 1;
      while j < points.Length
        invariant i < j <= |S| && BestSoFar(S, i, j, re)
      {
        assert points[i] == S[i] && points[j] == S[j];
        OnePairMore(S, i, j, re);
        var tmpDist := Dist2(points[i], points[j]);
        if Shorter(tmpDist, re) {
          re := Pair(points[i], points[j], tmpDist);
        }
        j := j + 1;
      }
      NextRow(S, i, re);
      i := i + 1;
    }
  }

  /** Different point objects, each with its place in xIndex. */
  ghost predicate Distinct(s: seq<DPoint>, n: nat) {
    && (forall i :: 0 <= i < |s| ==> s[i].id < n)
    && (forall i, j :: 0 <= i < j < |s| ==> s[i].id != s[j].id)
  }

  lemma DistinctPermuted(s: seq<DPoint>, t: seq<DPoint>, n: nat)
    requires Distinct(s, n) && multiset(s) == multiset(t)
    ensures Distinct(t, n) && NoRepeats(s) && NoRepeats(t)
  {
    NoRepeatsPermuted(s, t);
    forall i | 0 <= i < |t| ensures t[i].id < n {
      assert t[i] in multiset(s);
    }
    forall i, j | 0 <= i < j < |t| ensures t[i].id != t[j].id {
      assert t[i] in multiset(s) && t[j] in multiset(s);
    }
  }

  lemma ClosestPermuted(re: CPResult, s: seq<DPoint>, t: seq<DPoint>)
    requires Closest(re, s) && multiset(s) == multiset(t) && NoRepeats(t)
    ensures Closest(re, t)
  {
    assert re.p1 in multiset(t) && re.p2 in multiset(t);
    forall i, j | 0 <= i < j < |t| ensures Dist2(t[i], t[j]) >= re.d2 {
      assert t[i] in multiset(s) && t[j] in multiset(s);
      ApartIn(s, t[i], t[j], re.d2);
    }
  }

  /** Any two closest pairs of the same points are equally far apart, so both methods find the same distance. */
  lemma ClosestUnique(re: CPResult, s: seq<DPoint>, re': CPResult, t: seq<DPoint>)
    requires Closest(re, s) && Closest(re', t) && multiset(s) == multiset(t)
    ensures re.d2 == re'.d2
  {
    assert re.p1 in multiset(t) && re.p2 in multiset(t);
    assert re'.p1 in multiset(s) && re'.p2 in multiset(s);
    ApartIn(t, re.p1, re.p2, re'.d2);
    ApartIn(s, re'.p1, re'.p2, re.d2);
  }

  /** The loop of run that numbers the points in their order by x. */
  method SetIndices(xSorted: array<DPoint>, xIndex: array<int>)
    requires Distinct(xSorted[..], xIndex.Length)
    modifies xIndex
    ensures Indexed(xSorted[..], xIndex[..])
  {
    var i := 0;
    while i < xSorted.Length
      invariant 0 <= i <= xSorted.Length
      invariant forall k :: 0 <= k < i ==> xIndex[xSorted[k].id] == k
    {
      assert xSorted[i] == xSorted[..][i] && forall k :: 0 <= k < i ==> xSorted[k] == xSorted[..][k];
      xIndex[xSorted[i].id] := i;
      i := i + 1;
    }
  }

  const NORMAL := 1
  const DC := 2

  /** ClosestPointersGenerator. The field xIndex of the point objects is kept here, by the points' identities. */
  class Generator {
    var points: array<DPoint>
    var xSorted: array<DPoint>
    var ySorted: array<DPoint>
    var zPoints: array<DPoint>
    var xIndex: array<int>
    var result: CPResult

    ghost predicate Valid()
      reads this, points
    {
      && points != xSorted && points != ySorted && points != zPoints
      && xSorted != ySorted && xSorted != zPoints && ySorted != zPoints
      && points.Length == xSorted.Length == ySorted.Length == zPoints.Length
      && Distinct(points[..], xIndex.Length)
    }

    /** setPoints. */
    constructor (ps: array<DPoint>, xIndex: array<int>)
      requires Distinct(ps[..], xIndex.Length)
      ensures Valid() && points == ps && result == Unset && this.xIndex == xIndex
      ensures fresh(xSorted) && fresh(ySorted) && fresh(zPoints)
    {
      points, this.xIndex, result := ps, xIndex, Unset;
      var n := ps.Length;
      xSorted := new DPoint[n](i requires 0 <= i < n reads ps => ps[i]);
      ySorted := new DPoint[n](i requires 0 <= i < n reads ps => ps[i]);
      zPoints := new DPoint[n](_ => DPoint(0, 0, 0));
    }

    /** run: with either method the result is a closest pair of the points. byX and byY are the orders in
        which Arrays.sort leaves xSorted and ySorted. */
    method Run(how: int, byX: seq<DPoint>, byY: seq<DPoint>) returns (code: int, ghost looks: nat)
      requires Valid() && (how == DC ==> points.Length >= 2)
      requires multiset(byX) == multiset(points[..]) && Sorted(byX, BY_X)
      requires multiset(byY) == multiset(points[..]) && Sorted(byY, BY_Y)
      modifies this`result, xSorted, ySorted, zPoints, xIndex
      ensures Valid() && points[..] == old(points[..]) && code == if how == NORMAL || how == DC then 1 else -1
      ensures code == 1 ==> if points.Length >= 2 then Closest(result, points[..]) else result.Unset?
      ensures code == -1 ==> result == old(result)
      ensures how == DC ==> looks <= LookBudget(points.Length)
      ensures how == DC ==> xSorted[..] == byX && Ordered(ySorted[..], points[..])
    {
      ghost var S := points[..];
      looks := 0;
      DistinctPermuted(S, byX, xIndex.Length);
      if how == NORMAL {
        result := GetClosestPointsN(points, S);
      } else if how == DC {
        result, looks := RunDC(byX, byY);
        ClosestPermuted(result, byX, S);
      } else {
        return -1, 0;
      }
      return 1, looks;
    }

    method RunDC(byX: seq<DPoint>, byY: seq<DPoint>) returns (re: CPResult, ghost looks: nat)
      requires Valid() && points.Length >= 2
      requires multiset(byX) == multiset(points[..]) && Sorted(byX, BY_X)
      requires multiset(byY) == multiset(points[..]) && Sorted(byY, BY_Y)
      modifies xSorted, ySorted, zPoints, xIndex
      ensures points[..] == old(points[..]) && Closest(re, byX) && looks <= LookBudget(points.Length)
      ensures xSorted[..] == byX && Ordered(ySorted[..], byX)
    {
      ghost var S := points[..];
      SameLength(byX, S);
      SameLength(byY, S);
      DistinctPermuted(S, byX, xIndex.Length);
      forall i | 0 <= i < xSorted.Length { xSorted[i] := byX[i]; }
      forall i | 0 <= i < ySorted.Length { ySorted[i] := byY[i]; }
      assert xSorted[..] == byX;
      SetIndices(xSorted, xIndex);
      var n := xSorted.Length;
      BudgetPays();
      ghost var Y;
      assert byX[0..n - 1 + 1] == byX;
      re, Y, looks := GetClosestPointsDC(xSorted, ySorted, zPoints, xIndex, 0, n - 1, byX, xIndex[..], byX, byY,
                                         LookBudget);
      assert ySorted[..] == Y;
    }
  }
}
