/** The cost of splaying: amortized logarithmic, counted in nodes visited, over every run of operations. */
module SplayCost {
  import opened SplayShapes

  /** The logarithm to base 2, rounded down. */
  ghost function Rank(n: nat): nat {
    if n <= 1 then 0 else 1 + Rank(n / 2)
  }

  lemma {:induction false} RankMonotone(a: nat, b: nat)
    requires a <= b
    ensures Rank(a) <= Rank(b)
    decreases b
  {
    if a < 2 {
    } else {
      RankMonotone(a / 2, b / 2);
    }
  }

  /** The one thing that the cost of splaying needs to know about logarithms. */
  ghost predicate Logarithmic(lg: nat -> nat) {
    forall a: nat, b: nat :: (a <= b ==> lg(a) <= lg(b)) && (0 < 2 * a <= b ==> lg(a) + 1 <= lg(b))
  }

  lemma RankLogarithmic()
    ensures Logarithmic(Rank)
  {
    forall a: nat, b: nat | a <= b ensures Rank(a) <= Rank(b) && (0 < 2 * a <= b ==> Rank(a) + 1 <= Rank(b)) {
      RankMonotone(a, b);
      if 0 < 2 * a <= b {
        RankMonotone(a, b / 2);
      }
    }
  }

  ghost function Potential(lg: nat -> nat, s: Shape): nat {
    match s
    case Empty => 0
    case Join(l, _, r) => Potential(lg, l) + lg(Size(s)) + Potential(lg, r)
  }

  /** Of two parts of a tree one has a smaller rank than the whole. */
  lemma RankSum(lg: nat -> nat, a: nat, b: nat, n: nat)
    requires Logarithmic(lg)
    requires a > 0 && b > 0 && a + b <= n
    ensures lg(a) + lg(b) + 1 <= 2 * lg(n)
  {
    assert 2 * (if a <= b then a else b) <= n;
  }

  /** The search goes on below `t`. */
  ghost predicate GoesOn(i: int, t: Shape) {
    t.Join? && ((i < t.node.item && t.left.Join?) || (i > t.node.item && t.right.Join?))
  }

  /** The step down from `s` is a link without a rotation before it. */
  ghost predicate Single(i: int, s: Shape) {
    GoesOn(i, s) && Turned(i, s) == s
  }

  /** What splitting costs beyond the fall of the potential; a rotation, or a second link to the other side,
      pays for the nodes visited. */
  ghost predicate Paid(lg: nat -> nat, i: int, s: Shape)
    requires s.Join?
  {
    var p := Split(i, s);
    3 * (Potential(lg, p.small) + Potential(lg, p.great)) + Visits(i, s)
      <= 3 * Potential(lg, s) + 6 * lg(Size(s)) + if Single(i, s) then 3 else 2
  }

  lemma Turn(lg: nat -> nat, a: nat, b: nat, n: nat, c: nat, d: nat)
    requires Logarithmic(lg)
    requires a > 0 && b > 0 && a + b <= n && a <= c && d <= n
    ensures 3 * lg(b) + 6 * lg(a) + 3 <= 3 * lg(c) + 6 * lg(n) && lg(d) <= lg(n)
  {
    RankSum(lg, a, b, n);
  }

  lemma TwoLinks(lg: nat -> nat, a: nat, b: nat, n: nat, c: nat, d: nat)
    requires Logarithmic(lg)
    requires a > 0 && b > 0 && a + b <= n && d <= c <= n
    ensures 3 * lg(a) + 3 * lg(b) + 3 + 6 * lg(d) <= 9 * lg(n) + 3 * lg(c)
  {
    RankSum(lg, a, b, n);
  }

  lemma SplitSize(i: int, s: Shape)
    requires s.Join?
    ensures Size(Split(i, s).small) + 1 + Size(Split(i, s).great) == Size(s)
  {
    SplitKeeps(i, s);
  }

  /** A rotation and a link to the left. */
  lemma TurnRightPaid(lg: nat -> nat, i: int, s: Shape)
    requires Logarithmic(lg)
    requires s.Join? && s.left.Join? && i < s.node.item && i < s.left.node.item
    requires s.left.left.Join? ==> Paid(lg, i, s.left.left)
    ensures Paid(lg, i, s)
  {
    var Join(Join(c, y, d), x, b) := s;
    var rest := Join(d, x, b);
    assert Turned(i, s) == Join(c, y, rest) && Size(rest) <= Size(s) && Visits(i, s) == 2 + Visits(i, c);
    if c.Join? {
      var p := Split(i, c);
      SplitSize(i, c);
      Turn(lg, Size(c), Size(rest), Size(s), Size(s.left), Size(Join(p.great, y, rest)));
    }
  }

  lemma TurnLeftPaid(lg: nat -> nat, i: int, s: Shape)
    requires Logarithmic(lg)
    requires s.Join? && s.right.Join? && i > s.node.item && i > s.right.node.item
    requires s.right.right.Join? ==> Paid(lg, i, s.right.right)
    ensures Paid(lg, i, s)
  {
    var Join(b, x, Join(d, y, c)) := s;
    var rest := Join(b, x, d);
    assert Turned(i, s) == Join(rest, y, c) && Size(rest) <= Size(s) && Visits(i, s) == 2 + Visits(i, c);
    if c.Join? {
      var p := Split(i, c);
      SplitSize(i, c);
      Turn(lg, Size(c), Size(rest), Size(s), Size(s.right), Size(Join(rest, y, p.small)));
    }
  }

  /** A link alone is paid by the step after it. */
  lemma LinkLeftPaid(lg: nat -> nat, i: int, s: Shape)
    requires Logarithmic(lg)
    requires s.Join? && s.left.Join? && i < s.node.item && i >= s.left.node.item
    requires Paid(lg, i, s.left) && (s.left.right.Join? ==> Paid(lg, i, s.left.right))
    ensures Paid(lg, i, s)
  {
    var Join(a, x, b) := s;
    var p := Split(i, a);
    SplitSize(i, a);
    if Single(i, a) {
      var q := Split(i, a.right);
      SplitSize(i, a.right);
      TwoLinks(lg, Size(p.small), Size(Join(p.great, x, b)), Size(s), Size(a), Size(a.right));
    }
  }

  lemma LinkRightPaid(lg: nat -> nat, i: int, s: Shape)
    requires Logarithmic(lg)
    requires s.Join? && s.right.Join? && i > s.node.item && i <= s.right.node.item
    requires Paid(lg, i, s.right) && (s.right.left.Join? ==> Paid(lg, i, s.right.left))
    ensures Paid(lg, i, s)
  {
    var Join(b, x, a) := s;
    var p := Split(i, a);
    SplitSize(i, a);
    if Single(i, a) {
      var q := Split(i, a.left);
      SplitSize(i, a.left);
      TwoLinks(lg, Size(p.great), Size(Join(b, x, p.small)), Size(s), Size(a), Size(a.left));
    }
  }

  /** The potential pays for splitting up to a multiple of the logarithm of the size. */
  lemma {:induction false} SplitPaid(lg: nat -> nat, i: int, s: Shape)
    requires Logarithmic(lg)
    requires s.Join?
    ensures Paid(lg, i, s)
    decreases s
  {
    var Join(l, x, r) := s;
    if i < x.item && l.Join? {
      if i < l.node.item {
        if l.left.Join? { SplitPaid(lg, i, l.left); }
        TurnRightPaid(lg, i, s);
      } else {
        SplitPaid(lg, i, l);
        if l.right.Join? { SplitPaid(lg, i, l.right); }
        LinkLeftPaid(lg, i, s);
      }
    } else if i > x.item && r.Join? {
      if i > r.node.item {
        if r.right.Join? { SplitPaid(lg, i, r.right); }
        TurnLeftPaid(lg, i, s);
      } else {
        SplitPaid(lg, i, r);
        if r.left.Join? { SplitPaid(lg, i, r.left); }
        LinkRightPaid(lg, i, s);
      }
    }
  }

  // ----- Runs

  datatype Op = Find(i: int) | Insert(node: Tree) | Delete(i: int)

  ghost function After(op: Op, s: Shape): Shape {
    match op
    case Find(i) => Splayed(i, s)
    case Insert(n) => Inserted(n.item, s, n)
    case Delete(i) => Deleted(i, s)
  }

  /** The nodes an operation visits; deleting splays a second time. */
  ghost function Cost(op: Op, s: Shape): nat {
    match op
    case Find(i) => Visits(i, s)
    case Insert(n) => Visits(n.item, s)
    case Delete(i) => Visits(i, s) + if s.Join? && Split(i, s).root.item == i then Visits(i, Split(i, s).small) else 0
  }

  lemma FindPaid(lg: nat -> nat, i: int, s: Shape)
    requires Logarithmic(lg)
    ensures 3 * Potential(lg, Splayed(i, s)) + Visits(i, s) <= 3 * Potential(lg, s) + 9 * lg(Size(s)) + 3
    ensures Size(Splayed(i, s)) == Size(s)
  {
    if s.Join? {
      SplitPaid(lg, i, s);
      SplitKeeps(i, s);
    }
  }

  lemma InsertPaid(lg: nat -> nat, i: int, s: Shape, n: Tree)
    requires Logarithmic(lg)
    ensures 3 * Potential(lg, Inserted(i, s, n)) + Visits(i, s) <= 3 * Potential(lg, s) + 12 * lg(Size(s) + 1) + 3
    ensures Size(Inserted(i, s, n)) <= Size(s) + 1
  {
    if s.Join? {
      SplitPaid(lg, i, s);
      SplitSize(i, s);
      var Parts(a, x, b) := Split(i, s);
      NewRootPaid(lg, a, x, b, n);
      if i < x.item {
        assert Inserted(i, s, n) == Join(a, n, Join(Empty, x, b));
      } else if i > x.item {
        assert Inserted(i, s, n) == Join(Join(a, x, Empty), n, b);
      } else {
        assert Inserted(i, s, n) == Join(a, x, b);
      }
    }
  }

  /** `t` is put together from a and b with at most two more nodes, both at the top. */
  ghost predicate OnTop(lg: nat -> nat, t: Shape, a: Shape, b: Shape) {
    var most := Size(a) + Size(b) + 2;
    Size(t) <= most && Potential(lg, t) <= Potential(lg, a) + Potential(lg, b) + 2 * lg(most)
  }

  lemma NewRootPaid(lg: nat -> nat, a: Shape, x: Tree, b: Shape, n: Tree)
    requires Logarithmic(lg)
    ensures OnTop(lg, Join(a, x, b), a, b)
    ensures OnTop(lg, Join(a, n, Join(Empty, x, b)), a, b)
    ensures OnTop(lg, Join(Join(a, x, Empty), n, b), a, b)
  {
    OneSided(a, x, b);
    AtRoot(lg, a, x, b);
    AtRoot(lg, a, n, Join(Empty, x, b));
    AtRoot(lg, Join(a, x, Empty), n, b);
  }

  lemma AtRoot(lg: nat -> nat, a: Shape, x: Tree, b: Shape)
    ensures Potential(lg, Join(a, x, b)) == Potential(lg, a) + lg(Size(a) + 1 + Size(b)) + Potential(lg, b)
    ensures Size(Join(a, x, b)) == Size(a) + 1 + Size(b)
    ensures a.Empty? ==> Potential(lg, a) == 0 && Size(a) == 0
    ensures b.Empty? ==> Potential(lg, b) == 0 && Size(b) == 0
  {}

  lemma DeletePaid(lg: nat -> nat, i: int, s: Shape)
    requires Logarithmic(lg)
    ensures 3 * Potential(lg, Deleted(i, s)) + Cost(Delete(i), s) <= 3 * Potential(lg, s) + 15 * lg(Size(s)) + 6
    ensures Size(Deleted(i, s)) <= Size(s)
  {
    if s.Join? {
      SplitPaid(lg, i, s);
      SplitSize(i, s);
      var Parts(a, x, b) := Split(i, s);
      if a.Join? && x.item == i {
        SplitPaid(lg, i, a);
        SplitSize(i, a);
      }
    }
  }

  /** The nodes an operation may bring in. */
  ghost function Added(op: Op): nat {
    if op.Insert? then 1 else 0
  }

  /** An operation on a tree that has at most `most` nodes afterwards, the new one counted. */
  lemma OpPaid(lg: nat -> nat, op: Op, s: Shape, most: nat)
    requires Logarithmic(lg) && Size(s) + Added(op) <= most
    ensures 3 * Potential(lg, After(op, s)) + Cost(op, s) <= 3 * Potential(lg, s) + 15 * lg(most) + 6
    ensures Size(After(op, s)) <= Size(s) + Added(op)
  {
    match op
    case Find(i) => FindPaid(lg, i, s);
    case Insert(n) => InsertPaid(lg, n.item, s, n);
    case Delete(i) => DeletePaid(lg, i, s);
  }

  ghost function TotalCost(ops: seq<Op>, s: Shape): nat {
    if ops == [] then 0 else Cost(ops[0], s) + TotalCost(ops[1..], After(ops[0], s))
  }

  /** The number of insertions in a run. */
  ghost function Inserts(ops: seq<Op>): nat {
    if ops == [] then 0 else Added(ops[0]) + Inserts(ops[1..])
  }

  /** n times the same amount. */
  ghost function Times(n: nat, each: nat): nat {
    if n == 0 then 0 else each + Times(n - 1, each)
  }

  lemma {:induction false} TimesIsProduct(n: nat, each: nat)
    ensures Times(n, each) == n * each
  {
    if n == 0 {
    } else {
      TimesIsProduct(n - 1, each);
      assert n * each == each + (n - 1) * each;
    }
  }

  lemma {:induction false} TimesSum(a: nat, b: nat, each: nat)
    ensures Times(a + 1 + b, each) == Times(a, each) + each + Times(b, each)
    decreases a
  {
    if a == 0 {
    } else {
      TimesSum(a - 1, b, each);
    }
  }

  /** What an operation may cost on a tree that has at most `most` nodes. */
  ghost function Each(lg: nat -> nat, most: nat): nat {
    15 * lg(most) + 6
  }

  /** Over every run, what the operations cost is paid by their budget and by the potential of the first tree. */
  lemma {:induction false} RunPaid(lg: nat -> nat, ops: seq<Op>, s: Shape, most: nat, before: nat)
    requires Logarithmic(lg) && Size(s) + Inserts(ops) <= most && Potential(lg, s) <= before
    ensures TotalCost(ops, s) <= 3 * before + Times(|ops|, Each(lg, most))
    decreases |ops|
  {
    if ops == [] {
    } else {
      var op, rest := ops[0], ops[1..];
      OpPaid(lg, op, s, most);
      RunPaid(lg, rest, After(op, s), most, Potential(lg, After(op, s)));
      assert TotalCost(ops, s) == Cost(op, s) + TotalCost(rest, After(op, s));
    }
  }

  /** No tree has more potential than its size times the logarithm of its size. */
  lemma PotentialBound(lg: nat -> nat, s: Shape)
    requires Logarithmic(lg)
    ensures Potential(lg, s) <= Times(Size(s), lg(Size(s)))
  {
    PotentialWithin(lg, s, Size(s));
  }

  lemma {:induction false} PotentialWithin(lg: nat -> nat, s: Shape, n: nat)
    requires Logarithmic(lg) && Size(s) <= n
    ensures Potential(lg, s) <= Times(Size(s), lg(n))
    decreases s
  {
    match s
    case Empty =>
    case Join(l, _, r) =>
      PotentialWithin(lg, l, n);
      PotentialWithin(lg, r, n);
      TimesSum(Size(l), Size(r), lg(n));
  }

  /** m operations, n of them insertions, on an initially empty tree visit at most m * (15 * lg n + 6) nodes. */
  lemma RunFromEmpty(ops: seq<Op>)
    ensures TotalCost(ops, Empty) <= Times(|ops|, Each(Rank, Inserts(ops)))
  {
    RankLogarithmic();
    RunPaid(Rank, ops, Empty, Inserts(ops), 0);
  }

  /** From any tree of n nodes: n * lg n is paid three times for the tree, and every operation costs at most
      15 * lg N + 6, where N counts the nodes and the insertions together. */
  lemma RunFromTree(ops: seq<Op>, s: Shape)
    ensures TotalCost(ops, s) <= RunBudget(Rank, |ops|, Size(s), Inserts(ops))
  {
    RankLogarithmic();
    RunFrom(Rank, ops, s);
  }

  ghost function RunBudget(lg: nat -> nat, m: nat, n: nat, inserts: nat): nat {
    3 * Times(n, lg(n)) + Times(m, Each(lg, n + inserts))
  }

  lemma RunFrom(lg: nat -> nat, ops: seq<Op>, s: Shape)
    requires Logarithmic(lg)
    ensures TotalCost(ops, s) <= RunBudget(lg, |ops|, Size(s), Inserts(ops))
  {
    var n, m, inserts, total := Size(s), |ops|, Inserts(ops), TotalCost(ops, s);
    assert total <= RunBudget(lg, m, n, inserts) by {
      PotentialBound(lg, s);
      RunPaid(lg, ops, s, n + inserts, Times(n, lg(n)));
    }
  }
}
