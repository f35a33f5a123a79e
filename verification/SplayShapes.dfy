/** Splaying on the shape of a tree: what it keeps, where the sought item ends up, and what it costs in the long run. */
module SplayShapes {
  /** A tree node; the item never changes once the node is made. */
  class Tree {
    var left: Tree?
    var right: Tree?
    const item: int

    constructor (i: int)
      ensures item == i
    {
      item := i;
    }
  }

  /** The nodes below a pointer, and how they hang together. */
  datatype Shape = Empty | Join(left: Shape, node: Tree, right: Shape)

  /** The two trees that splaying builds on either side of the new root. */
  datatype Parts = Parts(small: Shape, root: Tree, great: Shape)

  ghost function Order(s: Shape): seq<Tree> {
    match s
    case Empty => []
    case Join(l, n, r) => Order(l) + [n] + Order(r)
  }

  ghost function Nodes(s: Shape): set<Tree> {
    match s
    case Empty => {}
    case Join(l, n, r) => Nodes(l) + {n} + Nodes(r)
  }

  ghost function Items(s: Shape): set<int> {
    match s
    case Empty => {}
    case Join(l, n, r) => Items(l) + {n.item} + Items(r)
  }

  ghost function Size(s: Shape): nat {
    match s
    case Empty => 0
    case Join(l, _, r) => Size(l) + 1 + Size(r)
  }

  /** No node occurs twice. */
  ghost predicate Unique(s: Shape) {
    match s
    case Empty => true
    case Join(l, n, r) => Unique(l) && Unique(r) && n !in Nodes(l) && n !in Nodes(r) && Nodes(l) !! Nodes(r)
  }

  ghost predicate Below(s: Shape, k: int) {
    forall x :: x in Items(s) ==> x < k
  }

  ghost predicate Above(s: Shape, k: int) {
    forall x :: x in Items(s) ==> k < x
  }

  lemma Bounds(l: Shape, n: Tree, r: Shape, k: int)
    ensures Below(Join(l, n, r), k) <==> Below(l, k) && n.item < k && Below(r, k)
    ensures Above(Join(l, n, r), k) <==> Above(l, k) && k < n.item && Above(r, k)
  {
    var s := Join(l, n, r);
    assert Items(s) == Items(l) + {n.item} + Items(r);
    if Below(s, k) || Above(s, k) {
      assert n.item in Items(s);
    }
  }

  /** A search tree without equal items. */
  ghost predicate Search(s: Shape) {
    match s
    case Empty => true
    case Join(l, n, r) => Search(l) && Search(r) && Below(l, n.item) && Above(r, n.item)
  }

  /** The last node that a binary search for i reaches before it finds i or falls off the tree. */
  ghost function SearchEnd(i: int, s: Shape): Tree
    requires s.Join?
  {
    if i < s.node.item && s.left.Join? then SearchEnd(i, s.left)
    else if i > s.node.item && s.right.Join? then SearchEnd(i, s.right)
    else s.node
  }

  /** How many nodes that search visits. */
  ghost function Visits(i: int, s: Shape): nat {
    match s
    case Empty => 0
    case Join(l, n, r) => 1 + if i < n.item then Visits(i, l) else if i > n.item then Visits(i, r) else 0
  }

  /** A second step in the same direction is prepared by a rotation. */
  ghost function Turned(i: int, s: Shape): (t: Shape)
    requires s.Join?
    ensures t.Join? && Size(t) == Size(s)
  {
    var Join(l, x, r) := s;
    if i < x.item && l.Join? && i < l.node.item then Join(l.left, l.node, Join(l.right, x, r))
    else if i > x.item && r.Join? && i > r.node.item then Join(Join(l, x, r.left), r.node, r.right)
    else s
  }

  /** Top-down splaying by recursion: after the turn the step goes down to a child, and the rest is kept on its side. */
  ghost function Split(i: int, s: Shape): Parts
    requires s.Join?
    decreases Size(s)
  {
    var t := Turned(i, s);
    if i < t.node.item && t.left.Join? then
      var p := Split(i, t.left);
      Parts(p.small, p.root, Join(p.great, t.node, t.right))
    else if i > t.node.item && t.right.Join? then
      var p := Split(i, t.right);
      Parts(Join(t.left, t.node, p.small), p.root, p.great)
    else Parts(t.left, t.node, t.right)
  }

  ghost function Whole(p: Parts): Shape {
    Join(p.small, p.root, p.great)
  }

  ghost function Splayed(i: int, s: Shape): Shape {
    if s.Empty? then Empty else Whole(Split(i, s))
  }

  /** The two trees agree on everything that does not depend on how the nodes hang together. */
  ghost predicate SameNodes(s: Shape, t: Shape) {
    && Order(s) == Order(t) && Nodes(s) == Nodes(t) && Items(s) == Items(t) && Size(s) == Size(t)
    && (Unique(s) <==> Unique(t)) && (Search(s) <==> Search(t))
  }

  lemma RotationKeepsSearch(a: Shape, x: Tree, b: Shape, y: Tree, c: Shape)
    ensures Search(Join(Join(a, x, b), y, c)) <==> Search(Join(a, x, Join(b, y, c)))
  {
    Bounds(a, x, b, y.item);
    Bounds(b, y, c, x.item);
  }

  lemma RotationKeepsUnique(a: Shape, x: Tree, b: Shape, y: Tree, c: Shape)
    ensures Unique(Join(Join(a, x, b), y, c)) <==> Unique(Join(a, x, Join(b, y, c)))
  {
    assert Nodes(Join(a, x, b)) == Nodes(a) + {x} + Nodes(b);
    assert Nodes(Join(b, y, c)) == Nodes(b) + {y} + Nodes(c);
  }

  lemma RotationKeeps(a: Shape, x: Tree, b: Shape, y: Tree, c: Shape)
    ensures SameNodes(Join(Join(a, x, b), y, c), Join(a, x, Join(b, y, c)))
  {
    RotationKeepsSearch(a, x, b, y, c);
    RotationKeepsUnique(a, x, b, y, c);
  }

  lemma TurnKeeps(i: int, s: Shape)
    requires s.Join?
    ensures SameNodes(s, Turned(i, s))
  {
    var Join(l, x, r) := s;
    if l.Join? {
      RotationKeeps(l.left, l.node, l.right, x, r);
    }
    if r.Join? {
      RotationKeeps(l, x, r.left, r.node, r.right);
    }
  }

  lemma ReplaceChild(l: Shape, x: Tree, r: Shape, t: Shape)
    requires SameNodes(l, t) || SameNodes(r, t)
    ensures SameNodes(l, t) ==> SameNodes(Join(l, x, r), Join(t, x, r))
    ensures SameNodes(r, t) ==> SameNodes(Join(l, x, r), Join(l, x, t))
  {}

  /** Splaying keeps the order of the nodes, and with it the set of items and the search order. */
  lemma {:induction false} SplitKeeps(i: int, s: Shape)
    requires s.Join?
    ensures SameNodes(s, Whole(Split(i, s)))
    decreases Size(s)
  {
    TurnKeeps(i, s);
    var Join(l, x, r) := Turned(i, s);
    if i < x.item && l.Join? {
      SplitKeeps(i, l);
      var p := Split(i, l);
      ReplaceChild(l, x, r, Whole(p));
      RotationKeeps(p.small, p.root, p.great, x, r);
    } else if i > x.item && r.Join? {
      SplitKeeps(i, r);
      var p := Split(i, r);
      ReplaceChild(l, x, r, Whole(p));
      RotationKeeps(l, x, p.small, p.root, p.great);
    }
  }

  /** The new root is the last node of the search for i. */
  lemma {:induction false} SplitRoot(i: int, s: Shape)
    requires s.Join?
    ensures Split(i, s).root == SearchEnd(i, s)
    decreases Size(s)
  {
    var t := Turned(i, s);
    if i < t.node.item && t.left.Join? {
      SplitRoot(i, t.left);
    } else if i > t.node.item && t.right.Join? {
      SplitRoot(i, t.right);
    }
  }

  /** In a search tree everything on the small side lies below i, and everything on the great side above it. */
  lemma {:induction false} SplitSeparates(i: int, s: Shape)
    requires s.Join? && Search(s)
    ensures Below(Split(i, s).small, i) && Above(Split(i, s).great, i)
    decreases Size(s)
  {
    TurnKeeps(i, s);
    var Join(l, x, r) := Turned(i, s);
    if i < x.item && l.Join? {
      SplitSeparates(i, l);
      Bounds(Split(i, l).great, x, r, i);
    } else if i > x.item && r.Join? {
      SplitSeparates(i, r);
      Bounds(l, x, Split(i, r).small, i);
    }
  }

  /** An item of the tree is brought to the root. */
  lemma {:induction false} FoundAtRoot(i: int, s: Shape)
    requires s.Join? && Search(s)
    ensures SearchEnd(i, s).item == i <==> i in Items(s)
    decreases s
  {
    if i < s.node.item && s.left.Join? {
      FoundAtRoot(i, s.left);
    } else if i > s.node.item && s.right.Join? {
      FoundAtRoot(i, s.right);
    }
  }

  // ----- Insertion and deletion

  ghost function Inserted(i: int, s: Shape, n: Tree): Shape {
    if s.Empty? then Join(Empty, n, Empty) else
      var p := Split(i, s);
      if i < p.root.item then Join(p.small, n, Join(Empty, p.root, p.great))
      else if i > p.root.item then Join(Join(p.small, p.root, Empty), n, p.great)
      else Whole(p)
  }

  ghost function Deleted(i: int, s: Shape): Shape {
    if s.Empty? then Empty else
      var p := Split(i, s);
      if i != p.root.item then Whole(p)
      else if p.small.Empty? then p.great
      else var q := Split(i, p.small); Join(q.small, q.root, p.great)
  }

  /** Splaying a search tree, in one piece. */
  lemma SplitMeaning(i: int, s: Shape)
    requires s.Join? && Search(s)
    ensures var p := Split(i, s);
      && SameNodes(s, Whole(p)) && p.root == SearchEnd(i, s)
      && Below(p.small, i) && Above(p.great, i) && (p.root.item == i <==> i in Items(s))
  {
    SplitKeeps(i, s);
    SplitRoot(i, s);
    SplitSeparates(i, s);
    FoundAtRoot(i, s);
  }

  /** `t` is `s` with one node more. */
  ghost predicate WithNode(t: Shape, s: Shape, n: Tree) {
    && Search(t) && Unique(t) && Items(t) == Items(s) + {n.item} && Nodes(t) == Nodes(s) + {n} && Size(t) == Size(s) + 1
  }

  lemma OneSided(a: Shape, x: Tree, b: Shape)
    ensures var t := Join(a, x, Empty);
      Nodes(t) == Nodes(a) + {x} && Items(t) == Items(a) + {x.item} && Size(t) == Size(a) + 1
        && (Unique(t) <==> Unique(a) && x !in Nodes(a))
    ensures var t := Join(Empty, x, b);
      Nodes(t) == {x} + Nodes(b) && Items(t) == {x.item} + Items(b) && Size(t) == 1 + Size(b)
        && (Unique(t) <==> Unique(b) && x !in Nodes(b))
  {
    var e := Empty;
    assert Nodes(e) == {} && Items(e) == {} && Size(e) == 0 && Unique(e);
  }

  /** A new root on the left of the old root. */
  lemma NewRootLeft(a: Shape, x: Tree, b: Shape, n: Tree)
    requires Search(Join(a, x, b)) && Unique(Join(a, x, b)) && n !in Nodes(Join(a, x, b))
    requires n.item < x.item && Below(a, n.item)
    ensures WithNode(Join(a, n, Join(Empty, x, b)), Join(a, x, b), n)
  {
    Bounds(Empty, x, b, n.item);
    OneSided(a, x, b);
  }

  lemma NewRootRight(a: Shape, x: Tree, b: Shape, n: Tree)
    requires Search(Join(a, x, b)) && Unique(Join(a, x, b)) && n !in Nodes(Join(a, x, b))
    requires n.item > x.item && Above(b, n.item)
    ensures WithNode(Join(Join(a, x, Empty), n, b), Join(a, x, b), n)
  {
    Bounds(a, x, Empty, n.item);
    OneSided(a, x, b);
  }

  /** Insertion is insertion into the set of items, and brings in the new node only for a new item. */
  lemma InsertedMeaning(i: int, s: Shape, n: Tree)
    requires Search(s) && Unique(s) && n.item == i && n !in Nodes(s)
    ensures var r := Inserted(i, s, n); r.Join? && r.node.item == i
    ensures i in Items(s) ==> SameNodes(s, Inserted(i, s, n))
    ensures i !in Items(s) ==> WithNode(Inserted(i, s, n), s, n)
  {
    if s.Join? {
      SplitMeaning(i, s);
      var Parts(a, x, b) := Split(i, s);
      if i < x.item {
        NewRootLeft(a, x, b, n);
        assert Inserted(i, s, n) == Join(a, n, Join(Empty, x, b));
      } else if i > x.item {
        NewRootRight(a, x, b, n);
        assert Inserted(i, s, n) == Join(Join(a, x, Empty), n, b);
      } else {
        assert Inserted(i, s, n) == Join(a, x, b);
      }
    }
  }

  /** In a tree that lies below i altogether, the search for i ends at the last node. */
  lemma {:induction false} LastAtRoot(i: int, s: Shape)
    requires s.Join? && Below(s, i)
    ensures Split(i, s).great.Empty?
    decreases Size(s)
  {
    TurnKeeps(i, s);
    var t := Turned(i, s);
    Bounds(t.left, t.node, t.right, i);
    if t.right.Empty? {
    } else {
      LastAtRoot(i, t.right);
    }
  }

  /** `t` is `s` without the one node that holds the item. */
  ghost predicate WithoutItem(t: Shape, s: Shape, i: int) {
    && Search(t) && Unique(t) && Items(t) == Items(s) - {i} && Size(t) == Size(s) - 1
    && exists n: Tree :: n in Nodes(s) && n.item == i && Nodes(t) == Nodes(s) - {n}
  }

  lemma Joined(a: Shape, x: Tree, c: Shape, y: Tree)
    requires Search(Join(Join(a, x, Empty), y, c)) && Unique(Join(Join(a, x, Empty), y, c))
    ensures WithoutItem(Join(a, x, c), Join(Join(a, x, Empty), y, c), y.item)
  {
    var s := Join(Join(a, x, Empty), y, c);
    RotationKeeps(a, x, Empty, y, c);
    Bounds(Empty, y, c, x.item);
    Bounds(a, x, Empty, y.item);
    var t := Join(a, x, Empty);
    assert y !in Nodes(t) && y !in Nodes(c) && y.item !in Items(t) && y.item !in Items(c);
    assert Nodes(s) == Nodes(t) + {y} + Nodes(c) && Items(s) == Items(t) + {y.item} + Items(c)
      && Size(s) == Size(t) + 1 + Size(c);
    assert Nodes(Join(a, x, c)) == Nodes(t) + Nodes(c) && Size(Join(a, x, c)) == Size(t) + Size(c);
  }

  /** Deletion is removal from the set of items; the second splay leaves its root without a right child. */
  lemma DeletedMeaning(i: int, s: Shape)
    requires Search(s) && Unique(s)
    ensures i !in Items(s) ==> SameNodes(s, Deleted(i, s))
    ensures i in Items(s) ==> WithoutItem(Deleted(i, s), s, i)
  {
    if s.Join? {
      SplitMeaning(i, s);
      var Parts(a, x, b) := Split(i, s);
      if i == x.item {
        RootRemoved(a, x, b, i);
        assert WithoutItem(Deleted(i, s), Join(a, x, b), i);
      }
    }
  }

  lemma RootRemoved(a: Shape, x: Tree, b: Shape, i: int)
    requires Search(Join(a, x, b)) && Unique(Join(a, x, b)) && i == x.item
    ensures a.Empty? ==> WithoutItem(b, Join(a, x, b), i)
    ensures a.Join? ==>
      Split(i, a).great.Empty? && WithoutItem(Join(Split(i, a).small, Split(i, a).root, b), Join(a, x, b), i)
  {
    if a.Join? {
      LastAtRoot(i, a);
      SplitKeeps(i, a);
      var q := Split(i, a);
      ReplaceChild(a, x, b, Whole(q));
      Joined(q.small, q.root, b, x);
    } else {
      assert Items(Join(a, x, b)) == {i} + Items(b);
      assert Nodes(Join(a, x, b)) == {x} + Nodes(b);
    }
  }
}
