/** Top-down splaying on linked nodes: the two loops, insertion and deletion. */
module TopDownSplay {
  import opened SplayShapes
  import opened SplayCost

  /** `t` points at the root of nodes that hang together as `s` says. */
  ghost predicate Linked(t: Tree?, s: Shape)
    reads Nodes(s)
  {
    match s
    case Empty => t == null
    case Join(l, n, r) => t == n && Linked(n.left, l) && Linked(n.right, r)
  }

  /** A tree under construction, from the node where it grows up to its root: each node keeps one finished subtree. */
  datatype Chain = Top | Under(node: Tree, side: Shape, outer: Chain)

  ghost function ChainNodes(p: Chain): set<Tree> {
    match p
    case Top => {}
    case Under(n, side, outer) => {n} + Nodes(side) + ChainNodes(outer)
  }

  ghost predicate ChainUnique(p: Chain) {
    match p
    case Top => true
    case Under(n, side, outer) =>
      && Unique(side) && n !in Nodes(side) && ChainUnique(outer) && n !in ChainNodes(outer)
      && Nodes(side) !! ChainNodes(outer)
  }

  /** The root of a tree under construction, or what hangs at its growing end if it has no node yet. */
  ghost function First(p: Chain, child: Tree?): Tree? {
    match p
    case Top => child
    case Under(n, _, outer) => First(outer, n)
  }

  /** The tree of small items grows at its right end. */
  ghost predicate SmallChain(child: Tree?, p: Chain)
    reads ChainNodes(p)
    decreases p
  {
    match p
    case Top => true
    case Under(n, side, outer) => n.right == child && Linked(n.left, side) && SmallChain(n, outer)
  }

  ghost predicate GreatChain(child: Tree?, p: Chain)
    reads ChainNodes(p)
    decreases p
  {
    match p
    case Top => true
    case Under(n, side, outer) => n.left == child && Linked(n.right, side) && GreatChain(n, outer)
  }

  ghost function HangSmall(p: Chain, s: Shape): Shape {
    match p
    case Top => s
    case Under(n, side, outer) => HangSmall(outer, Join(side, n, s))
  }

  ghost function HangGreat(p: Chain, s: Shape): Shape {
    match p
    case Top => s
    case Under(n, side, outer) => HangGreat(outer, Join(s, n, side))
  }

  /** `l` is where the tree of small items grows; the header N keeps its root in its right field. */
  ghost predicate SmallSide(N: Tree, l: Tree, p: Chain)
    reads N, ChainNodes(p)
  {
    match p
    case Top => l == N
    case Under(n, side, outer) => l == n && Linked(n.left, side) && SmallChain(n, outer) && N.right == First(outer, n)
  }

  ghost predicate GreatSide(N: Tree, r: Tree, p: Chain)
    reads N, ChainNodes(p)
  {
    match p
    case Top => r == N
    case Under(n, side, outer) => r == n && Linked(n.right, side) && GreatChain(n, outer) && N.left == First(outer, n)
  }

  /** The three trees share no node. */
  ghost predicate Apart(N: Tree, cur: Shape, ls: Chain, rs: Chain) {
    && Unique(cur) && ChainUnique(ls) && ChainUnique(rs)
    && N !in Nodes(cur) && N !in ChainNodes(ls) && N !in ChainNodes(rs)
    && Nodes(cur) !! ChainNodes(ls) && Nodes(cur) !! ChainNodes(rs) && ChainNodes(ls) !! ChainNodes(rs)
  }

  ghost predicate State(N: Tree, l: Tree, r: Tree, t: Tree?, cur: Shape, ls: Chain, rs: Chain)
    reads N, Nodes(cur), ChainNodes(ls), ChainNodes(rs)
  {
    Apart(N, cur, ls, rs) && Linked(t, cur) && SmallSide(N, l, ls) && GreatSide(N, r, rs)
  }

  ghost function All(cur: Shape, ls: Chain, rs: Chain): set<Tree> {
    Nodes(cur) + ChainNodes(ls) + ChainNodes(rs)
  }

  ghost function Glue(ls: Chain, p: Parts, rs: Chain): Parts {
    Parts(HangSmall(ls, p.small), p.root, HangGreat(rs, p.great))
  }

  /** A rotation to the right at the root; y is the new root. */
  method RotateRight(t: Tree, ghost cur: Shape) returns (y: Tree, ghost turned: Shape)
    requires Linked(t, cur) && Unique(cur) && cur.Join? && cur.left.Join?
    modifies Nodes(cur)
    ensures turned == Join(cur.left.left, cur.left.node, Join(cur.left.right, cur.node, cur.right))
    ensures Linked(y, turned) && Unique(turned) && Nodes(turned) == Nodes(cur)
  {
    ghost var Join(Join(c, y', d), x, b) := cur;
    assert Linked(x.left, Join(c, y', d)) && Linked(x.right, b) && Linked(y'.left, c) && Linked(y'.right, d);
    RotationKeepsUnique(c, y', d, x, b);
    y := t.left;
    t.left := y.right;
    y.right := t;
    turned := Join(c, y, Join(d, x, b));
    assert Nodes(turned) == Nodes(cur);
  }

  method RotateLeft(t: Tree, ghost cur: Shape) returns (y: Tree, ghost turned: Shape)
    requires Linked(t, cur) && Unique(cur) && cur.Join? && cur.right.Join?
    modifies Nodes(cur)
    ensures turned == Join(Join(cur.left, cur.node, cur.right.left), cur.right.node, cur.right.right)
    ensures Linked(y, turned) && Unique(turned) && Nodes(turned) == Nodes(cur)
  {
    ghost var Join(b, x, Join(d, y', c)) := cur;
    assert Linked(x.right, Join(d, y', c)) && Linked(x.left, b) && Linked(y'.left, d) && Linked(y'.right, c);
    RotationKeepsUnique(b, x, d, y', c);
    y := t.right;
    t.right := y.left;
    y.left := t;
    turned := Join(Join(b, x, d), y, c);
    assert Nodes(turned) == Nodes(cur);
  }

  /** A linked node goes over to the small or to the great side, with the subtree that belongs there. */
  lemma LinkKeepsApart(N: Tree, cur: Shape, ls: Chain, rs: Chain)
    requires cur.Join? && Apart(N, cur, ls, rs)
    ensures var rs' := Under(cur.node, cur.right, rs);
      Apart(N, cur.left, ls, rs') && All(cur.left, ls, rs') == All(cur, ls, rs)
    ensures var ls' := Under(cur.node, cur.left, ls);
      Apart(N, cur.right, ls', rs) && All(cur.right, ls', rs) == All(cur, ls, rs)
  {}

  /** The root is hung on the growing end of the great side, and the walk goes on to the left of it. */
  method LinkRight(N: Tree, l: Tree, r: Tree, t: Tree, ghost cur: Shape, ghost ls: Chain, ghost rs: Chain)
    returns (r': Tree, t': Tree, ghost rs': Chain)
    requires State(N, l, r, t, cur, ls, rs) && cur.Join? && cur.left.Join?
    modifies r
    ensures rs' == Under(t, cur.right, rs) && State(N, l, r', t', cur.left, ls, rs')
    ensures All(cur.left, ls, rs') == All(cur, ls, rs)
  {
    RootLinked(t, cur);
    LinkKeepsApart(N, cur, ls, rs);
    r.left := t;
    r' := t;
    t' := t.left;
    rs' := Under(t, cur.right, rs);
  }

  method LinkLeft(N: Tree, l: Tree, r: Tree, t: Tree, ghost cur: Shape, ghost ls: Chain, ghost rs: Chain)
    returns (l': Tree, t': Tree, ghost ls': Chain)
    requires State(N, l, r, t, cur, ls, rs) && cur.Join? && cur.right.Join?
    modifies l
    ensures ls' == Under(t, cur.left, ls) && State(N, l', r, t', cur.right, ls', rs)
    ensures All(cur.right, ls', rs) == All(cur, ls, rs)
  {
    RootLinked(t, cur);
    LinkKeepsApart(N, cur, ls, rs);
    l.right := t;
    l' := t;
    t' := t.right;
    ls' := Under(t, cur.left, ls);
  }

  lemma HungSmall(p: Chain, child: Tree?, s: Shape)
    requires Linked(child, s) && SmallChain(child, p)
    ensures Linked(First(p, child), HangSmall(p, s))
    decreases p
  {
    if p.Under? {
      HungSmall(p.outer, p.node, Join(p.side, p.node, s));
    }
  }

  lemma HungGreat(p: Chain, child: Tree?, s: Shape)
    requires Linked(child, s) && GreatChain(child, p)
    ensures Linked(First(p, child), HangGreat(p, s))
    decreases p
  {
    if p.Under? {
      HungGreat(p.outer, p.node, Join(s, p.node, p.side));
    }
  }

  lemma {:induction false} HangNodes(p: Chain, s: Shape)
    ensures Nodes(HangSmall(p, s)) == Nodes(s) + ChainNodes(p)
    ensures Nodes(HangGreat(p, s)) == Nodes(s) + ChainNodes(p)
    decreases p
  {
    if p.Top? {
    } else {
      HangNodes(p.outer, Join(p.side, p.node, s));
      HangNodes(p.outer, Join(s, p.node, p.side));
    }
  }

  /** The first two of four assignments: what is left of the current tree is hung on the two growing ends. */
  method HangSides(N: Tree, l: Tree, r: Tree, t: Tree, ghost cur: Shape, ghost ls: Chain, ghost rs: Chain)
    requires State(N, l, r, t, cur, ls, rs) && cur.Join?
    modifies l, r
    ensures Linked(N.right, HangSmall(ls, cur.left)) && Linked(N.left, HangGreat(rs, cur.right))
  {
    l.right := t.left;
    r.left := t.right;
    HungSmall(ls, t.left, cur.left);
    HungGreat(rs, t.right, cur.right);
  }

  /** The four assignments that put the three trees together. */
  method Assemble(N: Tree, l: Tree, r: Tree, t: Tree, ghost cur: Shape, ghost ls: Chain, ghost rs: Chain)
    requires State(N, l, r, t, cur, ls, rs) && cur.Join?
    modifies l, r, t
    ensures Linked(t, Join(HangSmall(ls, cur.left), t, HangGreat(rs, cur.right)))
  {
    HangSides(N, l, r, t, cur, ls, rs);
    HangNodes(ls, cur.left);
    HangNodes(rs, cur.right);
    t.left := N.right;
    t.right := N.left;
  }

  /** What is known when the loop stands at `cur`: splaying what is left completes splaying the whole. */
  ghost predicate Remains(i: int, s: Shape, cur: Shape, ls: Chain, rs: Chain, visited: nat) {
    && s.Join? && cur.Join? && Glue(ls, Split(i, cur), rs) == Split(i, s) && visited + Visits(i, cur) == Visits(i, s)
    && All(cur, ls, rs) == Nodes(s)
  }

  /** The search ends at `cur`, after `visited` nodes above it. */
  ghost predicate Stops(i: int, s: Shape, cur: Shape, ls: Chain, rs: Chain, visited: nat) {
    && s.Join? && cur.Join? && Glue(ls, Parts(cur.left, cur.node, cur.right), rs) == Split(i, s)
    && visited + 1 == Visits(i, s)
    && All(cur, ls, rs) == Nodes(s)
  }

  lemma VisitsOfTurn(i: int, cur: Shape)
    requires cur.Join?
    ensures var t, n := Turned(i, cur), if Turned(i, cur) == cur then 1 else 2;
      && (i < cur.node.item ==> Visits(i, cur) == n + Visits(i, t.left))
      && (i > cur.node.item ==> Visits(i, cur) == n + Visits(i, t.right))
  {
    assert cur.left.Join? ==> Size(cur.left.left) < Size(cur.left);
    assert cur.right.Join? ==> Size(cur.right.right) < Size(cur.right);
  }

  /** What is known after the turn, before the step down to the left. */
  ghost predicate HalfLeft(i: int, s: Shape, t: Shape, ls: Chain, rs: Chain, visited: nat) {
    && t.Join? && All(t, ls, rs) == Nodes(s)
    && (t.left.Empty? ==> Stops(i, s, t, ls, rs, visited))
    && (t.left.Join? ==> Remains(i, s, t.left, ls, Under(t.node, t.right, rs), visited + 1))
  }

  ghost predicate HalfRight(i: int, s: Shape, t: Shape, ls: Chain, rs: Chain, visited: nat) {
    && t.Join? && All(t, ls, rs) == Nodes(s)
    && (t.right.Empty? ==> Stops(i, s, t, ls, rs, visited))
    && (t.right.Join? ==> Remains(i, s, t.right, Under(t.node, t.left, ls), rs, visited + 1))
  }

  lemma TurnStep(i: int, s: Shape, cur: Shape, ls: Chain, rs: Chain, visited: nat)
    requires Remains(i, s, cur, ls, rs, visited)
    ensures var t, visited' := Turned(i, cur), visited + if Turned(i, cur) == cur then 0 else 1;
      && (i < cur.node.item ==> HalfLeft(i, s, t, ls, rs, visited'))
      && (i > cur.node.item ==> HalfRight(i, s, t, ls, rs, visited'))
  {
    TurnKeeps(i, cur);
    VisitsOfTurn(i, cur);
  }

  /** A turn to the right leaves the two trees under construction alone. */
  method TurnRight(i: int, N: Tree, l: Tree, r: Tree, t: Tree,
                   ghost s: Shape, ghost cur: Shape, ghost ls: Chain, ghost rs: Chain, ghost visited: nat,
                   ghost nodes: set<Tree>)
    returns (t': Tree, ghost cur': Shape)
    requires nodes == Nodes(s) && State(N, l, r, t, cur, ls, rs) && Remains(i, s, cur, ls, rs, visited)
    requires cur.left.Join? && i < cur.node.item && i < cur.left.node.item
    modifies nodes
    ensures State(N, l, r, t', cur', ls, rs) && HalfLeft(i, s, cur', ls, rs, visited + 1) && Size(cur') == Size(cur)
  {
    TurnStep(i, s, cur, ls, rs, visited);
    VisitsOfTurn(i, cur);
    t', cur' := RotateRight(t, cur);
    assert cur' == Turned(i, cur);
  }

  method TurnLeft(i: int, N: Tree, l: Tree, r: Tree, t: Tree,
                  ghost s: Shape, ghost cur: Shape, ghost ls: Chain, ghost rs: Chain, ghost visited: nat,
                  ghost nodes: set<Tree>)
    returns (t': Tree, ghost cur': Shape)
    requires nodes == Nodes(s) && State(N, l, r, t, cur, ls, rs) && Remains(i, s, cur, ls, rs, visited)
    requires cur.right.Join? && i > cur.node.item && i > cur.right.node.item
    modifies nodes
    ensures State(N, l, r, t', cur', ls, rs) && HalfRight(i, s, cur', ls, rs, visited + 1) && Size(cur') == Size(cur)
  {
    TurnStep(i, s, cur, ls, rs, visited);
    VisitsOfTurn(i, cur);
    t', cur' := RotateLeft(t, cur);
    assert cur' == Turned(i, cur);
  }

  lemma RootLinked(t: Tree, cur: Shape)
    requires Linked(t, cur)
    ensures cur.Join? && t == cur.node && (t.left == null <==> cur.left.Empty?)
      && (t.right == null <==> cur.right.Empty?)
    ensures t.left != null ==> t.left == cur.left.node
    ensures t.right != null ==> t.right == cur.right.node
  {
    assert Linked(t.left, cur.left) && Linked(t.right, cur.right);
  }

  /** The branch of the loop for i below the item at hand. */
  method StepLeft(i: int, N: Tree, l: Tree, r0: Tree, t0: Tree,
                  ghost s: Shape, ghost cur0: Shape, ghost ls: Chain, ghost rs0: Chain, ghost visited0: nat,
                  ghost nodes: set<Tree>)
    returns (done: bool, r: Tree, t: Tree, ghost cur: Shape, ghost rs: Chain, ghost visited: nat)
    requires nodes == Nodes(s) && State(N, l, r0, t0, cur0, ls, rs0) && Remains(i, s, cur0, ls, rs0, visited0)
      && i < t0.item
    modifies nodes, N
    ensures State(N, l, r, t, cur, ls, rs)
    ensures if done then Stops(i, s, cur, ls, rs, visited)
      else Remains(i, s, cur, ls, rs, visited) && Size(cur) < Size(cur0)
  {
    r, t, cur, rs, visited := r0, t0, cur0, rs0, visited0;
    TurnStep(i, s, cur, ls, rs, visited);
    RootLinked(t, cur);
    if t.left == null {
      return true, r, t, cur, rs, visited;
    }
    if i < t.left.item {
      t, cur := TurnRight(i, N, l, r, t, s, cur, ls, rs, visited, nodes);
      visited := visited + 1;
      RootLinked(t, cur);
      if t.left == null {
        return true, r, t, cur, rs, visited;
      }
    }
    assert HalfLeft(i, s, cur, ls, rs, visited);
    r, t, rs := LinkRight(N, l, r, t, cur, ls, rs);
    cur, visited, done := cur.left, visited + 1, false;
  }

  /** The branch of the loop for i above the item at hand. */
  method StepRight(i: int, N: Tree, l0: Tree, r: Tree, t0: Tree,
                   ghost s: Shape, ghost cur0: Shape, ghost ls0: Chain, ghost rs: Chain, ghost visited0: nat,
                   ghost nodes: set<Tree>)
    returns (done: bool, l: Tree, t: Tree, ghost cur: Shape, ghost ls: Chain, ghost visited: nat)
    requires nodes == Nodes(s) && State(N, l0, r, t0, cur0, ls0, rs) && Remains(i, s, cur0, ls0, rs, visited0)
      && i > t0.item
    modifies nodes, N
    ensures State(N, l, r, t, cur, ls, rs)
    ensures if done then Stops(i, s, cur, ls, rs, visited)
      else Remains(i, s, cur, ls, rs, visited) && Size(cur) < Size(cur0)
  {
    l, t, cur, ls, visited := l0, t0, cur0, ls0, visited0;
    TurnStep(i, s, cur, ls, rs, visited);
    RootLinked(t, cur);
    if t.right == null {
      return true, l, t, cur, ls, visited;
    }
    if i > t.right.item {
      t, cur := TurnLeft(i, N, l, r, t, s, cur, ls, rs, visited, nodes);
      visited := visited + 1;
      RootLinked(t, cur);
      if t.right == null {
        return true, l, t, cur, ls, visited;
      }
    }
    assert HalfRight(i, s, cur, ls, rs, visited);
    l, t, ls := LinkLeft(N, l, r, t, cur, ls, rs);
    cur, visited, done := cur.right, visited + 1, false;
  }

  /** The same branch as Sedgewick would have written it. */
  method SedgewickStepLeft(i: int, N: Tree, l: Tree, r0: Tree, t0: Tree,
                           ghost s: Shape, ghost cur0: Shape, ghost ls: Chain, ghost rs0: Chain, ghost visited0: nat,
                           ghost nodes: set<Tree>)
    returns (done: bool, r: Tree, t: Tree, ghost cur: Shape, ghost rs: Chain, ghost visited: nat)
    requires nodes == Nodes(s) && State(N, l, r0, t0, cur0, ls, rs0) && Remains(i, s, cur0, ls, rs0, visited0)
      && i < t0.item
    modifies nodes, N
    ensures State(N, l, r, t, cur, ls, rs)
    ensures if done then Stops(i, s, cur, ls, rs, visited)
      else Remains(i, s, cur, ls, rs, visited) && Size(cur) < Size(cur0)
  {
    r, t, cur, rs, visited := r0, t0, cur0, rs0, visited0;
    TurnStep(i, s, cur, ls, rs, visited);
    RootLinked(t, cur);
    if t.left != null && i < t.left.item {
      t, cur := TurnRight(i, N, l, r, t, s, cur, ls, rs, visited, nodes);
      visited := visited + 1;
      RootLinked(t, cur);
    }
    assert HalfLeft(i, s, cur, ls, rs, visited);
    if t.left == null {
      return true, r, t, cur, rs, visited;
    }
    r, t, rs := LinkRight(N, l, r, t, cur, ls, rs);
    cur, visited, done := cur.left, visited + 1, false;
  }

  method SedgewickStepRight(i: int, N: Tree, l0: Tree, r: Tree, t0: Tree,
                            ghost s: Shape, ghost cur0: Shape, ghost ls0: Chain, ghost rs: Chain, ghost visited0: nat,
                            ghost nodes: set<Tree>)
    returns (done: bool, l: Tree, t: Tree, ghost cur: Shape, ghost ls: Chain, ghost visited: nat)
    requires nodes == Nodes(s) && State(N, l0, r, t0, cur0, ls0, rs) && Remains(i, s, cur0, ls0, rs, visited0)
      && i > t0.item
    modifies nodes, N
    ensures State(N, l, r, t, cur, ls, rs)
    ensures if done then Stops(i, s, cur, ls, rs, visited)
      else Remains(i, s, cur, ls, rs, visited) && Size(cur) < Size(cur0)
  {
    l, t, cur, ls, visited := l0, t0, cur0, ls0, visited0;
    TurnStep(i, s, cur, ls, rs, visited);
    RootLinked(t, cur);
    if t.right != null && i > t.right.item {
      t, cur := TurnLeft(i, N, l, r, t, s, cur, ls, rs, visited, nodes);
      visited := visited + 1;
      RootLinked(t, cur);
    }
    assert HalfRight(i, s, cur, ls, rs, visited);
    if t.right == null {
      return true, l, t, cur, ls, visited;
    }
    l, t, ls := LinkLeft(N, l, r, t, cur, ls, rs);
    cur, visited, done := cur.right, visited + 1, false;
  }

  /** splay: the nodes become those of the splayed tree, after a visit to each node of a binary search. */
  method Splay(i: int, t0: Tree?, ghost s: Shape, ghost nodes: set<Tree>) returns (t: Tree?, ghost visited: nat)
    requires Linked(t0, s) && Unique(s) && nodes == Nodes(s)
    modifies nodes
    ensures Linked(t, Splayed(i, s)) && visited == Visits(i, s)
  {
    if t0 == null {
      return null, 0;
    }
    var N := new Tree(0);
    N.left, N.right := null, null;
    var root: Tree, l, r, done := t0, N, N, false;
    ghost var cur, ls, rs := s, Top, Top;
    visited := 0;
    while !done
      invariant fresh(N) && State(N, l, r, root, cur, ls, rs)
      invariant if done then Stops(i, s, cur, ls, rs, visited) else Remains(i, s, cur, ls, rs, visited)
      decreases if done then 0 else Size(cur) + 1
    {
      RootLinked(root, cur);
      if i < root.item {
        done, r, root, cur, rs, visited := StepLeft(i, N, l, r, root, s, cur, ls, rs, visited, nodes);
      } else if i > root.item {
        done, l, root, cur, ls, visited := StepRight(i, N, l, r, root, s, cur, ls, rs, visited, nodes);
      } else {
        done := true;
      }
    }
    visited := visited + 1;
    Assemble(N, l, r, root, cur, ls, rs);
    t := root;
  }

  /** sedgewickized_splay: the very same tree, node by node. */
  method SedgewickizedSplay(i: int, t0: Tree?, ghost s: Shape, ghost nodes: set<Tree>)
    returns (t: Tree?, ghost visited: nat)
    requires Linked(t0, s) && Unique(s) && nodes == Nodes(s)
    modifies nodes
    ensures Linked(t, Splayed(i, s)) && visited == Visits(i, s)
  {
    if t0 == null {
      return null, 0;
    }
    var N := new Tree(0);
    N.left, N.right := null, null;
    var root: Tree, l, r, done := t0, N, N, false;
    ghost var cur, ls, rs := s, Top, Top;
    visited := 0;
    while !done
      invariant fresh(N) && State(N, l, r, root, cur, ls, rs)
      invariant if done then Stops(i, s, cur, ls, rs, visited) else Remains(i, s, cur, ls, rs, visited)
      decreases if done then 0 else Size(cur) + 1
    {
      RootLinked(root, cur);
      if i < root.item {
        done, r, root, cur, rs, visited := SedgewickStepLeft(i, N, l, r, root, s, cur, ls, rs, visited, nodes);
      } else if i > root.item {
        done, l, root, cur, ls, visited := SedgewickStepRight(i, N, l, r, root, s, cur, ls, rs, visited, nodes);
      } else {
        done := true;
      }
    }
    visited := visited + 1;
    Assemble(N, l, r, root, cur, ls, rs);
    t := root;
  }

  /** The tree without its root; what the root pointed at is all there is. */
  lemma RootParts(t: Tree?, s: Shape)
    requires Linked(t, s) && s.Join? && Unique(s)
    ensures t == s.node && Linked(t.left, s.left) && Linked(t.right, s.right)
    ensures Nodes(s.left) <= Nodes(s) && Nodes(s.right) <= Nodes(s) && Unique(s.left) && Unique(s.right)
    ensures t !in Nodes(s.left) && t !in Nodes(s.right) && Nodes(s.left) !! Nodes(s.right)
  {}

  /** The new node becomes the root, the old root with its right half its right child. */
  method PutAbove(n: Tree, root: Tree, ghost a: Shape, ghost x: Tree, ghost b: Shape)
    requires Linked(root, Join(a, x, b)) && Unique(Join(a, x, b)) && n !in Nodes(Join(a, x, b))
    modifies n, root
    ensures Linked(n, Join(a, n, Join(Empty, x, b)))
  {
    RootParts(root, Join(a, x, b));
    n.left := root.left;
    n.right := root;
    root.left := null;
    assert Linked(root, Join(Empty, x, b)) && Linked(n.left, a);
  }

  method PutBelow(n: Tree, root: Tree, ghost a: Shape, ghost x: Tree, ghost b: Shape)
    requires Linked(root, Join(a, x, b)) && Unique(Join(a, x, b)) && n !in Nodes(Join(a, x, b))
    modifies n, root
    ensures Linked(n, Join(Join(a, x, Empty), n, b))
  {
    RootParts(root, Join(a, x, b));
    n.right := root.right;
    n.left := root;
    root.right := null;
    assert Linked(root, Join(a, x, Empty)) && Linked(n.right, b);
  }

  /** What is left of a splayed tree without its root: the second splay leaves no right child, so nothing is lost. */
  method DropRoot(i: int, t: Tree, ghost p: Parts, ghost left: set<Tree>, ghost right: set<Tree>)
    returns (x: Tree?, ghost rest: Shape, ghost visited: nat)
    requires Linked(t, Whole(p)) && Unique(Whole(p)) && Search(Whole(p)) && i == t.item && left == Nodes(p.small)
      && right == Nodes(p.great)
    modifies left
    ensures Linked(x, rest) && visited == Visits(i, p.small)
    ensures rest == if p.small.Empty? then p.great else Join(Split(i, p.small).small, Split(i, p.small).root, p.great)
  {
    RootParts(t, Whole(p));
    if t.left == null {
      return t.right, p.great, 0;
    }
    RootRemoved(p.small, t, p.great, i);
    x, visited := Splay(i, t.left, p.small, left);
    ghost var q := Split(i, p.small);
    SplitKeeps(i, p.small);
    assert Linked(t.right, p.great);
    HangRight(x, t.right, q.small, q.root, p.great);
    rest := Join(q.small, q.root, p.great);
  }

  /** The right tree of the removed root becomes the right child of the new one. */
  method HangRight(x: Tree, r: Tree?, ghost a: Shape, ghost x': Tree, ghost b: Shape)
    requires Linked(x, Join(a, x', Empty)) && Linked(r, b) && x' !in Nodes(a) && x' !in Nodes(b)
    modifies x
    ensures Linked(x, Join(a, x', b))
  {
    assert x == x' && Linked(x.left, a) && x.right == null;
    x.right := r;
  }

  /** The program's counter, and the operations on a tree that it counts. */
  class Program {
    var size: int

    /** insert: the item is in the tree afterwards, at the root, and size counts the nodes again. */
    method Insert(i: int, t0: Tree?, ghost s: Shape, ghost nodes: set<Tree>)
      returns (t: Tree, ghost s': Shape, ghost added: Tree, ghost visited: nat)
      requires Linked(t0, s) && Search(s) && Unique(s) && size == Size(s) && nodes == Nodes(s)
      modifies this`size, nodes
      ensures fresh(added) && added.item == i && s' == After(SplayCost.Insert(added), s)
        && visited == Cost(SplayCost.Insert(added), s)
      ensures Linked(t, s') && t.item == i && size == Size(s')
      ensures if i in Items(s) then SameNodes(s, s') else WithNode(s', s, added)
    {
      var new_ := new Tree(i);
      added, s' := new_, Inserted(i, s, new_);
      InsertedMeaning(i, s, added);
      if t0 == null {
        new_.left, new_.right := null, null;
        size := 1;
        return new_, s', added, 0;
      }
      var root;
      root, visited := Splay(i, t0, s, nodes);
      SplitMeaning(i, s);
      ghost var p := Split(i, s);
      RootParts(root, Whole(p));
      if i < root.item {
        PutAbove(new_, root, p.small, p.root, p.great);
        assert s' == Join(p.small, new_, Join(Empty, p.root, p.great));
        size := size + 1;
        t := new_;
      } else if i > root.item {
        PutBelow(new_, root, p.small, p.root, p.great);
        assert s' == Join(Join(p.small, p.root, Empty), new_, p.great);
        size := size + 1;
        t := new_;
      } else {
        t := root;
      }
    }

    /** delete: the item is not in the tree afterwards; no other node is lost, and size counts the nodes again. */
    method Delete(i: int, t0: Tree?, ghost s: Shape, ghost nodes: set<Tree>)
      returns (t: Tree?, ghost s': Shape, ghost visited: nat)
      requires Linked(t0, s) && Search(s) && Unique(s) && size == Size(s) && nodes == Nodes(s)
      modifies this`size, nodes
      ensures s' == After(SplayCost.Delete(i), s) && visited == Cost(SplayCost.Delete(i), s)
      ensures Linked(t, s') && size == Size(s')
      ensures if i in Items(s) then WithoutItem(s', s, i) else SameNodes(s, s')
    {
      s' := Deleted(i, s);
      DeletedMeaning(i, s);
      if t0 == null {
        return null, s', 0;
      }
      t, visited := Splay(i, t0, s, nodes);
      SplitMeaning(i, s);
      ghost var p := Split(i, s);
      RootParts(t, Whole(p));
      if i == t.item {
        ghost var left: set<Tree> := set n | n in nodes && n in Nodes(p.small);
        ghost var rest, more;
        ghost var right: set<Tree> := set n | n in nodes && n in Nodes(p.great);
        assert left == Nodes(p.small) && right == Nodes(p.great);
        t, rest, more := DropRoot(i, t, p, left, right);
        visited := visited + more;
        size := size - 1;
      }
    }
  }
}
