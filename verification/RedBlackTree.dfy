/** The pointer operations of the red-black macros of tree.h, proved against TreeShape. */
module RedBlackTree {
  import opened TreeShape

  ghost predicate Mirrored(cmp: (Key, Key) -> int, a: Key, b: Key) {
    cmp(a, b) < 0 <==> cmp(b, a) > 0
  }

  ghost predicate Chained(cmp: (Key, Key) -> int, a: Key, b: Key, c: Key) {
    cmp(a, b) <= 0 && cmp(b, c) <= 0 ==> cmp(a, c) <= 0
  }

  /** `cmp` is the three-way comparison of a total preorder. */
  ghost predicate TotalOrder(cmp: (Key, Key) -> int) {
    && (forall a, b :: Mirrored(cmp, a, b))
    && (forall a, b, c :: Chained(cmp, a, b, c))
  }

  ghost predicate Ordered(cmp: (Key, Key) -> int, s: seq<Elem>) {
    forall i, j :: 0 <= i < j < |s| ==> cmp(s[i].key, s[j].key) < 0
  }

  lemma LessTrans(cmp: (Key, Key) -> int, a: Key, b: Key, c: Key)
    requires TotalOrder(cmp) && cmp(a, b) <= 0 && cmp(b, c) <= 0 && (cmp(a, b) < 0 || cmp(b, c) < 0)
    ensures cmp(a, c) < 0
  {
    assert Mirrored(cmp, a, b) && Mirrored(cmp, b, a) && Mirrored(cmp, a, c) && Mirrored(cmp, c, a);
    assert Mirrored(cmp, b, c) && Mirrored(cmp, c, b);
    assert Chained(cmp, a, b, c) && Chained(cmp, b, c, a) && Chained(cmp, c, a, b);
  }

  /** One comparison decides against a whole end of an ordered sequence. */
  lemma Halves(cmp: (Key, Key) -> int, s: seq<Elem>, i: nat, key: Key)
    requires TotalOrder(cmp) && Ordered(cmp, s) && i < |s|
    ensures cmp(key, s[i].key) <= 0 ==> forall j :: i < j < |s| ==> cmp(key, s[j].key) < 0
    ensures cmp(key, s[i].key) >= 0 ==> forall j :: 0 <= j < i ==> cmp(key, s[j].key) > 0
  {
    if cmp(key, s[i].key) <= 0 {
      forall j | i < j < |s| ensures cmp(key, s[j].key) < 0 {
        LessTrans(cmp, key, s[i].key, s[j].key);
      }
    }
    if cmp(key, s[i].key) >= 0 {
      forall j | 0 <= j < i ensures cmp(key, s[j].key) > 0 {
        assert Mirrored(cmp, s[i].key, key) && Mirrored(cmp, key, s[i].key) && Mirrored(cmp, s[j].key, key);
        LessTrans(cmp, s[j].key, s[i].key, key);
      }
    }
  }

  ghost predicate NoneEqual(cmp: (Key, Key) -> int, s: seq<Elem>, key: Key) {
    forall j :: 0 <= j < |s| ==> cmp(key, s[j].key) != 0
  }

  /** The search for `key` has ruled out everything before `lo` and from `hi` on. */
  ghost predicate Narrowed(cmp: (Key, Key) -> int, s: seq<Elem>, lo: nat, hi: int, key: Key) {
    && lo <= hi <= |s|
    && (forall j :: 0 <= j < lo ==> cmp(key, s[j].key) > 0)
    && (forall j :: hi <= j < |s| ==> cmp(key, s[j].key) < 0)
  }

  ghost predicate Searching(cmp: (Key, Key) -> int, p: Path, t: Tree, whole: Tree, key: Key) {
    && Plug(p, t) == whole
    && Narrowed(cmp, InOrder(whole), |Before(p)|, |InOrder(whole)| - |After(p)|, key)
  }

  /** Where the node stands that the search looks at, and what goes before and after its subtrees. */
  lemma SearchNode(p: Path, t: Tree) returns (m: nat)
    requires t.Node?
    ensures var s := InOrder(Plug(p, t));
      && m < |s| && s[m] == t.elem
      && |Before(InRight(t.left, t.elem, t.color, p))| == m + 1
      && After(InRight(t.left, t.elem, t.color, p)) == After(p)
      && |After(InLeft(t.elem, t.color, t.right, p))| == |s| - m
      && Before(InLeft(t.elem, t.color, t.right, p)) == Before(p)
  {
    m := |Before(p)| + |InOrder(t.left)|;
    RootIndex(p, t);
  }

  /** A step of the search keeps narrowing, and equality names the found position. */
  lemma SearchStep(cmp: (Key, Key) -> int, p: Path, t: Tree, whole: Tree, key: Key)
    requires TotalOrder(cmp) && Ordered(cmp, InOrder(whole)) && t.Node? && Searching(cmp, p, t, whole, key)
    ensures t.elem in InOrder(whole)
    ensures cmp(key, t.elem.key) < 0 ==> Searching(cmp, InLeft(t.elem, t.color, t.right, p), t.left, whole, key)
    ensures cmp(key, t.elem.key) > 0 ==> Searching(cmp, InRight(t.left, t.elem, t.color, p), t.right, whole, key)
  {
    var s := InOrder(whole);
    var m := SearchNode(p, t);
    Halves(cmp, s, m, key);
    if cmp(key, t.elem.key) < 0 {
      PlugInOrder(InLeft(t.elem, t.color, t.right, p), t.left);
    } else if cmp(key, t.elem.key) > 0 {
      PlugInOrder(InRight(t.left, t.elem, t.color, p), t.right);
    }
  }

  /** The nodes of `t` carry exactly the links and colours that the shape `t` prescribes. */
  ghost predicate Linked(t: Tree, parent: Elem?)
    reads Elems(t)`left, Elems(t)`right, Elems(t)`parent, Elems(t)`color
  {
    t.Node? ==>
      && t.elem.left == Root(t.left) && t.elem.right == Root(t.right)
      && t.elem.parent == parent && t.elem.color == t.color
      && Linked(t.left, t.elem) && Linked(t.right, t.elem)
  }

  ghost function Only(e: Elem?): set<Elem> {
    if e == null then {} else {e}
  }

  class RBTree {
    const cmp: (Key, Key) -> int
    var root: Elem?
    ghost var tree: Tree
    ghost var repr: set<Elem>

    /** RB_INIT. */
    constructor (cmp: (Key, Key) -> int)
      requires TotalOrder(cmp)
      ensures Valid() && tree == Leaf && repr == {} && this.cmp == cmp
    {
      this.cmp := cmp;
      root := null;
      tree := Leaf;
      repr := {};
    }

    ghost predicate PathLinked(p: Path, hole: Elem?)
      reads this`root, PathElems(p)`left, PathElems(p)`right, PathElems(p)`parent, PathElems(p)`color
    {
      match p
      case Top => root == hole
      case InLeft(e, c, r, up) =>
        && e.left == hole && e.right == Root(r) && e.parent == ParentOf(up) && e.color == c
        && Linked(r, e) && PathLinked(up, e)
      case InRight(l, e, c, up) =>
        && e.left == Root(l) && e.right == hole && e.parent == ParentOf(up) && e.color == c
        && Linked(l, e) && PathLinked(up, e)
    }

    /** The heap holds the tree `Plug(p, t)`, seen from the subtree `t`, and nothing else. */
    ghost predicate At(p: Path, t: Tree)
      reads this`root, this`repr, PathElems(p), Elems(t)
    {
      && repr == PathElems(p) + Elems(t)
      && PathLinked(p, Root(t)) && Linked(t, ParentOf(p))
      && PathDistinct(p) && Distinct(t) && PathElems(p) !! Elems(t)
    }

    // ----- Moving the point of view

    lemma Up(p: Path, t: Tree)
      requires At(p, t) && !p.Top?
      ensures At(p.up, Around(p, t))
    {
      assert Elems(Around(p, t)) == Elems(t) + {p.elem} + Elems(Side(p));
    }

    lemma DownLeft(p: Path, t: Tree)
      requires At(p, t) && t.Node?
      ensures At(InLeft(t.elem, t.color, t.right, p), t.left)
    {}

    lemma DownRight(p: Path, t: Tree)
      requires At(p, t) && t.Node?
      ensures At(InRight(t.left, t.elem, t.color, p), t.right)
    {}

    lemma {:induction false} ToTop(p: Path, t: Tree)
      requires At(p, t)
      ensures At(Top, Plug(p, t))
      decreases p
    {
      if p.Top? {
      } else {
        Up(p, t);
        ToTop(p.up, Around(p, t));
      }
    }

    lemma {:induction false} RootOnPath(p: Path, hole: Elem?)
      requires PathLinked(p, hole) && !p.Top?
      ensures root != null && root in PathElems(p)
      decreases p
    {
      if p.up.Top? {
      } else {
        RootOnPath(p.up, p.elem);
      }
    }

    lemma {:induction false} FromTop(p: Path, t: Tree)
      requires At(Top, Plug(p, t))
      ensures At(p, t)
      decreases p
    {
      if p.Top? {
      } else {
        FromTop(p.up, Around(p, t));
        if p.InLeft? {
          DownLeft(p.up, Around(p, t));
        } else {
          DownRight(p.up, Around(p, t));
        }
      }
    }

    lemma WhichSide(p: Path, t: Tree)
      requires At(p, t) && !p.Top? && (t.Node? || Side(p).Node?)
      ensures p.elem.left == Root(t) <==> p.InLeft?
      ensures p.elem.right == Root(t) <==> p.InRight?
    {
      assert t.Node? ==> t.elem in Elems(t);
      assert Side(p).Node? ==> Side(p).elem in Elems(Side(p));
    }

    // ----- RB_ROTATE_LEFT, RB_ROTATE_RIGHT and single colour changes

    /** Hangs `child` where `elm` hung. */
    method SwapChild(parent: Elem?, elm: Elem, child: Elem?, ghost p: Path)
      requires PathLinked(p, elm) && PathDistinct(p) && elm !in PathElems(p) && parent == ParentOf(p)
      modifies this`root, PathElems(p)`left, PathElems(p)`right
      ensures PathLinked(p, child)
    {
      if parent != null {
        if parent.left == elm {
          parent.left := child;
        } else {
          parent.right := child;
        }
      } else {
        root := child;
      }
    }

    method RelinkLeft(elm: Elem, tmp: Elem, ghost p: Path, ghost b: Tree)
      requires PathLinked(p, elm) && PathDistinct(p) && Distinct(b)
      requires elm.right == tmp && tmp.left == Root(b) && elm.parent == ParentOf(p) && elm != tmp
      requires Linked(b, tmp)
      requires elm !in PathElems(p) + Elems(b) && tmp !in PathElems(p) + Elems(b)
      requires PathElems(p) !! Elems(b)
      requires elm in repr && tmp in repr && PathElems(p) + Elems(b) <= repr
      modifies this`root, elm`right, elm`parent, tmp`left, tmp`parent, Only(Root(b))`parent
      modifies PathElems(p)`left, PathElems(p)`right
      ensures PathLinked(p, tmp)
      ensures elm.right == Root(b) && elm.parent == tmp
      ensures tmp.left == elm && tmp.parent == ParentOf(p)
      ensures Linked(b, elm)
    {
      elm.right := tmp.left;
      if elm.right != null {
        tmp.left.parent := elm;
      }
      tmp.parent := elm.parent;
      SwapChild(elm.parent, elm, tmp, p);
      tmp.left := elm;
      elm.parent := tmp;
    }

    method RelinkRight(elm: Elem, tmp: Elem, ghost p: Path, ghost b: Tree)
      requires PathLinked(p, elm) && PathDistinct(p) && Distinct(b)
      requires elm.left == tmp && tmp.right == Root(b) && elm.parent == ParentOf(p) && elm != tmp
      requires Linked(b, tmp)
      requires elm !in PathElems(p) + Elems(b) && tmp !in PathElems(p) + Elems(b)
      requires PathElems(p) !! Elems(b)
      requires elm in repr && tmp in repr && PathElems(p) + Elems(b) <= repr
      modifies this`root, elm`left, elm`parent, tmp`right, tmp`parent, Only(Root(b))`parent
      modifies PathElems(p)`left, PathElems(p)`right
      ensures PathLinked(p, tmp)
      ensures elm.left == Root(b) && elm.parent == tmp
      ensures tmp.right == elm && tmp.parent == ParentOf(p)
      ensures Linked(b, elm)
    {
      elm.left := tmp.right;
      if elm.left != null {
        tmp.right.parent := elm;
      }
      tmp.parent := elm.parent;
      SwapChild(elm.parent, elm, tmp, p);
      tmp.right := elm;
      elm.parent := tmp;
    }

    method RotateLeft(elm: Elem, ghost p: Path, ghost t: Tree) returns (tmp: Elem)
      requires At(p, t) && t.Node? && t.elem == elm && t.right.Node?
      modifies this`root, repr`left, repr`right, repr`parent
      ensures tmp == t.right.elem && At(p, TurnLeft(t)) && InOrder(TurnLeft(t)) == InOrder(t)
    {
      TurnLeftKeeps(t);
      TurnLeftOrder(t);
      tmp := elm.right;
      assert Linked(t.right, elm);
      RelinkLeft(elm, tmp, p, t.right.left);
    }

    method RotateRight(elm: Elem, ghost p: Path, ghost t: Tree) returns (tmp: Elem)
      requires At(p, t) && t.Node? && t.elem == elm && t.left.Node?
      modifies this`root, repr`left, repr`right, repr`parent
      ensures tmp == t.left.elem && At(p, TurnRight(t)) && InOrder(TurnRight(t)) == InOrder(t)
    {
      TurnRightKeeps(t);
      TurnRightOrder(t);
      tmp := elm.left;
      assert Linked(t.left, elm);
      RelinkRight(elm, tmp, p, t.left.right);
    }

    method SetColor(elm: Elem, color: Color, ghost p: Path, ghost t: Tree)
      requires At(p, t) && t.Node? && t.elem == elm
      modifies elm`color
      ensures At(p, Paint(t, color))
    {
      elm.color := color;
    }

    // ----- RB_INSERT_COLOR

    /** The recolouring of parent, uncle and grandparent; parent and uncle are the grandparent's children. */
    method FlipColors(left: Elem, right: Elem, gparent: Elem, ghost q: Path, ghost g: Tree)
      requires At(q, g) && g.Node? && g.elem == gparent && g.left.Node? && g.right.Node?
      requires left == g.left.elem && right == g.right.elem
      modifies repr`color
      ensures At(q, Flipped(g))
    {
      ghost var a, b := g.left, g.right;
      DownLeft(q, g);
      SetColor(left, Black, InLeft(gparent, g.color, b, q), a);
      Up(InLeft(gparent, g.color, b, q), Paint(a, Black));
      DownRight(q, g.(left := Paint(a, Black)));
      SetColor(right, Black, InRight(Paint(a, Black), gparent, g.color, q), b);
      Up(InRight(Paint(a, Black), gparent, g.color, q), Paint(b, Black));
      SetColor(gparent, Red, q, g.(left := Paint(a, Black), right := Paint(b, Black)));
    }

    /** RB_SET_BLACKRED(parent, gparent) and the rotation of the grandparent, parent on its left. */
    method LiftLeft(parent: Elem, gparent: Elem, ghost q: Path, ghost g: Tree)
      requires At(q, g) && g.Node? && g.elem == gparent && g.left.Node? && g.left.elem == parent
      modifies this`root, repr`left, repr`right, repr`parent, repr`color
      ensures At(q, LiftedLeft(g))
    {
      DownLeft(q, g);
      SetColor(parent, Black, InLeft(gparent, g.color, g.right, q), g.left);
      Up(InLeft(gparent, g.color, g.right, q), Paint(g.left, Black));
      SetColor(gparent, Red, q, g.(left := Paint(g.left, Black)));
      var _ := RotateRight(gparent, q, Node(Paint(g.left, Black), gparent, Red, g.right));
    }

    /** RB_SET_BLACKRED(parent, gparent) and the rotation of the grandparent, parent on its right. */
    method LiftRight(parent: Elem, gparent: Elem, ghost q: Path, ghost g: Tree)
      requires At(q, g) && g.Node? && g.elem == gparent && g.right.Node? && g.right.elem == parent
      modifies this`root, repr`left, repr`right, repr`parent, repr`color
      ensures At(q, LiftedRight(g))
    {
      DownRight(q, g);
      SetColor(parent, Black, InRight(g.left, gparent, g.color, q), g.right);
      Up(InRight(g.left, gparent, g.color, q), Paint(g.right, Black));
      SetColor(gparent, Red, q, g.(right := Paint(g.right, Black)));
      var _ := RotateLeft(gparent, q, Node(g.left, gparent, Red, Paint(g.right, Black)));
    }

    method InsertFixLeft(elm: Elem, parent: Elem, gparent: Elem, ghost p: Path, ghost t: Tree)
      returns (next: Elem, ghost q: Path, ghost s: Tree)
      requires At(p, t) && RedBelow(p, t) && Root(t) == elm
      requires !p.Top? && p.color.Red? && p.elem == parent && p.up.InLeft? && p.up.elem == gparent
      modifies this`root, repr`left, repr`right, repr`parent, repr`color
      ensures At(q, s) && RedBelow(q, s) && Root(s) == next && Depth(q) < Depth(p)
      ensures InOrder(Plug(q, s)) == InOrder(Plug(p, t))
    {
      ghost var up := p.up.up;
      ghost var g := Around(p.up, Around(p, t));
      Up(p, t);
      Up(p.up, Around(p, t));
      var tmp := gparent.right;
      if tmp != null && tmp.color == Red {
        FlipColors(parent, tmp, gparent, up, g);
        FlipSound(p, t);
        next, q, s := gparent, up, Flipped(g);
        SameOrder(up, g, s);
      } else {
        assert !IsRed(g.right);
        next := elm;
        var par := parent;
        ghost var h := g;
        if parent.right == elm {
          var _ := RotateLeft(parent, p.up, Around(p, t));
          h := g.(left := TurnLeft(g.left));
          Up(p.up, TurnLeft(g.left));
          next, par := parent, elm;
        }
        LiftLeft(par, gparent, up, h);
        LiftLeftSound(p, t);
        ghost var r := LiftedLeft(h);
        SameOrder(up, g, r);
        DownLeft(up, r);
        q, s := InLeft(par, Black, r.right, up), r.left;
      }
    }

    method InsertFixRight(elm: Elem, parent: Elem, gparent: Elem, ghost p: Path, ghost t: Tree)
      returns (next: Elem, ghost q: Path, ghost s: Tree)
      requires At(p, t) && RedBelow(p, t) && Root(t) == elm
      requires !p.Top? && p.color.Red? && p.elem == parent && p.up.InRight? && p.up.elem == gparent
      modifies this`root, repr`left, repr`right, repr`parent, repr`color
      ensures At(q, s) && RedBelow(q, s) && Root(s) == next && Depth(q) < Depth(p)
      ensures InOrder(Plug(q, s)) == InOrder(Plug(p, t))
    {
      ghost var up := p.up.up;
      ghost var g := Around(p.up, Around(p, t));
      Up(p, t);
      Up(p.up, Around(p, t));
      var tmp := gparent.left;
      if tmp != null && tmp.color == Red {
        FlipColors(tmp, parent, gparent, up, g);
        FlipSound(p, t);
        next, q, s := gparent, up, Flipped(g);
        SameOrder(up, g, s);
      } else {
        assert !IsRed(g.left);
        next := elm;
        var par := parent;
        ghost var h := g;
        if parent.left == elm {
          var _ := RotateRight(parent, p.up, Around(p, t));
          h := g.(right := TurnRight(g.right));
          Up(p.up, TurnRight(g.right));
          next, par := parent, elm;
        }
        LiftRight(par, gparent, up, h);
        LiftRightSound(p, t);
        ghost var r := LiftedRight(h);
        SameOrder(up, g, r);
        DownRight(up, r);
        q, s := InRight(r.left, par, Black, up), r.right;
      }
    }

    method InsertColor(elm: Elem, ghost p: Path, ghost t: Tree) returns (ghost whole: Tree, ghost rounds: nat)
      requires At(p, t) && RedBelow(p, t) && Root(t) == elm
      modifies this`root, repr`left, repr`right, repr`parent, repr`color
      ensures At(Top, whole) && Sound(Top, whole)
      ensures InOrder(whole) == InOrder(Plug(p, t)) && rounds <= Depth(p)
    {
      var e := elm;
      rounds := 0;
      ghost var q, s := p, t;
      while e.parent != null && e.parent.color == Red
        invariant At(q, s) && RedBelow(q, s) && Root(s) == e
        invariant InOrder(Plug(q, s)) == InOrder(Plug(p, t)) && rounds + Depth(q) <= Depth(p)
        decreases Depth(q)
      {
        rounds := rounds + 1;
        var parent := e.parent;
        var gparent := parent.parent;
        Up(q, s);
        WhichSide(q.up, Around(q, s));
        if parent == gparent.left {
          e, q, s := InsertFixLeft(e, parent, gparent, q, s);
        } else {
          e, q, s := InsertFixRight(e, parent, gparent, q, s);
        }
      }
      whole := BlackenRoot(q, s);
      SameOrder(Top, whole, Plug(q, s));
    }

    method BlackenRoot(ghost q: Path, ghost s: Tree) returns (ghost whole: Tree)
      requires At(q, s) && RedBelow(q, s) && (q.Top? || q.color.Black?)
      modifies repr`color
      ensures At(Top, whole) && Sound(Top, whole) && InOrder(whole) == InOrder(Plug(q, s))
    {
      ToTop(q, s);
      if !q.Top? {
        SoundPlug(q, s);
      }
      whole := Blacken(Plug(q, s));
      SetColor(root, Black, Top, Plug(q, s));
    }

    ghost predicate Valid()
      reads this, repr, Elems(tree)
    {
      TotalOrder(cmp) && At(Top, tree) && Sound(Top, tree) && Ordered(cmp, InOrder(tree))
    }

    /** What validity means at a node, in terms of its own fields and those of its neighbours. */
    lemma NodeFacts(i: nat)
      requires Valid() && i < |InOrder(tree)|
      ensures var e := InOrder(tree)[i];
        && (e.left != null ==> e.left.parent == e && (e.color == Red ==> e.left.color == Black))
        && (e.right != null ==> e.right.parent == e && (e.color == Red ==> e.right.color == Black))
        && (e.parent == null <==> e == root)
        && (e.parent != null ==> e.parent.left == e || e.parent.right == e)
        && (e == root ==> e.color == Black)
    {
      var q, s := Locate(Top, tree, i);
      FromTop(q, s);
      SoundFromTop(q, s);
      if !q.Top? {
        WhichSide(q, s);
        RootOnPath(q, s.elem);
        assert s.elem in Elems(s);
      }
      ReadColors(s, ParentOf(q));
      assert Linked(s.left, s.elem) && Linked(s.right, s.elem);
    }

    /** RB_SET and the hooking of a fresh leaf below the last node of the search. */
    method Attach(elm: Elem, parent: Elem?, comp: int, ghost p: Path)
      requires At(p, Leaf) && elm !in repr && parent == ParentOf(p)
      requires !p.Top? ==> (comp < 0 <==> p.InLeft?)
      modifies this`root, this`repr, repr`left, repr`right, elm
      ensures repr == old(repr) + {elm} && At(p, Node(Leaf, elm, Red, Leaf))
    {
      elm.parent := parent;
      elm.left, elm.right := null, null;
      elm.color := Red;
      if parent != null {
        if comp < 0 {
          parent.left := elm;
        } else {
          parent.right := elm;
        }
      } else {
        root := elm;
      }
      repr := repr + {elm};
    }

    /** The search loop of RB_INSERT: an equal node, or the place where one belongs. */
    method SearchPlace(key: Key) returns (tmp: Elem?, parent: Elem?, comp: int, ghost p: Path, ghost visited: nat)
      requires Valid()
      ensures tmp != null ==> tmp in InOrder(tree) && cmp(key, tmp.key) == 0
      ensures tmp == null ==> Searching(cmp, p, Leaf, tree, key)
      ensures tmp == null ==> parent == ParentOf(p) && (!p.Top? ==> (comp < 0 <==> p.InLeft?))
      ensures visited <= Height(tree)
    {
      tmp := root;
      parent := null;
      comp := 0;
      p, visited := Top, 0;
      ghost var t := tree;
      while tmp != null
        invariant Linked(t, parent) && Searching(cmp, p, t, tree, key) && visited == Depth(p)
        invariant tmp == Root(t) && parent == ParentOf(p)
        invariant !p.Top? ==> (comp < 0 <==> p.InLeft?)
        decreases t
      {
        parent := tmp;
        comp := cmp(key, parent.key);
        SearchStep(cmp, p, t, tree, key);
        DepthHeight(p, t);
        visited := visited + 1;
        if comp < 0 {
          tmp := tmp.left;
          p, t := InLeft(t.elem, t.color, t.right, p), t.left;
        } else if comp > 0 {
          tmp := tmp.right;
          p, t := InRight(t.left, t.elem, t.color, p), t.right;
        } else {
          return;
        }
      }
      DepthHeight(p, t);
    }

    method InsertAt(elm: Elem, parent: Elem?, comp: int, ghost p: Path) returns (ghost rounds: nat)
      requires At(p, Leaf) && Sound(p, Leaf) && elm !in repr && parent == ParentOf(p)
      requires !p.Top? ==> (comp < 0 <==> p.InLeft?)
      requires TotalOrder(cmp) && Ordered(cmp, Before(p) + [elm] + After(p))
      modifies this, repr, elm
      ensures Valid() && repr == old(repr) + {elm} && InOrder(tree) == Before(p) + [elm] + After(p)
      ensures rounds <= Depth(p)
    {
      ghost var s, leaf := Before(p) + [elm] + After(p), Node(Leaf, elm, Red, Leaf);
      LeafAdded(p, elm);
      Attach(elm, parent, comp, p);
      ghost var whole;
      whole, rounds := InsertColor(elm, p, leaf);
      assert InOrder(whole) == s;
      tree := whole;
    }

    /** RB_INSERT: hands back an equal node and changes nothing, or adds exactly `elm`, at position `i`. The steps are
      * the nodes of the search and the rounds of the recolouring. */
    method Insert(elm: Elem) returns (r: Elem?, ghost i: nat, ghost steps: nat)
      requires Valid()
      modifies this, repr, elm
      ensures Valid()
      ensures r != null ==> tree == old(tree) && repr == old(repr) && r in repr && cmp(elm.key, r.key) == 0
      ensures r == null ==> NoneEqual(cmp, old(InOrder(tree)), elm.key) && repr == old(repr) + {elm}
      ensures r == null ==> var s := old(InOrder(tree)); i <= |s| && InOrder(tree) == s[..i] + [elm] + s[i..]
      ensures steps <= 2 * Height(old(tree))
    {
      i := 0;
      var tmp, parent, comp;
      ghost var p;
      tmp, parent, comp, p, steps := SearchPlace(elm.key);
      r := tmp;
      if tmp != null {
        InOrderElem(tree, tmp);
      } else {
        i := |Before(p)|;
        LeafPlace(cmp, p, tree, elm);
        FromTop(p, Leaf);
        SoundFromTop(p, Leaf);
        DepthHeight(p, Leaf);
        ghost var rounds := InsertAt(elm, parent, comp, p);
        steps := steps + rounds;
      }
    }

    // ----- RB_FIND, RB_NFIND, RB_MINMAX, RB_NEXT, RB_PREV, RB_FOREACH

    method Find(elm: Elem) returns (r: Elem?, ghost visited: nat)
      requires Valid()
      ensures visited <= Height(tree)
      ensures r != null ==> r in InOrder(tree) && cmp(elm.key, r.key) == 0
      ensures r == null ==> NoneEqual(cmp, InOrder(tree), elm.key)
    {
      var tmp := root;
      visited := 0;
      ghost var p, t := Top, tree;
      while tmp != null
        invariant Linked(t, ParentOf(p)) && Searching(cmp, p, t, tree, elm.key) && tmp == Root(t)
        invariant visited == Depth(p)
        decreases t
      {
        var comp := cmp(elm.key, tmp.key);
        SearchStep(cmp, p, t, tree, elm.key);
        DepthHeight(p, t);
        visited := visited + 1;
        if comp < 0 {
          tmp := tmp.left;
          p, t := InLeft(t.elem, t.color, t.right, p), t.left;
        } else if comp > 0 {
          tmp := tmp.right;
          p, t := InRight(t.left, t.elem, t.color, p), t.right;
        } else {
          return tmp, visited;
        }
      }
      PlugInOrder(p, Leaf);
      DepthHeight(p, Leaf);
      return null, visited;
    }

    /** The node at place i is the first that is not below the key. */
    ghost predicate FirstNotBelow(key: Key, i: int)
      reads this
    {
      && 0 <= i < |InOrder(tree)| && cmp(key, InOrder(tree)[i].key) <= 0
      && forall j :: 0 <= j < i ==> cmp(key, InOrder(tree)[j].key) > 0
    }

    /** The least node not below the key, or null if all are below it. */
    method NFind(elm: Elem) returns (r: Elem?, ghost visited: nat)
      requires Valid()
      ensures visited <= Height(tree)
      ensures r != null ==> exists i :: FirstNotBelow(elm.key, i) && r == InOrder(tree)[i]
      ensures r == null ==> forall j :: 0 <= j < |InOrder(tree)| ==> cmp(elm.key, InOrder(tree)[j].key) > 0
    {
      var tmp := root;
      r, visited := null, 0;
      ghost var p, t, s := Top, tree, InOrder(tree);
      while tmp != null
        invariant Linked(t, ParentOf(p)) && Searching(cmp, p, t, tree, elm.key) && tmp == Root(t)
        invariant r == if After(p) == [] then null else After(p)[0]
        invariant visited == Depth(p)
        decreases t
      {
        var comp := cmp(elm.key, tmp.key);
        SearchStep(cmp, p, t, tree, elm.key);
        DepthHeight(p, t);
        visited := visited + 1;
        if comp < 0 {
          r := tmp;
          tmp := tmp.left;
          p, t := InLeft(t.elem, t.color, t.right, p), t.left;
        } else if comp > 0 {
          tmp := tmp.right;
          p, t := InRight(t.left, t.elem, t.color, p), t.right;
        } else {
          ghost var i := |Before(p)| + |InOrder(t.left)|;
          RootIndex(p, t);
          Halves(cmp, s, i, elm.key);
          assert FirstNotBelow(elm.key, i);
          return tmp, visited;
        }
      }
      PlugInOrder(p, Leaf);
      DepthHeight(p, Leaf);
      assert r != null ==> s[|Before(p)|] == r && FirstNotBelow(elm.key, |Before(p)|);
    }

    method MinMax(val: int) returns (parent: Elem?, ghost visited: nat)
      requires Valid()
      ensures visited <= Height(tree)
      ensures tree.Leaf? <==> parent == null
      ensures tree.Node? ==> InOrder(tree) != []
      ensures tree.Node? && val < 0 ==> parent == InOrder(tree)[0]
      ensures tree.Node? && val >= 0 ==> parent == InOrder(tree)[|InOrder(tree)| - 1]
    {
      var tmp := root;
      parent, visited := null, 0;
      ghost var p, t := Top, tree;
      while tmp != null
        invariant Linked(t, parent) && tmp == Root(t) && parent == ParentOf(p) && Plug(p, t) == tree
          && visited == Depth(p)
        invariant val < 0 ==> Before(p) == [] && !p.InRight?
        invariant val >= 0 ==> After(p) == [] && !p.InLeft?
        decreases t
      {
        parent := tmp;
        visited := visited + 1;
        if val < 0 {
          tmp := tmp.left;
          p, t := InLeft(t.elem, t.color, t.right, p), t.left;
        } else {
          tmp := tmp.right;
          p, t := InRight(t.left, t.elem, t.color, p), t.right;
        }
      }
      DepthHeight(p, Leaf);
      if !p.Top? {
        RootIndex(p.up, Around(p, Leaf));
        PlugInOrder(p, Leaf);
      }
    }

    /** From the node at position `i` to the one at `i + 1`, by child and parent pointers alone. */
    method Next(elm: Elem, ghost i: nat) returns (r: Elem?, ghost visited: nat)
      requires Valid() && i < |InOrder(tree)| && InOrder(tree)[i] == elm
      ensures visited <= Height(tree)
      ensures r == if i + 1 < |InOrder(tree)| then InOrder(tree)[i + 1] else null
    {
      ghost var q, s := Locate(Top, tree, i);
      FromTop(q, s);
      DepthHeight(q, s);
      visited := 1;
      if elm.right != null {
        var e := elm.right;
        q, s := InRight(s.left, s.elem, s.color, q), s.right;
        while e.left != null
          invariant s.Node? && e == s.elem && Linked(s, ParentOf(q)) && Plug(q, s) == tree && |Before(q)| == i + 1
          invariant visited <= Depth(q)
          decreases s
        {
          visited := visited + 1;
          e := e.left;
          q, s := InLeft(s.elem, s.color, s.right, q), s.left;
        }
        DepthHeight(q, s);
        RootIndex(q, s);
        return e, visited;
      }
      var e := elm;
      while e.parent != null && e == e.parent.right
        invariant s.Node? && e == s.elem && At(q, s) && Plug(q, s) == tree && |Before(q)| + |InOrder(s)| == i + 1
        invariant visited + Depth(q) <= Height(tree)
        decreases Depth(q)
      {
        visited := visited + 1;
        WhichSide(q, s);
        e := e.parent;
        Up(q, s);
        q, s := q.up, Around(q, s);
      }
      PlugInOrder(q, s);
      if e.parent != null {
        WhichSide(q, s);
        RootIndex(q.up, Around(q, s));
      }
      return e.parent, visited;
    }

    method Prev(elm: Elem, ghost i: nat) returns (r: Elem?, ghost visited: nat)
      requires Valid() && i < |InOrder(tree)| && InOrder(tree)[i] == elm
      ensures visited <= Height(tree)
      ensures r == if i > 0 then InOrder(tree)[i - 1] else null
    {
      ghost var q, s := Locate(Top, tree, i);
      FromTop(q, s);
      RootIndex(q, s);
      if elm.left != null {
        r, visited := LastBelow(elm.left, InLeft(s.elem, s.color, s.right, q), s.left);
      } else {
        r, visited := LastAbove(elm, q, s);
      }
    }

    /** The last node of a subtree. */
    method LastBelow(e0: Elem, ghost q0: Path, ghost s0: Tree) returns (e: Elem, ghost visited: nat)
      requires Valid() && s0.Node? && e0 == s0.elem && Linked(s0, ParentOf(q0)) && Plug(q0, s0) == tree
      ensures visited <= Height(tree)
      ensures |After(q0)| < |InOrder(tree)| && e == InOrder(tree)[|InOrder(tree)| - |After(q0)| - 1]
    {
      e, visited := e0, 1;
      ghost var q, s := q0, s0;
      while e.right != null
        invariant s.Node? && e == s.elem && Linked(s, ParentOf(q)) && Plug(q, s) == tree && |After(q)| == |After(q0)|
        invariant visited <= Depth(q) + 1
        decreases s
      {
        visited := visited + 1;
        e := e.right;
        q, s := InRight(s.left, s.elem, s.color, q), s.right;
      }
      DepthHeight(q, s);
      RootIndex(q, s);
    }

    /** The nearest ancestor on the other side of a subtree. */
    method LastAbove(elm: Elem, ghost q0: Path, ghost s0: Tree) returns (r: Elem?, ghost visited: nat)
      requires Valid() && s0.Node? && elm == s0.elem && At(q0, s0) && Plug(q0, s0) == tree
      ensures visited <= Height(tree)
      ensures var i := |InOrder(tree)| - |After(q0)| - |InOrder(s0)|;
        0 <= i < |InOrder(tree)| && r == if i > 0 then InOrder(tree)[i - 1] else null
    {
      var e := elm;
      visited := 1;
      ghost var q, s := q0, s0;
      DepthHeight(q, s);
      while e.parent != null && e == e.parent.left
        invariant s.Node? && e == s.elem && At(q, s) && Plug(q, s) == tree && visited + Depth(q) <= Height(tree)
        invariant |After(q)| + |InOrder(s)| == |After(q0)| + |InOrder(s0)|
        decreases Depth(q)
      {
        visited := visited + 1;
        WhichSide(q, s);
        e := e.parent;
        Up(q, s);
        q, s := q.up, Around(q, s);
      }
      PlugInOrder(q, s);
      if e.parent != null {
        WhichSide(q, s);
        RootIndex(q.up, Around(q, s));
      }
      return e.parent, visited;
    }

    /** RB_FOREACH with a body that records its node. */
    method Foreach() returns (visited: seq<Elem>)
      requires Valid()
      ensures visited == InOrder(tree)
    {
      visited := [];
      ghost var s := InOrder(tree);
      var x, _ := MinMax(-1);
      while x != null
        invariant |visited| <= |s| && visited == s[..|visited|]
        invariant x == if |visited| < |s| then s[|visited|] else null
        decreases |s| - |visited|
      {
        var y, _ := Next(x, |visited|);
        visited := visited + [x];
        x := y;
      }
    }

    // ----- RB_REMOVE_COLOR

    lemma ReadColors(t: Tree, parent: Elem?)
      requires Linked(t, parent) && t.Node?
      ensures IsRed(t.left) <==> t.elem.left != null && t.elem.left.color == Red
      ensures IsRed(t.right) <==> t.elem.right != null && t.elem.right.color == Red
    {}

    /** The last recolouring and rotation; the short subtree is the parent's left child. */
    method MendLeft(parent: Elem, tmp: Elem, ghost p: Path, ghost t: Tree)
      requires At(p, t) && p.InLeft? && p.elem == parent && p.right.Node? && p.right.elem == tmp && p.right.right.Node?
      modifies this`root, repr`left, repr`right, repr`parent, repr`color
      ensures At(p.up, Mended(p, t))
    {
      ghost var up, s := p.up, p.right;
      Up(p, t);
      DownRight(up, Around(p, t));
      SetColor(tmp, parent.color, InRight(t, parent, p.color, up), s);
      Up(InRight(t, parent, p.color, up), Paint(s, p.color));
      SetColor(parent, Black, up, Node(t, parent, p.color, Paint(s, p.color)));
      DownRight(up, Node(t, parent, Black, Paint(s, p.color)));
      if tmp.right != null {
        DownRight(InRight(t, parent, Black, up), Paint(s, p.color));
        SetColor(tmp.right, Black, InRight(s.left, tmp, p.color, InRight(t, parent, Black, up)), s.right);
        Up(InRight(s.left, tmp, p.color, InRight(t, parent, Black, up)), Paint(s.right, Black));
      }
      ghost var far := s.(color := p.color, right := Paint(s.right, Black));
      Up(InRight(t, parent, Black, up), far);
      var _ := RotateLeft(parent, up, Node(t, parent, Black, far));
    }

    method RemoveFixLeft(elm: Elem?, parent: Elem, ghost p: Path, ghost t: Tree)
      returns (done: bool, next: Elem?, above: Elem?, ghost q: Path, ghost s: Tree)
      requires At(p, t) && Short(p, t) && !IsRed(t) && p.InLeft? && Root(t) == elm && p.elem == parent
      modifies this`root, repr`left, repr`right, repr`parent, repr`color
      ensures At(q, s) && InOrder(Plug(q, s)) == InOrder(Plug(p, t))
      ensures !done ==> Short(q, s) && next == Root(s) && above == ParentOf(q) && Remaining(q, s) < Remaining(p, t)
      ensures done ==> Sound(q, s)
    {
      q := p;
      SiblingExists(p, t);
      var tmp := parent.right;
      if tmp.color == Red {
        Up(p, t);
        LiftRight(tmp, parent, p.up, Around(p, t));
        q := PastRedSibling(p);
        RedSibling(p, t);
        SameOrder(p.up, Around(p, t), Around(q.up, Around(q, t)));
        DownLeft(p.up, Around(q.up, Around(q, t)));
        DownLeft(q.up, Around(q, t));
        tmp := parent.right;
      }
      done, next, above, q, s := RemoveBlackSiblingLeft(elm, parent, tmp, q, t);
    }

    method RemoveBlackSiblingLeft(elm: Elem?, parent: Elem, tmp: Elem, ghost p: Path, ghost t: Tree)
      returns (done: bool, next: Elem?, above: Elem?, ghost q: Path, ghost s: Tree)
      requires At(p, t) && Short(p, t) && !IsRed(t) && p.InLeft? && Root(t) == elm && p.elem == parent
      requires p.right.Node? && tmp == p.right.elem && !IsRed(p.right)
      modifies this`root, repr`left, repr`right, repr`parent, repr`color
      ensures At(q, s) && InOrder(Plug(q, s)) == InOrder(Plug(p, t))
      ensures !done ==> Short(q, s) && next == Root(s) && above == ParentOf(q)
      ensures !done ==> Depth(q) < Depth(p) && s.Node? && s.color == p.color
      ensures done ==> Sound(q, s)
    {
      Up(p, t);
      DownRight(p.up, Around(p, t));
      next, above := null, null;
      ReadColors(p.right, parent);
      if (tmp.left == null || tmp.left.color == Black) && (tmp.right == null || tmp.right.color == Black) {
        SetColor(tmp, Red, InRight(t, parent, p.color, p.up), p.right);
        Up(InRight(t, parent, p.color, p.up), Paint(p.right, Red));
        PassUp(p, t);
        q, s := p.up, Around(RedSide(p), t);
        SameOrder(p.up, Around(p, t), s);
        done, next, above := false, parent, parent.parent;
      } else {
        ghost var m := p;
        var sib := tmp;
        if tmp.right == null || tmp.right.color == Black {
          var near := tmp.left;
          LiftLeft(near, tmp, InRight(t, parent, p.color, p.up), p.right);
          Up(InRight(t, parent, p.color, p.up), LiftedLeft(p.right));
          FarRedShort(p, t);
          m := FarRed(p);
          DownLeft(p.up, Around(m, t));
          sib := parent.right;
        }
        MendLeft(parent, sib, m, t);
        MendSound(m, t);
        q, s := p.up, Mended(m, t);
        SameOrder(p.up, Around(p, t), s);
        done := true;
      }
    }

    /** The last recolouring and rotation; the short subtree is the parent's right child. */
    method MendRight(parent: Elem, tmp: Elem, ghost p: Path, ghost t: Tree)
      requires At(p, t) && p.InRight? && p.elem == parent && p.left.Node? && p.left.elem == tmp && p.left.left.Node?
      modifies this`root, repr`left, repr`right, repr`parent, repr`color
      ensures At(p.up, Mended(p, t))
    {
      ghost var up, s := p.up, p.left;
      Up(p, t);
      DownLeft(up, Around(p, t));
      SetColor(tmp, parent.color, InLeft(parent, p.color, t, up), s);
      Up(InLeft(parent, p.color, t, up), Paint(s, p.color));
      SetColor(parent, Black, up, Node(Paint(s, p.color), parent, p.color, t));
      DownLeft(up, Node(Paint(s, p.color), parent, Black, t));
      if tmp.left != null {
        DownLeft(InLeft(parent, Black, t, up), Paint(s, p.color));
        SetColor(tmp.left, Black, InLeft(tmp, p.color, s.right, InLeft(parent, Black, t, up)), s.left);
        Up(InLeft(tmp, p.color, s.right, InLeft(parent, Black, t, up)), Paint(s.left, Black));
      }
      ghost var far := s.(color := p.color, left := Paint(s.left, Black));
      Up(InLeft(parent, Black, t, up), far);
      var _ := RotateRight(parent, up, Node(far, parent, Black, t));
    }

    method RemoveFixRight(elm: Elem?, parent: Elem, ghost p: Path, ghost t: Tree)
      returns (done: bool, next: Elem?, above: Elem?, ghost q: Path, ghost s: Tree)
      requires At(p, t) && Short(p, t) && !IsRed(t) && p.InRight? && Root(t) == elm && p.elem == parent
      modifies this`root, repr`left, repr`right, repr`parent, repr`color
      ensures At(q, s) && InOrder(Plug(q, s)) == InOrder(Plug(p, t))
      ensures !done ==> Short(q, s) && next == Root(s) && above == ParentOf(q) && Remaining(q, s) < Remaining(p, t)
      ensures done ==> Sound(q, s)
    {
      q := p;
      SiblingExists(p, t);
      var tmp := parent.left;
      if tmp.color == Red {
        Up(p, t);
        LiftLeft(tmp, parent, p.up, Around(p, t));
        q := PastRedSibling(p);
        RedSibling(p, t);
        SameOrder(p.up, Around(p, t), Around(q.up, Around(q, t)));
        DownRight(p.up, Around(q.up, Around(q, t)));
        DownRight(q.up, Around(q, t));
        tmp := parent.left;
      }
      done, next, above, q, s := RemoveBlackSiblingRight(elm, parent, tmp, q, t);
    }

    method RemoveBlackSiblingRight(elm: Elem?, parent: Elem, tmp: Elem, ghost p: Path, ghost t: Tree)
      returns (done: bool, next: Elem?, above: Elem?, ghost q: Path, ghost s: Tree)
      requires At(p, t) && Short(p, t) && !IsRed(t) && p.InRight? && Root(t) == elm && p.elem == parent
      requires p.left.Node? && tmp == p.left.elem && !IsRed(p.left)
      modifies this`root, repr`left, repr`right, repr`parent, repr`color
      ensures At(q, s) && InOrder(Plug(q, s)) == InOrder(Plug(p, t))
      ensures !done ==> Short(q, s) && next == Root(s) && above == ParentOf(q)
      ensures !done ==> Depth(q) < Depth(p) && s.Node? && s.color == p.color
      ensures done ==> Sound(q, s)
    {
      Up(p, t);
      DownLeft(p.up, Around(p, t));
      next, above := null, null;
      ReadColors(p.left, parent);
      if (tmp.left == null || tmp.left.color == Black) && (tmp.right == null || tmp.right.color == Black) {
        SetColor(tmp, Red, InLeft(parent, p.color, t, p.up), p.left);
        Up(InLeft(parent, p.color, t, p.up), Paint(p.left, Red));
        PassUp(p, t);
        q, s := p.up, Around(RedSide(p), t);
        SameOrder(p.up, Around(p, t), s);
        done, next, above := false, parent, parent.parent;
      } else {
        ghost var m := p;
        var sib := tmp;
        if tmp.left == null || tmp.left.color == Black {
          var near := tmp.right;
          LiftRight(near, tmp, InLeft(parent, p.color, t, p.up), p.left);
          Up(InLeft(parent, p.color, t, p.up), LiftedRight(p.left));
          FarRedShort(p, t);
          m := FarRed(p);
          DownRight(p.up, Around(m, t));
          sib := parent.left;
        }
        MendRight(parent, sib, m, t);
        MendSound(m, t);
        q, s := p.up, Mended(m, t);
        SameOrder(p.up, Around(p, t), s);
        done := true;
      }
    }

    method RemoveColor(parent: Elem?, elm: Elem?, ghost p: Path, ghost t: Tree)
      returns (ghost whole: Tree, ghost rounds: nat)
      requires At(p, t) && Short(p, t) && elm == Root(t) && parent == ParentOf(p)
      modifies this`root, repr`left, repr`right, repr`parent, repr`color
      ensures At(Top, whole) && Sound(Top, whole) && InOrder(whole) == InOrder(Plug(p, t)) && rounds <= Remaining(p, t)
    {
      var e, par := elm, parent;
      rounds := 0;
      ghost var q, s := p, t;
      while (e == null || e.color == Black) && e != root
        invariant At(q, s) && Short(q, s) && e == Root(s) && par == ParentOf(q)
        invariant InOrder(Plug(q, s)) == InOrder(Plug(p, t)) && rounds + Remaining(q, s) <= Remaining(p, t)
        decreases Remaining(q, s)
      {
        rounds := rounds + 1;
        var done;
        done, e, par, q, s := RemoveRound(e, par, q, s);
        if done {
          e := root;
          assert rounds <= Remaining(p, t);
          break;
        }
      }
      AtEnd(q, s, e);
      whole := BlackenEnd(e, q, s);
    }

    method RemoveRound(elm: Elem?, parent: Elem?, ghost p: Path, ghost t: Tree)
      returns (done: bool, next: Elem?, above: Elem?, ghost q: Path, ghost s: Tree)
      requires At(p, t) && Short(p, t) && elm == Root(t) && parent == ParentOf(p) && !IsRed(t) && elm != root
      modifies this`root, repr`left, repr`right, repr`parent, repr`color
      ensures At(q, s) && InOrder(Plug(q, s)) == InOrder(Plug(p, t))
      ensures !done ==> Short(q, s) && next == Root(s) && above == ParentOf(q) && Remaining(q, s) < Remaining(p, t)
      ensures done ==> q.Top? && Sound(q, s)
    {
      SiblingExists(p, t);
      WhichSide(p, t);
      if parent.left == elm {
        done, next, above, q, s := RemoveFixLeft(elm, parent, p, t);
      } else {
        done, next, above, q, s := RemoveFixRight(elm, parent, p, t);
      }
      if done {
        ToTop(q, s);
        SoundPlug(q, s);
        q, s := Top, Plug(q, s);
      }
    }

    method BlackenEnd(e: Elem?, ghost q: Path, ghost s: Tree) returns (ghost whole: Tree)
      requires At(q, s) && e == Root(s) && Sound(q, Blacken(s))
      modifies repr`color
      ensures At(Top, whole) && Sound(Top, whole) && InOrder(whole) == InOrder(Plug(q, s))
    {
      if e != null {
        SetColor(e, Black, q, s);
      }
      ToTop(q, Blacken(s));
      SoundPlug(q, Blacken(s));
      SameOrder(q, s, Blacken(s));
      whole := Plug(q, Blacken(s));
    }

    /** Wherever the removal loop stops, blackening the node it stops at makes the whole tree sound. */
    lemma AtEnd(q: Path, s: Tree, e: Elem?)
      requires At(q, s) && e == Root(s) && (Short(q, s) || (q.Top? && Sound(q, s)))
      requires (e != null && e.color == Red) || e == root
      ensures Sound(q, Blacken(s))
    {
      if !q.Top? {
        RootOnPath(q, e);
        assert e != null ==> e in Elems(s);
      }
    }

    // ----- RB_REMOVE

    method Unlink(elm: Elem, child: Elem?, ghost p: Path, ghost t: Tree) returns (parent: Elem?)
      requires At(p, t) && t.Node? && t.elem == elm && (t.left.Leaf? || t.right.Leaf?)
      requires child == Root(OnlyChild(t))
      modifies this`root, this`repr, Only(child)`parent, PathElems(p)`left, PathElems(p)`right
      ensures At(p, OnlyChild(t)) && repr == old(repr) - {elm} && parent == ParentOf(p)
      ensures elm.parent == old(elm.parent)
    {
      parent := elm.parent;
      ghost var c := OnlyChild(t);
      assert Linked(c, elm) && Distinct(c) && elm !in Elems(c) && Elems(t) == Elems(c) + {elm};
      if child != null {
        child.parent := parent;
      }
      assert Linked(c, parent) && PathLinked(p, elm);
      SwapChild(parent, elm, child, p);
      repr := repr - {elm};
    }

    method Reparent(victim: Elem, elm: Elem, ghost l: Tree, ghost r: Tree)
      requires l.Node? && l.elem == victim.left && Root(r) == victim.right
      requires Distinct(l) && Distinct(r) && Elems(l) !! Elems(r) && victim !in Elems(l) + Elems(r)
      requires Linked(l, victim) && Linked(r, victim) && elm !in Elems(l) + Elems(r) + {victim}
      modifies Only(Root(l))`parent, Only(Root(r))`parent
      ensures Linked(l, elm) && Linked(r, elm)
    {
      victim.left.parent := elm;
      if victim.right != null {
        victim.right.parent := elm;
      }
    }

    method HangIn(victim: Elem, elm: Elem, ghost p: Path, ghost l: Tree, ghost r: Tree)
      requires PathLinked(p, victim) && PathDistinct(p) && Linked(l, victim) && Linked(r, victim)
      requires l.Node? && l.elem == victim.left && Root(r) == victim.right && victim.parent == ParentOf(p)
      requires Distinct(l) && Distinct(r) && Elems(l) !! Elems(r)
      requires PathElems(p) !! Elems(l) && PathElems(p) !! Elems(r)
      requires victim !in PathElems(p) + Elems(l) + Elems(r) && elm !in PathElems(p) + Elems(l) + Elems(r)
      requires PathElems(p) + Elems(l) + Elems(r) <= repr && victim in repr && victim != elm
      modifies this`root, PathElems(p)`left, PathElems(p)`right, Only(Root(l))`parent, Only(Root(r))`parent
      ensures PathLinked(p, elm) && Linked(l, elm) && Linked(r, elm)
    {
      SwapChild(victim.parent, victim, elm, p);
      Reparent(victim, elm, l, r);
    }

    method CopyField(victim: Elem, elm: Elem, ghost p: Path, ghost t: Tree)
      requires At(p, t) && t.Node? && t.elem == victim && elm !in repr
      modifies elm
      ensures At(p, t) && Elems(t) == Elems(t.left) + {victim} + Elems(t.right)
      ensures elm.left == victim.left && elm.right == victim.right
      ensures elm.parent == victim.parent && elm.color == victim.color
    {
      elm.left, elm.right, elm.parent, elm.color := victim.left, victim.right, victim.parent, victim.color;
    }

    /** Puts `elm` into the place, colour and links of `victim`, which has two children. */
    method TakePlace(victim: Elem, elm: Elem, ghost p: Path, ghost t: Tree)
      requires At(p, t) && t.Node? && t.elem == victim && t.left.Node? && elm !in repr
      modifies this`root, this`repr, elm, PathElems(p)`left, PathElems(p)`right
      modifies Only(Root(t.left))`parent, Only(Root(t.right))`parent
      ensures At(p, t.(elem := elm)) && repr == old(repr) - {victim} + {elm}
    {
      CopyField(victim, elm, p, t);
      HangIn(victim, elm, p, t.left, t.right);
      repr := repr - {victim} + {elm};
      assert Elems(t.(elem := elm)) == Elems(t.left) + {elm} + Elems(t.right);
    }

    /** What both ways of taking a node out hand to the recolouring: its place is filled, perhaps one black short. */
    ghost predicate Detached(color: Color, p: Path, t: Tree) {
      if color.Black? then Short(p, t) else Sound(p, t)
    }

    lemma {:induction false} ToBase(inner: Path, outer: Path, t: Tree)
      requires At(Onto(inner, outer), t)
      ensures At(outer, Plug(inner, t))
      decreases inner
    {
      if inner.Top? {
      } else {
        Up(Onto(inner, outer), t);
        ToBase(inner.up, outer, Around(inner, t));
      }
    }

    lemma {:induction false} FromBase(inner: Path, outer: Path, t: Tree)
      requires At(outer, Plug(inner, t))
      ensures At(Onto(inner, outer), t)
      decreases inner
    {
      if inner.Top? {
      } else {
        FromBase(inner.up, outer, Around(inner, t));
        if inner.InLeft? {
          DownLeft(Onto(inner.up, outer), Around(inner, t));
        } else {
          DownRight(Onto(inner.up, outer), Around(inner, t));
        }
      }
    }

    /** The leftmost node below the right child: `t` below the left-going path `inner`. */
    method Successor(victim: Elem, ghost q: Path, ghost s: Tree)
      returns (elm: Elem, ghost inner: Path, ghost t: Tree, ghost visited: nat)
      requires At(q, s) && s.Node? && s.elem == victim && s.right.Node?
      ensures t.Node? && t.elem == elm && t.left.Leaf? && AllLeft(inner) && Plug(inner, t) == s.right
      ensures At(Onto(inner, InRight(s.left, victim, s.color, q)), t) && visited == Depth(inner) + 1
    {
      elm, visited := victim.right, 1;
      inner, t := Top, s.right;
      DownRight(q, s);
      while elm.left != null
        invariant Linked(t, elm.parent) && t.Node? && t.elem == elm
        invariant AllLeft(inner) && Plug(inner, t) == s.right && visited == Depth(inner) + 1
        decreases t
      {
        visited := visited + 1;
        elm := elm.left;
        inner, t := InLeft(t.elem, t.color, t.right, inner), t.left;
      }
      FromBase(inner, InRight(s.left, victim, s.color, q), t);
    }

    /** The successor, unlinked from below `inner`, takes over the links and the colour of the removed node. */
    method MoveUp(victim: Elem, elm: Elem, ghost inner: Path, ghost q: Path, ghost s: Tree, ghost r: Tree)
      requires s.Node? && s.elem == victim && s.left.Node? && elm !in repr
      requires At(Onto(inner, InRight(s.left, victim, s.color, q)), r)
      modifies this`root, this`repr, repr, elm
      ensures At(Onto(inner, InRight(s.left, elm, s.color, q)), r) && repr == old(repr) - {victim} + {elm}
    {
      ghost var outer, outer' := InRight(s.left, victim, s.color, q), InRight(s.left, elm, s.color, q);
      ghost var rest := Plug(inner, r);
      ToBase(inner, outer, r);
      Up(outer, rest);
      TakePlace(victim, elm, q, Around(outer, rest));
      DownRight(q, Around(outer', rest));
      FromBase(inner, outer', r);
    }

    lemma ParentBelow(inner: Path, outer: Path, t: Tree)
      requires PathDistinct(Onto(inner, outer)) && !outer.Top?
      ensures inner.Top? ==> ParentOf(Onto(inner, outer)) == outer.elem
      ensures !inner.Top? ==> ParentOf(Onto(inner, outer)) == inner.elem && inner.elem != outer.elem
    {
      OuterElems(inner, outer);
      if !inner.Top? {
        OuterElems(inner.up, outer);
      }
    }

    lemma {:induction false} OuterElems(inner: Path, outer: Path)
      requires !outer.Top?
      ensures outer.elem in PathElems(Onto(inner, outer))
      decreases inner
    {
      if inner.Top? {
      } else {
        OuterElems(inner.up, outer);
      }
    }

    /** Takes the successor `elm` out from below `inner`; `parent` is where its child will hang in the end. */
    method UnlinkSuccessor(victim: Elem, elm: Elem, ghost inner: Path, ghost q: Path, ghost s: Tree, ghost m: Tree)
      returns (parent: Elem?, child: Elem?)
      requires s.Node? && At(Onto(inner, InRight(s.left, victim, s.color, q)), m)
      requires m.Node? && m.elem == elm && m.left.Leaf?
      modifies this`root, this`repr, repr
      ensures At(Onto(inner, InRight(s.left, victim, s.color, q)), m.right)
      ensures child == Root(m.right) && parent == ParentOf(Onto(inner, InRight(s.left, elm, s.color, q)))
      ensures repr - {victim} + {elm} == old(repr) - {victim} && elm !in repr
    {
      ghost var outer := InRight(s.left, victim, s.color, q);
      ParentBelow(inner, outer, m);
      OuterElems(inner, outer);
      child := elm.right;
      parent := Unlink(elm, child, Onto(inner, outer), m);
      if elm.parent == victim {
        parent := elm;
      }
    }

    /** The case of two children: the successor is unlinked and takes the node's place. */
    method DetachInner(victim: Elem, ghost q: Path, ghost s: Tree)
      returns (parent: Elem?, child: Elem?, color: Color, ghost p: Path, ghost t: Tree, ghost visited: nat)
      requires At(q, s) && Sound(q, s) && s.Node? && s.elem == victim && s.left.Node? && s.right.Node?
      modifies this`root, this`repr, repr
      ensures repr == old(repr) - {victim} && At(p, t) && Detached(color, p, t)
      ensures parent == ParentOf(p) && child == Root(t)
      ensures InOrder(Plug(p, t)) == Before(q) + InOrder(s.left) + InOrder(s.right) + After(q)
      ensures visited <= Depth(p) < Height(Plug(q, s))
    {
      var elm;
      ghost var inner, m;
      elm, inner, m, visited := Successor(victim, q, s);
      color := elm.color;
      SoundOnto(inner, InRight(s.left, victim, s.color, q), m);
      SuccessorMoved(inner, q, s, m);
      parent, child := UnlinkSuccessor(victim, elm, inner, q, s, m);
      MoveUp(victim, elm, inner, q, s, m.right);
      p, t := Onto(inner, InRight(s.left, elm, s.color, q)), m.right;
      SuccessorDepth(inner, q, s, m);
    }

    method DetachOuter(elm: Elem, ghost q: Path, ghost s: Tree)
      returns (parent: Elem?, child: Elem?, color: Color)
      requires At(q, s) && Sound(q, s) && s.Node? && s.elem == elm && (s.left.Leaf? || s.right.Leaf?)
      modifies this`root, this`repr, repr
      ensures repr == old(repr) - {elm} && At(q, OnlyChild(s)) && Detached(color, q, OnlyChild(s))
      ensures parent == ParentOf(q) && child == Root(OnlyChild(s))
    {
      child := if elm.left == null then elm.right else elm.left;
      color := elm.color;
      UnlinkSound(q, s);
      parent := Unlink(elm, child, q, s);
    }

    method Detach(elm: Elem, ghost q: Path, ghost s: Tree)
      returns (parent: Elem?, child: Elem?, color: Color, ghost p: Path, ghost t: Tree, ghost visited: nat)
      requires At(q, s) && Sound(q, s) && s.Node? && s.elem == elm
      modifies this`root, this`repr, repr
      ensures repr == old(repr) - {elm} && At(p, t) && Detached(color, p, t)
      ensures parent == ParentOf(p) && child == Root(t)
      ensures InOrder(Plug(p, t)) == Before(q) + InOrder(s.left) + InOrder(s.right) + After(q)
      ensures visited <= Depth(p) < Height(Plug(q, s))
    {
      visited := 0;
      if elm.left == null || elm.right == null {
        p, t := q, OnlyChild(s);
        OnlyChildOrder(q, s);
        DepthHeight(q, s);
        parent, child, color := DetachOuter(elm, q, s);
      } else {
        parent, child, color, p, t, visited := DetachInner(elm, q, s);
      }
    }

    /** RB_REMOVE: unlinks exactly `elm`, which stood at position `i`. The steps are the nodes on the way to the
      * successor and the rounds of the recolouring. */
    method Remove(elm: Elem) returns (r: Elem, ghost i: nat, ghost steps: nat)
      requires Valid() && elm in repr
      modifies this, repr
      ensures Valid() && r == elm && repr == old(repr) - {elm}
      ensures var s := old(InOrder(tree)); i < |s| && s[i] == elm && InOrder(tree) == s[..i] + s[i + 1..]
      ensures steps <= 2 * Height(old(tree))
    {
      ghost var s := InOrder(tree);
      InOrderElem(tree, elm);
      i :| i < |s| && s[i] == elm;
      ghost var q, m := Locate(Top, tree, i);
      FromTop(q, m);
      SoundFromTop(q, m);
      RemovedOrder(cmp, q, m, s, i);
      steps := RemoveAt(elm, q, m);
      r := elm;
    }

    method RemoveAt(elm: Elem, ghost q: Path, ghost m: Tree) returns (ghost steps: nat)
      requires At(q, m) && Sound(q, m) && m.Node? && m.elem == elm
      requires TotalOrder(cmp) && Ordered(cmp, Before(q) + InOrder(m.left) + InOrder(m.right) + After(q))
      modifies this, repr
      ensures Valid() && repr == old(repr) - {elm}
      ensures InOrder(tree) == Before(q) + InOrder(m.left) + InOrder(m.right) + After(q)
      ensures steps <= 2 * Height(Plug(q, m))
    {
      ghost var whole;
      whole, steps := DetachAndRecolor(elm, q, m);
      tree := whole;
    }

    method DetachAndRecolor(elm: Elem, ghost q: Path, ghost m: Tree) returns (ghost whole: Tree, ghost steps: nat)
      requires At(q, m) && Sound(q, m) && m.Node? && m.elem == elm
      modifies this`root, this`repr, repr
      ensures At(Top, whole) && Sound(Top, whole) && repr == old(repr) - {elm}
      ensures InOrder(whole) == Before(q) + InOrder(m.left) + InOrder(m.right) + After(q)
      ensures steps <= 2 * Height(Plug(q, m))
    {
      var parent, child, color;
      ghost var p, t;
      parent, child, color, p, t, steps := Detach(elm, q, m);
      if color == Black {
        ghost var rounds;
        whole, rounds := RemoveColor(parent, child, p, t);
        steps := steps + rounds;
      } else {
        whole := Plug(p, t);
        ToTop(p, t);
        SoundPlug(p, t);
      }
    }
  }

  lemma LeafAdded(p: Path, e: Elem)
    ensures InOrder(Plug(p, Node(Leaf, e, Red, Leaf))) == Before(p) + [e] + After(p)
  {
    PlugInOrder(p, Node(Leaf, e, Red, Leaf));
    assert InOrder(Node(Leaf, e, Red, Leaf)) == [e];
  }

  lemma LeafPlace(cmp: (Key, Key) -> int, p: Path, whole: Tree, e: Elem)
    requires TotalOrder(cmp) && Ordered(cmp, InOrder(whole)) && Searching(cmp, p, Leaf, whole, e.key)
    ensures var s, i := InOrder(whole), |Before(p)|;
      && e !in Elems(whole) && NoneEqual(cmp, s, e.key)
      && i <= |s| && Before(p) + [e] + After(p) == s[..i] + [e] + s[i..]
      && Ordered(cmp, Before(p) + [e] + After(p))
  {
    PlugInOrder(p, Leaf);
    InOrderElem(whole, e);
    NoEqual(cmp, InOrder(whole), |Before(p)|, e);
    InsertedOrdered(cmp, InOrder(whole), |Before(p)|, e);
    assert Before(p) == InOrder(whole)[..|Before(p)|] && After(p) == InOrder(whole)[|Before(p)|..];
  }

  lemma RemovedOrder(cmp: (Key, Key) -> int, q: Path, m: Tree, s: seq<Elem>, i: nat)
    requires m.Node? && InOrder(Plug(q, m)) == s && i == |Before(q)| + |InOrder(m.left)| && Ordered(cmp, s)
    ensures i < |s| && Before(q) + InOrder(m.left) + InOrder(m.right) + After(q) == s[..i] + s[i + 1..]
    ensures Ordered(cmp, Before(q) + InOrder(m.left) + InOrder(m.right) + After(q))
  {
    var a, l, r, z := Before(q), InOrder(m.left), InOrder(m.right), After(q);
    PlugNode(q, m, l, r);
    Gap(cmp, s, a, l, m.elem, r, z);
  }

  lemma PlugNode(q: Path, m: Tree, l: seq<Elem>, r: seq<Elem>)
    requires m.Node? && l == InOrder(m.left) && r == InOrder(m.right)
    ensures InOrder(Plug(q, m)) == Before(q) + (l + [m.elem] + r) + After(q)
  {
    PlugInOrder(q, m);
  }

  lemma Gap(cmp: (Key, Key) -> int, s: seq<Elem>, a: seq<Elem>, l: seq<Elem>, e: Elem, r: seq<Elem>, z: seq<Elem>)
    requires s == a + (l + [e] + r) + z && Ordered(cmp, s)
    ensures var i := |a| + |l|; i < |s| && a + l + r + z == s[..i] + s[i + 1..]
    ensures Ordered(cmp, a + l + r + z)
  {
    var i := |a| + |l|;
    assert a + l + r + z == s[..i] + s[i + 1..];
    OrderedGap(cmp, s, i);
  }

  lemma OrderedGap(cmp: (Key, Key) -> int, s: seq<Elem>, i: nat)
    requires i < |s| && Ordered(cmp, s)
    ensures Ordered(cmp, s[..i] + s[i + 1..])
  {}

  lemma NoEqual(cmp: (Key, Key) -> int, s: seq<Elem>, i: nat, e: Elem)
    requires TotalOrder(cmp) && Narrowed(cmp, s, i, i, e.key)
    ensures e !in s && NoneEqual(cmp, s, e.key)
  {
    assert Mirrored(cmp, e.key, e.key);
  }

  lemma InsertedOrdered(cmp: (Key, Key) -> int, s: seq<Elem>, i: nat, e: Elem)
    requires TotalOrder(cmp) && Ordered(cmp, s) && i <= |s| && Narrowed(cmp, s, i, i, e.key)
    ensures Ordered(cmp, s[..i] + [e] + s[i..])
  {
    assert forall j | 0 <= j < |s| :: Mirrored(cmp, s[j].key, e.key);
  }
}
