/** The mathematical side of the red-black trees of tree.h: nodes, the tree shape they form,
  * paths from a subtree back to the root, and the facts about shape, order and colour that the
  * pointer code in RedBlackTree.dfy relies on.  Nothing here reads the heap. */
module TreeShape {
  import opened Powers

  /** The element type of the macros; `cmp` orders it. */
  type Key(!new)

  datatype Color = Red | Black

  /** A user structure with an RB_ENTRY in it. */
  class Elem {
    const key: Key
    var left: Elem?
    var right: Elem?
    var parent: Elem?
    var color: Color

    constructor (key: Key)
      ensures this.key == key
    {
      this.key := key;
      left, right, parent, color := null, null, null, Red;
    }
  }

  datatype Tree = Leaf | Node(left: Tree, elem: Elem, color: Color, right: Tree)

  /** What surrounds a subtree: the steps from it up to the root. */
  datatype Path =
    | Top
    | InLeft(elem: Elem, color: Color, right: Tree, up: Path)
    | InRight(left: Tree, elem: Elem, color: Color, up: Path)

  ghost function Root(t: Tree): Elem? {
    if t.Leaf? then null else t.elem
  }

  ghost function ParentOf(p: Path): Elem? {
    if p.Top? then null else p.elem
  }

  ghost function Elems(t: Tree): set<Elem> {
    if t.Leaf? then {} else Elems(t.left) + {t.elem} + Elems(t.right)
  }

  ghost function InOrder(t: Tree): seq<Elem> {
    if t.Leaf? then [] else InOrder(t.left) + [t.elem] + InOrder(t.right)
  }

  /** The subtree on the other side of a step. */
  ghost function Side(p: Path): Tree
    requires !p.Top?
  {
    if p.InLeft? then p.right else p.left
  }

  ghost function PathElems(p: Path): set<Elem> {
    if p.Top? then {} else {p.elem} + Elems(Side(p)) + PathElems(p.up)
  }

  /** The tree one step further up when `t` sits in the hole of `p`. */
  ghost function Around(p: Path, t: Tree): Tree
    requires !p.Top?
  {
    if p.InLeft? then Node(t, p.elem, p.color, p.right) else Node(p.left, p.elem, p.color, t)
  }

  ghost function Plug(p: Path, t: Tree): Tree {
    if p.Top? then t else Plug(p.up, Around(p, t))
  }

  /** The elements that come before, and after, the hole of `p` in the in-order sequence. */
  ghost function Before(p: Path): seq<Elem> {
    match p
    case Top => []
    case InLeft(_, _, _, up) => Before(up)
    case InRight(l, e, _, up) => Before(up) + (InOrder(l) + [e])
  }

  ghost function After(p: Path): seq<Elem> {
    match p
    case Top => []
    case InLeft(e, _, r, up) => [e] + InOrder(r) + After(up)
    case InRight(_, _, _, up) => After(up)
  }

  ghost function Depth(p: Path): nat {
    if p.Top? then 0 else 1 + Depth(p.up)
  }

  lemma {:induction false} PlugInOrder(p: Path, t: Tree)
    ensures InOrder(Plug(p, t)) == Before(p) + InOrder(t) + After(p)
    decreases p
  {
    if p.Top? {
    } else {
      PlugInOrder(p.up, Around(p, t));
      assert InOrder(Plug(p, t)) == Before(p.up) + InOrder(Around(p, t)) + After(p.up);
    }
  }

  lemma SameOrder(p: Path, s: Tree, t: Tree)
    requires InOrder(s) == InOrder(t)
    ensures InOrder(Plug(p, s)) == InOrder(Plug(p, t))
  {
    PlugInOrder(p, s);
    PlugInOrder(p, t);
  }

  /** Where the root of a subtree stands in the in-order sequence of the whole. */
  lemma RootIndex(p: Path, t: Tree)
    requires t.Node?
    ensures var s, m := InOrder(Plug(p, t)), |Before(p)| + |InOrder(t.left)|;
      m < |s| && s[m] == t.elem && |Before(InRight(t.left, t.elem, t.color, p))| == m + 1
      && |After(InLeft(t.elem, t.color, t.right, p))| == |s| - m
  {
    PlugInOrder(p, t);
    Middle(Before(p), InOrder(t.left), t.elem, InOrder(t.right), After(p));
  }

  lemma Middle(a: seq<Elem>, l: seq<Elem>, e: Elem, r: seq<Elem>, z: seq<Elem>)
    ensures var s := a + (l + [e] + r) + z;
      |s| == |a| + |l| + 1 + |r| + |z| && s[|a| + |l|] == e
  {}

  lemma InOrderElem(t: Tree, e: Elem)
    ensures e in InOrder(t) <==> e in Elems(t)
  {}

  // ----- No element occurs twice

  ghost predicate Distinct(t: Tree) {
    t.Node? ==>
      && t.elem !in Elems(t.left) && t.elem !in Elems(t.right)
      && Elems(t.left) !! Elems(t.right)
      && Distinct(t.left) && Distinct(t.right)
  }

  ghost predicate PathDistinct(p: Path) {
    !p.Top? ==>
      && p.elem !in Elems(Side(p)) && p.elem !in PathElems(p.up)
      && Elems(Side(p)) !! PathElems(p.up)
      && Distinct(Side(p)) && PathDistinct(p.up)
  }

  // ----- Rotations

  ghost function TurnLeft(t: Tree): Tree
    requires t.Node? && t.right.Node?
  {
    Node(Node(t.left, t.elem, t.color, t.right.left), t.right.elem, t.right.color, t.right.right)
  }

  ghost function TurnRight(t: Tree): Tree
    requires t.Node? && t.left.Node?
  {
    Node(t.left.left, t.left.elem, t.left.color, Node(t.left.right, t.elem, t.color, t.right))
  }

  lemma TurnLeftOrder(t: Tree)
    requires t.Node? && t.right.Node?
    ensures InOrder(TurnLeft(t)) == InOrder(t)
  {
    assert InOrder(TurnLeft(t).left) == InOrder(t.left) + [t.elem] + InOrder(t.right.left);
  }

  lemma TurnRightOrder(t: Tree)
    requires t.Node? && t.left.Node?
    ensures InOrder(TurnRight(t)) == InOrder(t)
  {
    assert InOrder(TurnRight(t).right) == InOrder(t.left.right) + [t.elem] + InOrder(t.right);
  }

  lemma TurnLeftKeeps(t: Tree)
    requires t.Node? && t.right.Node? && Distinct(t)
    ensures Distinct(TurnLeft(t)) && Elems(TurnLeft(t)) == Elems(t)
    ensures Elems(t) == Elems(t.left) + {t.elem} + Elems(t.right.left) + {t.right.elem} + Elems(t.right.right)
    ensures {t.elem, t.right.elem} !! Elems(t.left) + Elems(t.right.left) + Elems(t.right.right)
    ensures Elems(t.left) !! Elems(t.right.left) !! Elems(t.right.right)
  {
    assert Elems(t.right) == Elems(t.right.left) + {t.right.elem} + Elems(t.right.right);
    assert Distinct(t.right);
    var low := TurnLeft(t).left;
    assert Elems(low) == Elems(t.left) + {t.elem} + Elems(t.right.left);
    assert Distinct(low);
  }

  lemma TurnRightKeeps(t: Tree)
    requires t.Node? && t.left.Node? && Distinct(t)
    ensures Distinct(TurnRight(t)) && Elems(TurnRight(t)) == Elems(t)
    ensures Elems(t) == Elems(t.left.left) + {t.left.elem} + Elems(t.left.right) + {t.elem} + Elems(t.right)
    ensures {t.elem, t.left.elem} !! Elems(t.left.left) + Elems(t.left.right) + Elems(t.right)
    ensures Elems(t.left.left) !! Elems(t.left.right) !! Elems(t.right)
  {
    assert Elems(t.left) == Elems(t.left.left) + {t.left.elem} + Elems(t.left.right);
    assert Distinct(t.left);
    var low := TurnRight(t).right;
    assert Elems(low) == Elems(t.left.right) + {t.elem} + Elems(t.right);
    assert Distinct(low);
  }

  // ----- Colours

  ghost predicate IsRed(t: Tree) {
    t.Node? && t.color.Red?
  }

  ghost function Weight(c: Color): nat {
    if c.Black? then 1 else 0
  }

  /** The number of black nodes on the leftmost way down; on every way down if `Balanced`. */
  ghost function BlackHeight(t: Tree): nat {
    if t.Leaf? then 0 else BlackHeight(t.left) + Weight(t.color)
  }

  /** Both subtrees are red-black and agree on their black heights; the root may break the colour rule. */
  ghost predicate Nearly(t: Tree) {
    t.Node? ==> RB(t.left) && RB(t.right) && BlackHeight(t.left) == BlackHeight(t.right)
  }

  /** Equal black heights everywhere and no red node with a red child. */
  ghost predicate RB(t: Tree) {
    t.Node? ==>
      && RB(t.left) && RB(t.right) && BlackHeight(t.left) == BlackHeight(t.right)
      && (t.color.Red? ==> !IsRed(t.left) && !IsRed(t.right))
  }

  /** The surroundings are red-black, provided a tree of black height `h` fills the hole. */
  ghost predicate PathRB(p: Path, h: nat) {
    !p.Top? ==>
      && RB(Side(p)) && BlackHeight(Side(p)) == h
      && (p.color.Red? ==> !IsRed(Side(p)) && !p.up.Top? && p.up.color.Black?)
      && PathRB(p.up, h + Weight(p.color))
  }

  /** A red tree may sit only below a black parent. */
  ghost predicate Fits(p: Path, t: Tree) {
    IsRed(t) ==> !p.Top? && p.color.Black?
  }

  ghost predicate Sound(p: Path, t: Tree) {
    RB(t) && PathRB(p, BlackHeight(t)) && Fits(p, t)
  }

  /** The state of the insertion loop: a sound red subtree whose parent may be red as well. */
  ghost predicate RedBelow(p: Path, t: Tree) {
    IsRed(t) && RB(t) && PathRB(p, BlackHeight(t))
  }

  ghost function Paint(t: Tree, c: Color): Tree
    requires t.Node?
  {
    t.(color := c)
  }

  ghost function Blacken(t: Tree): Tree {
    if t.Leaf? then t else t.(color := Black)
  }

  lemma {:induction false} SoundPlug(p: Path, t: Tree)
    requires Sound(p, t)
    ensures RB(Plug(p, t)) && !IsRed(Plug(p, t))
    decreases p
  {
    if p.Top? {
    } else {
      SoundPlug(p.up, Around(p, t));
    }
  }

  lemma {:induction false} SoundFromTop(p: Path, t: Tree)
    requires Sound(Top, Plug(p, t))
    ensures Sound(p, t)
    decreases p
  {
    if p.Top? {
    } else {
      SoundFromTop(p.up, Around(p, t));
    }
  }

  /** Every in-order position is the root of some subtree. */
  lemma {:induction false} Locate(p: Path, t: Tree, k: nat) returns (q: Path, s: Tree)
    requires k < |InOrder(t)|
    ensures Plug(q, s) == Plug(p, t) && s.Node? && s.elem == InOrder(t)[k]
    ensures |Before(q)| + |InOrder(s.left)| == |Before(p)| + k
    decreases t
  {
    var n := |InOrder(t.left)|;
    if k < n {
      q, s := Locate(InLeft(t.elem, t.color, t.right, p), t.left, k);
    } else if k > n {
      q, s := Locate(InRight(t.left, t.elem, t.color, p), t.right, k - n - 1);
    } else {
      q, s := p, t;
    }
  }

  // ----- The cases of the insertion loop, grandparent g = Around(p.up, Around(p, t))

  ghost function Flipped(g: Tree): Tree
    requires g.Node? && g.left.Node? && g.right.Node?
  {
    Node(Paint(g.left, Black), g.elem, Red, Paint(g.right, Black))
  }

  ghost function LiftedLeft(g: Tree): Tree
    requires g.Node? && g.left.Node?
  {
    TurnRight(Node(Paint(g.left, Black), g.elem, Red, g.right))
  }

  ghost function LiftedRight(g: Tree): Tree
    requires g.Node? && g.right.Node?
  {
    TurnLeft(Node(g.left, g.elem, Red, Paint(g.right, Black)))
  }

  lemma FlipSound(p: Path, t: Tree)
    requires RedBelow(p, t) && !p.Top? && p.color.Red? && IsRed(Side(p.up))
    ensures RedBelow(p.up.up, Flipped(Around(p.up, Around(p, t))))
  {
    assert PathRB(p.up, BlackHeight(t)) && PathRB(p.up.up, BlackHeight(t) + 1);
    var g := Around(p.up, Around(p, t));
    assert BlackHeight(Flipped(g)) == BlackHeight(t) + 1;
  }

  lemma LiftLeftSound(p: Path, t: Tree)
    requires RedBelow(p, t) && !p.Top? && p.color.Red? && p.up.InLeft? && !IsRed(p.up.right)
    ensures var g := Around(p.up, Around(p, t));
      var r := LiftedLeft(if p.InLeft? then g else g.(left := TurnLeft(g.left)));
      InOrder(r) == InOrder(g) && RedBelow(InLeft(r.elem, Black, r.right, p.up.up), r.left)
  {
    assert PathRB(p.up, BlackHeight(t)) && PathRB(p.up.up, BlackHeight(t) + 1);
    var g := Around(p.up, Around(p, t));
    var h := if p.InLeft? then g else g.(left := TurnLeft(g.left));
    if p.InRight? {
      TurnLeftOrder(g.left);
    }
    TurnRightOrder(Node(Paint(h.left, Black), h.elem, Red, h.right));
  }

  lemma LiftRightSound(p: Path, t: Tree)
    requires RedBelow(p, t) && !p.Top? && p.color.Red? && p.up.InRight? && !IsRed(p.up.left)
    ensures var g := Around(p.up, Around(p, t));
      var r := LiftedRight(if p.InRight? then g else g.(right := TurnRight(g.right)));
      InOrder(r) == InOrder(g) && RedBelow(InRight(r.left, r.elem, Black, p.up.up), r.right)
  {
    assert PathRB(p.up, BlackHeight(t)) && PathRB(p.up.up, BlackHeight(t) + 1);
    var g := Around(p.up, Around(p, t));
    var h := if p.InRight? then g else g.(right := TurnRight(g.right));
    if p.InLeft? {
      TurnRightOrder(g.right);
    }
    TurnLeftOrder(Node(h.left, h.elem, Red, Paint(h.right, Black)));
  }

  // ----- The cases of the removal loop: the hole of `p` holds `t`, one black short

  ghost predicate Short(p: Path, t: Tree) {
    Nearly(t) && PathRB(p, BlackHeight(t) + 1)
  }

  /** Falls in every round of the removal loop; plain depth does not when the sibling is red. */
  ghost function Remaining(p: Path, t: Tree): nat {
    Depth(p) + if IsRed(t) then 0 else 1
  }

  /** The sibling of a short subtree is never missing, nor are the children of a red one. */
  lemma SiblingExists(p: Path, t: Tree)
    requires Short(p, t) && !p.Top?
    ensures Side(p).Node? && (IsRed(Side(p)) ==> Side(p).left.Node? && Side(p).right.Node?)
  {}

  /** Red sibling: the path after RB_SET_BLACKRED(tmp, parent) and the rotation of the parent. */
  ghost function PastRedSibling(p: Path): Path
    requires !p.Top? && Side(p).Node?
  {
    var s := Side(p);
    if p.InLeft? then InLeft(p.elem, Red, s.left, InLeft(s.elem, Black, s.right, p.up))
    else InRight(s.right, p.elem, Red, InRight(s.left, s.elem, Black, p.up))
  }

  lemma RedSibling(p: Path, t: Tree)
    requires Short(p, t) && !p.Top? && IsRed(Side(p))
    ensures var q := PastRedSibling(p);
      && Short(q, t) && Side(q).Node? && !IsRed(Side(q)) && Depth(q) == Depth(p) + 1
      && InOrder(Around(q.up, Around(q, t))) == InOrder(Around(p, t))
  {
    SiblingExists(p, t);
    assert PathRB(p.up, BlackHeight(t) + 2);
    if p.InLeft? {
      TurnLeftOrder(Node(t, p.elem, Red, Paint(p.right, Black)));
    } else {
      TurnRightOrder(Node(Paint(p.left, Black), p.elem, Red, t));
    }
  }

  ghost predicate NoRedChild(t: Tree) {
    t.Node? ==> !IsRed(t.left) && !IsRed(t.right)
  }

  ghost function RedSide(p: Path): Path
    requires !p.Top? && Side(p).Node?
  {
    if p.InLeft? then p.(right := Paint(p.right, Red)) else p.(left := Paint(p.left, Red))
  }

  /** Black sibling without red children: it turns red and the shortage moves up. */
  lemma PassUp(p: Path, t: Tree)
    requires Short(p, t) && !p.Top? && !IsRed(t) && Side(p).Node? && !IsRed(Side(p)) && NoRedChild(Side(p))
    ensures Short(p.up, Around(RedSide(p), t)) && InOrder(Around(RedSide(p), t)) == InOrder(Around(p, t))
  {}

  /** Black sibling with a red far child: the tree after the final recolouring and rotation. */
  ghost function Mended(p: Path, t: Tree): Tree
    requires !p.Top? && Side(p).Node? && (if p.InLeft? then Side(p).right.Node? else Side(p).left.Node?)
  {
    var s := Side(p);
    if p.InLeft? then Node(Node(t, p.elem, Black, s.left), s.elem, p.color, Paint(s.right, Black))
    else Node(Paint(s.left, Black), s.elem, p.color, Node(s.right, p.elem, Black, t))
  }

  lemma MendSound(p: Path, t: Tree)
    requires Short(p, t) && !p.Top? && !IsRed(t) && Side(p).Node? && !IsRed(Side(p))
    requires IsRed(if p.InLeft? then Side(p).right else Side(p).left)
    ensures Sound(p.up, Mended(p, t)) && InOrder(Mended(p, t)) == InOrder(Around(p, t))
  {
    assert RB(Side(p).left) && RB(Side(p).right);
    if p.InLeft? {
      TurnLeftOrder(Around(p, t));
      assert InOrder(Paint(p.right.right, Black)) == InOrder(p.right.right);
    } else {
      TurnRightOrder(Around(p, t));
      assert InOrder(Paint(p.left.left, Black)) == InOrder(p.left.left);
    }
  }

  /** Only the near child of the sibling is red: the path after its rotation into the sibling's place. */
  ghost function FarRed(p: Path): Path
    requires !p.Top? && Side(p).Node? && (if p.InLeft? then Side(p).left.Node? else Side(p).right.Node?)
  {
    if p.InLeft? then p.(right := LiftedLeft(p.right)) else p.(left := LiftedRight(p.left))
  }

  lemma FarRedShort(p: Path, t: Tree)
    requires Short(p, t) && !p.Top? && Side(p).Node? && !IsRed(Side(p)) && !NoRedChild(Side(p))
    requires !IsRed(if p.InLeft? then Side(p).right else Side(p).left)
    ensures Short(FarRed(p), t) && Side(FarRed(p)).Node? && !IsRed(Side(FarRed(p)))
    ensures IsRed(if p.InLeft? then Side(FarRed(p)).right else Side(FarRed(p)).left)
    ensures InOrder(Around(FarRed(p), t)) == InOrder(Around(p, t))
  {
    var near := if p.InLeft? then Side(p).left else Side(p).right;
    assert RB(Side(p).left) && RB(Side(p).right) && RB(near.left) && RB(near.right);
    if p.InLeft? {
      assert InOrder(Paint(near, Black)) == InOrder(near);
      TurnRightOrder(Node(Paint(p.right.left, Black), p.right.elem, Red, p.right.right));
    } else {
      assert InOrder(Paint(near, Black)) == InOrder(near);
      TurnLeftOrder(Node(p.left.left, p.left.elem, Red, Paint(p.left.right, Black)));
    }
  }

  /** A node with at most one child makes way for it. */
  ghost function OnlyChild(t: Tree): Tree
    requires t.Node?
  {
    if t.left.Leaf? then t.right else t.left
  }

  lemma OnlyChildOrder(p: Path, t: Tree)
    requires t.Node? && (t.left.Leaf? || t.right.Leaf?)
    ensures InOrder(Plug(p, OnlyChild(t))) == Before(p) + InOrder(t.left) + InOrder(t.right) + After(p)
  {
    PlugInOrder(p, OnlyChild(t));
    assert InOrder(OnlyChild(t)) == InOrder(t.left) + InOrder(t.right);
    assert Before(p) + (InOrder(t.left) + InOrder(t.right)) == Before(p) + InOrder(t.left) + InOrder(t.right);
  }

  lemma UnlinkSound(p: Path, t: Tree)
    requires Sound(p, t) && t.Node? && (t.left.Leaf? || t.right.Leaf?)
    ensures t.color.Black? ==> Short(p, OnlyChild(t))
    ensures t.color.Red? ==> Sound(p, OnlyChild(t))
  {
    var c := OnlyChild(t);
    assert RB(c) && BlackHeight(c) == BlackHeight(t.left) == BlackHeight(t.right);
    assert c.Node? && c.color.Black? ==> BlackHeight(c) >= 1;
  }

  // ----- Paths inside paths

  /** The path `inner` continued by `outer`. */
  ghost function Onto(inner: Path, outer: Path): Path {
    match inner
    case Top => outer
    case InLeft(e, c, r, up) => InLeft(e, c, r, Onto(up, outer))
    case InRight(l, e, c, up) => InRight(l, e, c, Onto(up, outer))
  }

  /** Every step of the path goes into a left child. */
  ghost predicate AllLeft(p: Path) {
    p.Top? || (p.InLeft? && AllLeft(p.up))
  }

  lemma {:induction false} OntoOrder(inner: Path, outer: Path)
    requires AllLeft(inner)
    ensures Before(Onto(inner, outer)) == Before(outer)
    ensures After(Onto(inner, outer)) == After(inner) + After(outer)
    ensures Before(inner) == []
    decreases inner
  {
    match inner
    case Top =>
    case InLeft(e, c, r, up) =>
      OntoOrder(up, outer);
      var here := [e] + InOrder(r);
      assert here + (After(up) + After(outer)) == (here + After(up)) + After(outer);
    case InRight(_, _, _, _) =>
  }

  /** Colours along a path do not depend on which element sits in the place of `x`. */
  lemma {:induction false} SwapElem(inner: Path, l: Tree, x: Elem, y: Elem, c: Color, up: Path, h: nat)
    requires PathRB(Onto(inner, InRight(l, x, c, up)), h)
    ensures PathRB(Onto(inner, InRight(l, y, c, up)), h)
    decreases inner
  {
    if inner.Top? {
    } else {
      SwapElem(inner.up, l, x, y, c, up, h + Weight(inner.color));
    }
  }

  lemma {:induction false} SoundOnto(inner: Path, outer: Path, t: Tree)
    requires Sound(outer, Plug(inner, t))
    ensures Sound(Onto(inner, outer), t)
    decreases inner
  {
    if inner.Top? {
    } else {
      SoundOnto(inner.up, outer, Around(inner, t));
    }
  }

  /** Order and colours after the successor `m`, found below `inner`, has moved into its ancestor's place. */
  lemma SuccessorMoved(inner: Path, q: Path, s: Tree, m: Tree)
    requires s.Node? && m.Node? && m.left.Leaf? && AllLeft(inner) && Plug(inner, m) == s.right
    requires Sound(Onto(inner, InRight(s.left, s.elem, s.color, q)), m)
    ensures var p := Onto(inner, InRight(s.left, m.elem, s.color, q));
      && (m.color.Black? ==> Short(p, m.right)) && (m.color.Red? ==> Sound(p, m.right))
      && InOrder(Plug(p, m.right)) == Before(q) + InOrder(s.left) + InOrder(s.right) + After(q)
  {
    var outer := InRight(s.left, m.elem, s.color, q);
    var p := Onto(inner, outer);
    var old' := Onto(inner, InRight(s.left, s.elem, s.color, q));
    UnlinkSound(old', m);
    if m.color.Black? {
      SwapElem(inner, s.left, s.elem, m.elem, s.color, q, BlackHeight(m.right) + 1);
    } else {
      SwapElem(inner, s.left, s.elem, m.elem, s.color, q, BlackHeight(m.right));
      assert p.Top? == old'.Top? && (!p.Top? ==> p.color == old'.color);
    }
    PlugInOrder(p, m.right);
    PlugInOrder(inner, m);
    OntoOrder(inner, outer);
    SpliceSeq(Before(q), InOrder(s.left), m.elem, InOrder(m.right), After(inner), After(q));
  }

  lemma SpliceSeq(a: seq<Elem>, l: seq<Elem>, e: Elem, r: seq<Elem>, i: seq<Elem>, z: seq<Elem>)
    ensures (a + (l + [e])) + r + (i + z) == a + l + ([] + ([] + [e] + r) + i) + z
  {}

  // ----- The height bound

  ghost function Height(t: Tree): nat {
    if t.Leaf? then 0
    else 1 + if Height(t.left) > Height(t.right) then Height(t.left) else Height(t.right)
  }

  /** A tree of black height h holds at least 2^h - 1 nodes and is at most 2h (+1 if red) high. */
  lemma {:induction false} BlackHeightBounds(t: Tree)
    requires RB(t)
    ensures Pow2(BlackHeight(t)) <= |InOrder(t)| + 1
    ensures Height(t) <= 2 * BlackHeight(t) + (if IsRed(t) then 1 else 0)
  {
    if t.Leaf? {
    } else {
      BlackHeightBounds(t.left);
      BlackHeightBounds(t.right);
    }
  }

  lemma Square(m: nat, n: nat)
    requires m <= n
    ensures m * m <= n * n
  {
    assert m * m <= m * n;
  }

  /** Height at most 2*lg(n+1), with both sides raised to powers of two. */
  lemma HeightBound(t: Tree)
    requires RB(t) && !IsRed(t)
    ensures Pow2(Height(t)) <= (|InOrder(t)| + 1) * (|InOrder(t)| + 1)
  {
    var h, n := BlackHeight(t), |InOrder(t)| + 1;
    BlackHeightBounds(t);
    Pow2Grows(Height(t), 2 * h);
    Pow2Double(h);
    Square(Pow2(h), n);
  }

  /** A position in a tree is no deeper than the tree is high. */
  lemma {:induction false} DepthHeight(p: Path, t: Tree)
    ensures Depth(p) + Height(t) <= Height(Plug(p, t))
    decreases p
  {
    if p.Top? {
    } else {
      DepthHeight(p.up, Around(p, t));
    }
  }

  lemma {:induction false} DepthOnto(inner: Path, outer: Path)
    ensures Depth(Onto(inner, outer)) == Depth(inner) + Depth(outer)
    decreases inner
  {
    if inner.Top? {
    } else {
      DepthOnto(inner.up, outer);
    }
  }

  /** The place of the successor, when it has moved into the place of the root of s, is no deeper than s allows. */
  lemma SuccessorDepth(inner: Path, q: Path, s: Tree, m: Tree)
    requires s.Node? && m.Node? && Plug(inner, m) == s.right
    ensures Depth(inner) + 1 <= Depth(Onto(inner, InRight(s.left, m.elem, s.color, q))) < Height(Plug(q, s))
  {
    DepthOnto(inner, InRight(s.left, m.elem, s.color, q));
    DepthHeight(inner, m);
    DepthHeight(q, s);
  }

  /** What is within twice the height is at most 4 * lg(n + 1), with both sides raised to powers of two. */
  lemma StepsBound(t: Tree, steps: nat)
    requires RB(t) && !IsRed(t) && steps <= 2 * Height(t)
    ensures var n := |InOrder(t)| + 1; Pow2(steps) <= (n * n) * (n * n)
  {
    var h, n := Height(t), |InOrder(t)| + 1;
    HeightBound(t);
    Pow2Grows(steps, 2 * h);
    Pow2Double(h);
    Square(Pow2(h), n * n);
  }
}
